/** The state changes of `app/admin/routes.py`, one function per handler: each
    maps the tables before the request to the tables after it and the outcome
    reported. Every handler is one atomic step; a refused request changes
    nothing. Beside each function, the lemmas state what the handler promises
    and that it keeps the constraints of `Schema.Consistent`. */
module AdminRoutes {

  import opened Seqs
  import opened Text
  import opened Models
  import opened Schema
  import opened Forms
  import opened Outcomes

  const RoutesAction: string := "Управление маршрутами"
  const CreateAction: string := "Создание"
  const EditAction: string := "Редактирование"
  const DeleteAction: string := "Удаление"
  const CancelAction: string := "Отмена этапа"

  // The `details` text of each audit entry the handlers write.
  function RouteCreated(name: string): string { "Создан новый маршрут '" + name + "'." }
  function RouteEdited(name: string): string { "Изменен маршрут '" + name + "'." }
  function RouteDeleted(name: string): string { "Удален маршрут '" + name + "'." }
  const PartCreatedManually: string := "Деталь создана вручную."
  function PartImported(fileName: string): string { "Деталь импортирована из файла " + fileName + "." }
  function DesignationChanged(before: string, after: string): string
  {
    "Поле 'Название изделия' изменено с '" + before + "' на '" + after + "'."
  }
  function PartDeleted(partId: string): string { "Деталь '" + partId + "' и вся ее история были удалены." }
  function StageCancelled(status: string): string { "Отменен этап производства: '" + status + "'." }

  /** The part id pandas produces for an empty cell. */
  const MissingCell: string := "nan"

  // ----- add_stage -----

  /** `Stage.query.filter(Stage.name.ilike(name)).first()`. */
  function StageNamedLike(stages: seq<Stage>, name: string): Option<nat>
  {
    Find(stages, (s: Stage) => SameIgnoringCase(s.name, name))
  }

  /** `add_stage`: the name is stripped; a stage whose name matches it up to case
      makes the request a duplicate; otherwise exactly one stage is added. */
  function AddStage(db: Tables, name: string): (r: Step)
    ensures r.out.Invalid? <==> IsBlank(name)
    ensures r.out == Duplicate <==>
      !IsBlank(name) && exists i :: 0 <= i < |db.stages| && SameIgnoringCase(db.stages[i].name, Strip(name))
    ensures r.out == Ok || r.out == Duplicate || r.out.Invalid?
    ensures r.out != Ok ==> r.db == db
    ensures r.out == Ok ==>
      r.db == db.(stages := db.stages + [Stage(db.nextId, Strip(name))], nextId := db.nextId + 1)
  {
    var errs := StageFormErrors(name);
    if errs != [] then Step(db, Invalid(errs))
    else
      var stripped := Strip(name);
      if StageNamedLike(db.stages, stripped).Some? then Step(db, Duplicate)
      else Step(db.(stages := db.stages + [Stage(db.nextId, stripped)], nextId := db.nextId + 1), Ok)
  }

  lemma AddStageKeeps(db: Tables, name: string)
    requires Consistent(db)
    ensures Consistent(AddStage(db, name).db)
  {
    var r := AddStage(db, name);
    if r.out == Ok {
      var s := Stage(db.nextId, Strip(name));
      forall i | 0 <= i < |db.stages| ensures db.stages[i].name != s.name {
        assert !SameIgnoringCase(db.stages[i].name, s.name);
      }
      AppendStageKeeps(db, s);
    }
  }

  /** Appending a stage with the next id and a name no stage bears keeps the
      tables consistent. */
  lemma AppendStageKeeps(db: Tables, s: Stage)
    requires Consistent(db) && s.id == db.nextId
    requires forall i :: 0 <= i < |db.stages| ==> db.stages[i].name != s.name
    ensures Consistent(db.(stages := db.stages + [s], nextId := db.nextId + 1))
  {
    var t := db.(stages := db.stages + [s], nextId := db.nextId + 1);
    PairwiseAppendOne(db.stages, s, (a: Stage, b: Stage) => a.id != b.id && a.name != b.name);
    assert StagesOk(t.stages, t.nextId);
    StageIdsGrow(db.stages, s);
    assert RouteStagesOk(t.routeStages, t.stages, t.templates);
    TemplatesOkBump(t.templates, db.nextId, t.nextId);
  }

  // ----- delete_stage -----

  /** `delete_stage`: a missing id is not found; a stage some route still uses is
      kept; otherwise that stage, and only it, is removed. */
  function DeleteStage(db: Tables, stageId: int): (r: Step)
    ensures r.out == NotFound <==> !IsStageId(db.stages, stageId)
    ensures r.out == InUse <==> IsStageId(db.stages, stageId) && StageInUse(db.routeStages, stageId)
    ensures r.out == Ok || r.out == NotFound || r.out == InUse
    ensures r.out != Ok ==> r.db == db
    ensures r.out == Ok ==> r.db == db.(stages := WithoutStage(db.stages, stageId))
  {
    match FindStage(db.stages, stageId)
    case None => Step(db, NotFound)
    case Some(_) =>
      if StageInUse(db.routeStages, stageId) then Step(db, InUse)
      else Step(db.(stages := WithoutStage(db.stages, stageId)), Ok)
  }

  /** Where stage ids are unique, deleting a stage shortens the dictionary by one
      and keeps every other stage. */
  lemma DeleteStageRemovesOne(db: Tables, stageId: int)
    requires Consistent(db) && DeleteStage(db, stageId).out == Ok
    ensures |DeleteStage(db, stageId).db.stages| == |db.stages| - 1
    ensures forall i :: 0 <= i < |db.stages| && db.stages[i].id != stageId ==>
              db.stages[i] in DeleteStage(db, stageId).db.stages
  {
    var k :| 0 <= k < |db.stages| && db.stages[k].id == stageId;
    forall i | 0 <= i < |db.stages| && i != k ensures db.stages[i].id != stageId {
      if i < k {
        assert ((a: Stage, b: Stage) => a.id != b.id && a.name != b.name)(db.stages[i], db.stages[k]);
      } else {
        assert ((a: Stage, b: Stage) => a.id != b.id && a.name != b.name)(db.stages[k], db.stages[i]);
      }
    }
    FilterDropsOne(db.stages, (s: Stage) => s.id != stageId, k);
  }

  lemma DeleteStageKeeps(db: Tables, stageId: int)
    requires Consistent(db)
    ensures Consistent(DeleteStage(db, stageId).db)
  {
    var r := DeleteStage(db, stageId);
    if r.out == Ok {
      var rest := WithoutStage(db.stages, stageId);
      FilterPairwise(db.stages, (s: Stage) => s.id != stageId, (a: Stage, b: Stage) => a.id != b.id && a.name != b.name);
      forall i | 0 <= i < |db.routeStages| ensures IsStageId(rest, db.routeStages[i].stageId) {
        var x := db.routeStages[i].stageId;
        var j :| 0 <= j < |db.stages| && db.stages[j].id == x;
        assert db.stages[j] in rest;
      }
    }
  }

  // ----- add_route, edit_route, delete_route -----

  /** `RouteTemplate.query.update({is_default: False})`, run only when the
      submitted template is to become the default. */
  function DefaultsFor(templates: seq<RouteTemplate>, isDefault: bool): (r: seq<RouteTemplate>)
    ensures |r| == |templates|
    ensures forall i :: 0 <= i < |r| ==>
              r[i] == templates[i].(isDefault := templates[i].isDefault && !isDefault)
  {
    if isDefault then ClearDefaults(templates) else templates
  }

  /** `add_route`: on a valid form a new template is stored, its stages are
      written with orders 0..n-1 in submission order, and one audit entry is
      appended. Setting the default flag clears it on every other template. */
  function AddRoute(db: Tables, userId: int, now: int, name: string, isDefault: bool,
                    stageIds: seq<int>): (r: Step)
    ensures r.out == Ok <==> RouteFormErrors(db.templates, db.stages, name, stageIds, None) == []
    ensures r.out != Ok ==> r.out.Invalid? && r.db == db
    ensures stageIds == [] ==> r.out.Invalid? && Required(StagesField) in r.out.errors
    ensures r.out == Ok ==>
      && |r.db.templates| == |db.templates| + 1
      && r.db.templates[|db.templates|] == RouteTemplate(db.nextId, name, isDefault)
      && (forall i :: 0 <= i < |db.templates| ==>
            r.db.templates[i] == db.templates[i].(isDefault := db.templates[i].isDefault && !isDefault))
      && r.db.routeStages == db.routeStages + Numbered(db.nextId, stageIds)
      && r.db.audit == db.audit + [AuditEntry(db.nextId + 1, None, userId, now, RoutesAction,
                                              RouteCreated(name))]
      && r.db.stages == db.stages && r.db.parts == db.parts && r.db.history == db.history
      && r.db.nextId == db.nextId + 2
  {
    var errs := RouteFormErrors(db.templates, db.stages, name, stageIds, None);
    if errs != [] then Step(db, Invalid(errs))
    else Step(ApplyAdd(db, userId, now, name, isDefault, stageIds), Ok)
  }

  /** The tables after a valid RouteTemplateForm creates a template. */
  function ApplyAdd(db: Tables, userId: int, now: int, name: string, isDefault: bool,
                    stageIds: seq<int>): (t: Tables)
    ensures |t.templates| == |db.templates| + 1
    ensures t.templates[|db.templates|] == RouteTemplate(db.nextId, name, isDefault)
    ensures forall i :: 0 <= i < |db.templates| ==>
              t.templates[i] == db.templates[i].(isDefault := db.templates[i].isDefault && !isDefault)
    ensures t.routeStages == db.routeStages + Numbered(db.nextId, stageIds)
    ensures t.audit == db.audit + [AuditEntry(db.nextId + 1, None, userId, now, RoutesAction, RouteCreated(name))]
    ensures t.stages == db.stages && t.parts == db.parts && t.history == db.history
    ensures t.nextId == db.nextId + 2
  {
    var id := db.nextId;
    var entry := AuditEntry(id + 1, None, userId, now, RoutesAction, RouteCreated(name));
    db.(templates := DefaultsFor(db.templates, isDefault) + [RouteTemplate(id, name, isDefault)],
        routeStages := db.routeStages + Numbered(id, stageIds),
        audit := db.audit + [entry],
        nextId := id + 2)
  }

  /** In a consistent state the new template's stage list is exactly the submitted
      list, numbered from 0, and no other template's list changes. */
  lemma AddRouteStages(db: Tables, userId: int, now: int, name: string, isDefault: bool,
                       stageIds: seq<int>, u: int)
    requires Consistent(db) && AddRoute(db, userId, now, name, isDefault, stageIds).out == Ok
    ensures RouteOf(AddRoute(db, userId, now, name, isDefault, stageIds).db.routeStages, u)
         == if u == db.nextId then Numbered(db.nextId, stageIds) else RouteOf(db.routeStages, u)
  {
    RouteOfUnusedFresh(db);
    RouteAfterAppend(db.routeStages, db.nextId, stageIds, u);
  }

  /** Clearing or keeping the default flags keeps ids, names and the
      at-most-one-default rule. */
  lemma DefaultsForKeeps(templates: seq<RouteTemplate>, isDefault: bool)
    requires Pairwise(templates, (a: RouteTemplate, b: RouteTemplate) => a.id != b.id && a.name != b.name)
    requires AtMostOneDefault(templates)
    ensures Pairwise(DefaultsFor(templates, isDefault), (a: RouteTemplate, b: RouteTemplate) => a.id != b.id && a.name != b.name)
    ensures AtMostOneDefault(DefaultsFor(templates, isDefault))
    ensures isDefault ==> forall i :: 0 <= i < |templates| ==> !DefaultsFor(templates, isDefault)[i].isDefault
    ensures forall x :: IsTemplateId(templates, x) ==> IsTemplateId(DefaultsFor(templates, isDefault), x)
  {
    var r := DefaultsFor(templates, isDefault);
    forall x | IsTemplateId(templates, x) ensures IsTemplateId(r, x) {
      var i :| 0 <= i < |templates| && templates[i].id == x;
      assert r[i].id == x;
    }
  }

  /** Clearing the flags first keeps at most one default when the new template is
      appended. */
  lemma AtMostOneDefaultAppend(templates: seq<RouteTemplate>, t: RouteTemplate)
    requires AtMostOneDefault(templates)
    requires t.isDefault ==> forall i :: 0 <= i < |templates| ==> !templates[i].isDefault
    ensures AtMostOneDefault(templates + [t])
  {
    PairwiseAppendOne(templates, t, (a: RouteTemplate, b: RouteTemplate) => !(a.isDefault && b.isDefault));
  }

  lemma AddRouteKeeps(db: Tables, userId: int, now: int, name: string, isDefault: bool, stageIds: seq<int>)
    requires Consistent(db)
    ensures Consistent(AddRoute(db, userId, now, name, isDefault, stageIds).db)
  {
    if AddRoute(db, userId, now, name, isDefault, stageIds).out == Ok {
      ApplyAddKeeps(db, userId, now, name, isDefault, stageIds);
    }
  }

  /** Creating a template under a name no template bears, with existing stages,
      keeps the tables consistent. */
  lemma ApplyAddKeeps(db: Tables, userId: int, now: int, name: string, isDefault: bool, stageIds: seq<int>)
    requires Consistent(db)
    requires forall i :: 0 <= i < |db.templates| ==> db.templates[i].name != name
    requires forall i :: 0 <= i < |stageIds| ==> IsStageId(db.stages, stageIds[i])
    ensures Consistent(ApplyAdd(db, userId, now, name, isDefault, stageIds))
  {
    var r := ApplyAdd(db, userId, now, name, isDefault, stageIds);
    var id := db.nextId;
    var t := RouteTemplate(id, name, isDefault);
    var cleared := DefaultsFor(db.templates, isDefault);
    DefaultsForKeeps(db.templates, isDefault);
    PairwiseAppendOne(cleared, t, (a: RouteTemplate, b: RouteTemplate) => a.id != b.id && a.name != b.name);
    AtMostOneDefaultAppend(cleared, t);
    TemplateIdsGrow(cleared, t);
    assert r.templates == cleared + [t];
    assert TemplatesOk(r.templates, r.nextId);
    // the new rows point at the new template and at submitted, existing stages
    RouteOfUnusedFresh(db);
    DenseAfterAppend(db.routeStages, id, stageIds);
    assert IsTemplateId(r.templates, id) by {
      assert r.templates[|db.templates|].id == id;
    }
    assert RouteStagesOk(r.routeStages, r.stages, r.templates);
    assert PartsOk(r.parts, r.templates);
    PairwiseAppendOne(db.audit, r.audit[|db.audit|], (a: AuditEntry, b: AuditEntry) => a.id != b.id);
  }

  /** No row of the stage lists refers to the next id to be handed out. */
  lemma RouteOfUnusedFresh(db: Tables)
    requires Consistent(db)
    ensures RouteOf(db.routeStages, db.nextId) == []
  {
    forall i | 0 <= i < |db.routeStages| ensures db.routeStages[i].templateId != db.nextId {
      assert IsTemplateId(db.templates, db.routeStages[i].templateId);
      var j :| 0 <= j < |db.templates| && db.templates[j].id == db.routeStages[i].templateId;
    }
    RouteOfUnused(db.routeStages, db.nextId);
  }

  /** `edit_route`: a missing template is not found; on a valid form the
      template takes the submitted name and flag, its old stage rows are all
      deleted and the submitted list is written in their place, and one audit
      entry is appended. The form runs the creation name rule, so a name that
      any template bears, the edited one included, is taken. */
  function EditRoute(db: Tables, userId: int, now: int, routeId: int, name: string, isDefault: bool,
                     stageIds: seq<int>): (r: Step)
    ensures r.out == NotFound <==> !IsTemplateId(db.templates, routeId)
    ensures r.out.Invalid? <==>
      IsTemplateId(db.templates, routeId) && RouteFormErrors(db.templates, db.stages, name, stageIds, None) != []
    ensures r.out == Ok || r.out == NotFound || r.out.Invalid?
    ensures r.out != Ok ==> r.db == db
    ensures r.out == Ok ==>
      && |r.db.templates| == |db.templates|
      && (forall i :: 0 <= i < |db.templates| ==>
            r.db.templates[i] == (if i == FindTemplate(db.templates, routeId).value
                                  then RouteTemplate(routeId, name, isDefault)
                                  else db.templates[i].(isDefault := db.templates[i].isDefault && !isDefault)))
      && r.db.routeStages == WithoutRouteOf(db.routeStages, routeId) + Numbered(routeId, stageIds)
      && r.db.audit == db.audit + [AuditEntry(db.nextId, None, userId, now, RoutesAction,
                                              RouteEdited(name))]
      && r.db.stages == db.stages && r.db.parts == db.parts && r.db.history == db.history
      && r.db.nextId == db.nextId + 1
  {
    FindTemplateIff(db.templates, routeId);
    match FindTemplate(db.templates, routeId)
    case None => Step(db, NotFound)
    case Some(k) =>
      var errs := RouteFormErrors(db.templates, db.stages, name, stageIds, None);
      if errs != [] then Step(db, Invalid(errs))
      else
        Step(ApplyEdit(db, userId, now, k, name, isDefault, stageIds), Ok)
  }

  /** Because the creation rule runs on edits, resubmitting a template under its
      own name is always refused and changes nothing; unless the name is blank
      the form reports it as taken. */
  lemma EditRouteRejectsOwnName(db: Tables, userId: int, now: int, k: nat, isDefault: bool,
                                stageIds: seq<int>)
    requires k < |db.templates|
    ensures var r := EditRoute(db, userId, now, db.templates[k].id, db.templates[k].name, isDefault, stageIds);
      && r.out.Invalid? && r.db == db
      && (!IsBlank(db.templates[k].name) ==> NameTaken in r.out.errors)
  {
    assert IsTemplateId(db.templates, db.templates[k].id);
    assert !NameAvailable(db.templates, db.templates[k].name, None);
  }

  /** The tables after template `k` is edited by a valid form. */
  function ApplyEdit(db: Tables, userId: int, now: int, k: nat, name: string, isDefault: bool,
                     stageIds: seq<int>): (t: Tables)
    requires k < |db.templates|
    ensures |t.templates| == |db.templates|
    ensures forall i :: 0 <= i < |db.templates| ==>
              t.templates[i] == (if i == k then RouteTemplate(db.templates[k].id, name, isDefault)
                                 else db.templates[i].(isDefault := db.templates[i].isDefault && !isDefault))
    ensures t.routeStages == WithoutRouteOf(db.routeStages, db.templates[k].id) + Numbered(db.templates[k].id, stageIds)
    ensures t.audit == db.audit + [AuditEntry(db.nextId, None, userId, now, RoutesAction, RouteEdited(name))]
    ensures t.stages == db.stages && t.parts == db.parts && t.history == db.history
    ensures t.nextId == db.nextId + 1
  {
    var routeId := db.templates[k].id;
    var entry := AuditEntry(db.nextId, None, userId, now, RoutesAction, RouteEdited(name));
    db.(templates := DefaultsFor(db.templates, isDefault)[k := RouteTemplate(routeId, name, isDefault)],
        routeStages := WithoutRouteOf(db.routeStages, routeId) + Numbered(routeId, stageIds),
        audit := db.audit + [entry],
        nextId := db.nextId + 1)
  }

  /** The edit is a full replacement: the edited template's list is exactly the
      submitted one, numbered from 0, and every other template's list is as it was. */
  lemma EditRouteStages(db: Tables, userId: int, now: int, routeId: int, name: string, isDefault: bool,
                        stageIds: seq<int>, u: int)
    requires EditRoute(db, userId, now, routeId, name, isDefault, stageIds).out == Ok
    ensures RouteOf(EditRoute(db, userId, now, routeId, name, isDefault, stageIds).db.routeStages, u)
         == if u == routeId then Numbered(routeId, stageIds) else RouteOf(db.routeStages, u)
  {
    RouteAfterReplace(db.routeStages, routeId, stageIds, u);
  }

  lemma EditRouteKeeps(db: Tables, userId: int, now: int, routeId: int, name: string, isDefault: bool,
                       stageIds: seq<int>)
    requires Consistent(db)
    ensures Consistent(EditRoute(db, userId, now, routeId, name, isDefault, stageIds).db)
  {
    var r := EditRoute(db, userId, now, routeId, name, isDefault, stageIds);
    if r.out == Ok {
      var k := FindTemplate(db.templates, routeId).value;
      ApplyEditKeeps(db, userId, now, k, name, isDefault, stageIds);
    }
  }

  /** A valid edit of template `k` keeps the tables consistent: no other template
      bears the new name and every submitted stage exists. */
  lemma ApplyEditKeeps(db: Tables, userId: int, now: int, k: nat, name: string, isDefault: bool,
                       stageIds: seq<int>)
    requires Consistent(db) && k < |db.templates|
    requires forall i :: 0 <= i < |db.templates| && db.templates[i].name == name ==>
               db.templates[i].id == db.templates[k].id
    requires forall i :: 0 <= i < |stageIds| ==> IsStageId(db.stages, stageIds[i])
    ensures Consistent(ApplyEdit(db, userId, now, k, name, isDefault, stageIds))
  {
    var t := ApplyEdit(db, userId, now, k, name, isDefault, stageIds);
    var routeId := db.templates[k].id;
    EditedTemplatesOk(db.templates, db.nextId, k, RouteTemplate(routeId, name, isDefault));
    TemplatesOkBump(t.templates, db.nextId, t.nextId);
    DenseAfterReplace(db.routeStages, routeId, stageIds);
    assert IsTemplateId(t.templates, routeId) by {
      assert t.templates[k].id == routeId;
    }
    assert RouteStagesOk(t.routeStages, t.stages, t.templates);
    assert PartsOk(t.parts, t.templates);
    PairwiseAppendOne(db.audit, t.audit[|db.audit|], (a: AuditEntry, b: AuditEntry) => a.id != b.id);
  }

  lemma TemplatesOkBump(templates: seq<RouteTemplate>, next: int, next': int)
    requires TemplatesOk(templates, next) && next <= next'
    ensures TemplatesOk(templates, next')
  {
  }

  /** Rewriting template `k` in place, after the default flags were set for it,
      keeps the template constraints when no other template bears the new name. */
  lemma EditedTemplatesOk(templates: seq<RouteTemplate>, next: int, k: nat, t: RouteTemplate)
    requires TemplatesOk(templates, next)
    requires k < |templates| && templates[k].id == t.id
    requires forall i :: 0 <= i < |templates| && templates[i].name == t.name ==> templates[i].id == t.id
    ensures TemplatesOk(DefaultsFor(templates, t.isDefault)[k := t], next)
    ensures forall x :: IsTemplateId(templates, x) <==> IsTemplateId(DefaultsFor(templates, t.isDefault)[k := t], x)
  {
    var cleared := DefaultsFor(templates, t.isDefault);
    DefaultsForKeeps(templates, t.isDefault);
    TemplateIdsUnique(templates, k);
    PairwiseUpdate(cleared, k, t, (a: RouteTemplate, b: RouteTemplate) => a.id != b.id && a.name != b.name);
    PairwiseUpdate(cleared, k, t, (a: RouteTemplate, b: RouteTemplate) => !(a.isDefault && b.isDefault));
    TemplateIdsUpdate(cleared, k, t);
    forall x ensures IsTemplateId(templates, x) <==> IsTemplateId(cleared, x) {
      if IsTemplateId(cleared, x) {
        var i :| 0 <= i < |cleared| && cleared[i].id == x;
        assert templates[i].id == x;
      }
    }
  }

  /** With unique ids, only the template at index `k` has its id. */
  lemma TemplateIdsUnique(templates: seq<RouteTemplate>, k: nat)
    requires k < |templates|
    requires Pairwise(templates, (a: RouteTemplate, b: RouteTemplate) => a.id != b.id && a.name != b.name)
    ensures forall i :: 0 <= i < |templates| && i != k ==> templates[i].id != templates[k].id
  {
    forall i | 0 <= i < |templates| && i != k ensures templates[i].id != templates[k].id {
      if i < k {
        assert ((a: RouteTemplate, b: RouteTemplate) => a.id != b.id && a.name != b.name)(templates[i], templates[k]);
      } else {
        assert ((a: RouteTemplate, b: RouteTemplate) => a.id != b.id && a.name != b.name)(templates[k], templates[i]);
      }
    }
  }

  /** `delete_route`: a missing template is not found and a template some part is
      assigned to is kept; otherwise the template and every one of its stage rows
      are deleted and one audit entry is appended. */
  function DeleteRoute(db: Tables, userId: int, now: int, routeId: int): (r: Step)
    ensures r.out == NotFound <==> !IsTemplateId(db.templates, routeId)
    ensures r.out == InUse <==> IsTemplateId(db.templates, routeId) && TemplateInUse(db.parts, routeId)
    ensures r.out == Ok || r.out == NotFound || r.out == InUse
    ensures r.out != Ok ==> r.db == db
    ensures r.out == Ok ==>
      && r.db.templates == WithoutTemplate(db.templates, routeId)
      && r.db.routeStages == WithoutRouteOf(db.routeStages, routeId)
      && r.db.audit == db.audit + [AuditEntry(db.nextId, None, userId, now, RoutesAction,
           RouteDeleted(db.templates[FindTemplate(db.templates, routeId).value].name))]
      && r.db.stages == db.stages && r.db.parts == db.parts && r.db.history == db.history
      && r.db.nextId == db.nextId + 1
  {
    match FindTemplate(db.templates, routeId)
    case None => Step(db, NotFound)
    case Some(k) =>
      if TemplateInUse(db.parts, routeId) then Step(db, InUse)
      else
        var entry := AuditEntry(db.nextId, None, userId, now, RoutesAction,
                                RouteDeleted(db.templates[k].name));
        Step(db.(templates := WithoutTemplate(db.templates, routeId),
                 routeStages := WithoutRouteOf(db.routeStages, routeId),
                 audit := db.audit + [entry],
                 nextId := db.nextId + 1), Ok)
  }

  /** After a deletion the template is gone, its stage list is empty, and every
      other template's stage list is unchanged. */
  lemma DeleteRouteRemovesAll(db: Tables, userId: int, now: int, routeId: int, u: int)
    requires DeleteRoute(db, userId, now, routeId).out == Ok
    ensures !IsTemplateId(DeleteRoute(db, userId, now, routeId).db.templates, routeId)
    ensures RouteOf(DeleteRoute(db, userId, now, routeId).db.routeStages, u)
         == if u == routeId then [] else RouteOf(db.routeStages, u)
  {
    RouteOfWithout(db.routeStages, routeId, u);
  }

  lemma DeleteRouteKeeps(db: Tables, userId: int, now: int, routeId: int)
    requires Consistent(db)
    ensures Consistent(DeleteRoute(db, userId, now, routeId).db)
  {
    var r := DeleteRoute(db, userId, now, routeId);
    if r.out == Ok {
      var rest := WithoutTemplate(db.templates, routeId);
      FilterPairwise(db.templates, (t: RouteTemplate) => t.id != routeId,
                     (a: RouteTemplate, b: RouteTemplate) => a.id != b.id && a.name != b.name);
      FilterPairwise(db.templates, (t: RouteTemplate) => t.id != routeId,
                     (a: RouteTemplate, b: RouteTemplate) => !(a.isDefault && b.isDefault));
      KeptTemplateIds(db.templates, routeId);
      DenseAfterDelete(db.routeStages, routeId);
      assert RouteStagesOk(r.db.routeStages, r.db.stages, r.db.templates);
      forall i | 0 <= i < |db.parts| && db.parts[i].templateId.Some?
        ensures IsTemplateId(rest, db.parts[i].templateId.value)
      {
        assert db.parts[i].templateId != Some(routeId);
      }
      PairwiseAppendOne(db.audit, r.db.audit[|db.audit|], (a: AuditEntry, b: AuditEntry) => a.id != b.id);
    }
  }

  /** Deleting template `t` keeps every other template id. */
  lemma KeptTemplateIds(templates: seq<RouteTemplate>, t: int)
    ensures forall x :: x != t && IsTemplateId(templates, x) ==> IsTemplateId(WithoutTemplate(templates, t), x)
  {
    forall x | x != t && IsTemplateId(templates, x) ensures IsTemplateId(WithoutTemplate(templates, t), x) {
      var i :| 0 <= i < |templates| && templates[i].id == x;
      assert templates[i] in WithoutTemplate(templates, t);
    }
  }

  // ----- add_single_part -----

  /** `add_single_part`: on a valid form the part is created with the chosen
      template and one audit entry; a part id already taken makes the insert
      fail and the whole request roll back. */
  function AddSinglePart(db: Tables, userId: int, now: int, product: string, partId: string,
                         templateChoice: int): (r: Step)
    ensures r.out.Invalid? <==> PartFormErrors(db.templates, product, partId, templateChoice) != []
    ensures r.out == Duplicate <==>
      PartFormErrors(db.templates, product, partId, templateChoice) == [] && IsPartId(db.parts, partId)
    ensures r.out == Ok || r.out == Duplicate || r.out.Invalid?
    ensures r.out != Ok ==> r.db == db
    ensures r.out == Ok ==>
      && r.db.parts == db.parts + [NewPart(partId, product, Some(templateChoice), now)]
      && r.db.audit == db.audit + [AuditEntry(db.nextId, Some(partId), userId, now, CreateAction, PartCreatedManually)]
      && r.db.stages == db.stages && r.db.templates == db.templates
      && r.db.routeStages == db.routeStages && r.db.history == db.history
      && r.db.nextId == db.nextId + 1
  {
    var errs := PartFormErrors(db.templates, product, partId, templateChoice);
    if errs != [] then Step(db, Invalid(errs))
    else if IsPartId(db.parts, partId) then Step(db, Duplicate)
    else
      var entry := AuditEntry(db.nextId, Some(partId), userId, now, CreateAction, PartCreatedManually);
      Step(db.(parts := db.parts + [NewPart(partId, product, Some(templateChoice), now)],
               audit := db.audit + [entry],
               nextId := db.nextId + 1), Ok)
  }

  /** Adding a part with a fresh id and an existing (or no) template, together
      with its creation entry, keeps every constraint. */
  lemma InsertPartKeeps(db: Tables, p: Part, entry: AuditEntry)
    requires Consistent(db)
    requires !IsPartId(db.parts, p.partId)
    requires p.templateId.Some? ==> IsTemplateId(db.templates, p.templateId.value)
    requires entry.id == db.nextId && entry.partId == Some(p.partId)
    ensures Consistent(db.(parts := db.parts + [p], audit := db.audit + [entry], nextId := db.nextId + 1))
  {
    PairwiseAppendOne(db.parts, p, (a: Part, b: Part) => a.partId != b.partId);
    PartIdsGrow(db.parts, p);
    assert IsPartId(db.parts + [p], p.partId) by {
      assert (db.parts + [p])[|db.parts|] == p;
    }
    PairwiseAppendOne(db.audit, entry, (a: AuditEntry, b: AuditEntry) => a.id != b.id);
  }

  lemma AddSinglePartKeeps(db: Tables, userId: int, now: int, product: string, partId: string,
                           templateChoice: int)
    requires Consistent(db)
    ensures Consistent(AddSinglePart(db, userId, now, product, partId, templateChoice).db)
  {
    var r := AddSinglePart(db, userId, now, product, partId, templateChoice);
    if r.out == Ok {
      InsertPartKeeps(db, NewPart(partId, product, Some(templateChoice), now), r.db.audit[|db.audit|]);
    }
  }

  // ----- upload_excel, the row loop -----

  /** A spreadsheet row whose id or product is empty once stripped, or whose id
      reads 'nan' in any case, is passed over and counted nowhere. */
  predicate IsIgnoredRow(row: (string, string))
  {
    var partId := Strip(row.0);
    partId == [] || Strip(row.1) == [] || LowerStr(partId) == MissingCell
  }

  predicate IsCountedRow(row: (string, string))
  {
    !IsIgnoredRow(row)
  }

  datatype Import = Import(db: Tables, added: nat, skipped: nat)

  /** One iteration of the row loop. A part added by an earlier row of the same
      file counts as existing: the session flushes it before the lookup. */
  function ImportRow(st: Import, row: (string, string), templateId: int, userId: int, now: int,
                     fileName: string): (r: Import)
    ensures IsIgnoredRow(row) ==> r == st
    ensures !IsIgnoredRow(row) && IsPartId(st.db.parts, Strip(row.0)) ==> r == st.(skipped := st.skipped + 1)
    ensures !IsIgnoredRow(row) && !IsPartId(st.db.parts, Strip(row.0)) ==>
      && r.added == st.added + 1 && r.skipped == st.skipped
      && r.db == st.db.(parts := st.db.parts + [NewPart(Strip(row.0), Strip(row.1), Some(templateId), now)],
                        audit := st.db.audit + [AuditEntry(st.db.nextId, Some(Strip(row.0)), userId, now, CreateAction,
                                                           PartImported(fileName))],
                        nextId := st.db.nextId + 1)
  {
    var partId := Strip(row.0);
    var product := Strip(row.1);
    if partId == [] || product == [] || LowerStr(partId) == MissingCell then st
    else if IsPartId(st.db.parts, partId) then st.(skipped := st.skipped + 1)
    else
      var entry := AuditEntry(st.db.nextId, Some(partId), userId, now, CreateAction,
                              PartImported(fileName));
      Import(st.db.(parts := st.db.parts + [NewPart(partId, product, Some(templateId), now)],
                    audit := st.db.audit + [entry],
                    nextId := st.db.nextId + 1),
             st.added + 1, st.skipped)
  }

  /** The state after the loop has run over `rows`, starting from `db` with both
      counters at zero. Rows only ever append parts and audit entries. */
  function ImportRows(db: Tables, rows: seq<(string, string)>, templateId: int, userId: int, now: int,
                      fileName: string): (r: Import)
    ensures r.added + r.skipped <= |rows|
    ensures |r.db.parts| == |db.parts| + r.added && r.db.parts[..|db.parts|] == db.parts
    ensures forall i :: |db.parts| <= i < |r.db.parts| ==>
              r.db.parts[i].templateId == Some(templateId) && r.db.parts[i].currentStatus == InStock
    ensures r.db.nextId == db.nextId + r.added
    ensures r.db.stages == db.stages && r.db.templates == db.templates
    ensures r.db.routeStages == db.routeStages && r.db.history == db.history
    decreases |rows|
  {
    if rows == [] then Import(db, 0, 0)
    else
      var st := ImportRows(db, rows[..|rows| - 1], templateId, userId, now, fileName);
      var row := rows[|rows| - 1];
      var r := ImportRow(st, row, templateId, userId, now, fileName);
      if IsIgnoredRow(row) || IsPartId(st.db.parts, Strip(row.0)) then
        assert r.db == st.db;
        r
      else
        ImportAppendsOne(db, st, r, NewPart(Strip(row.0), Strip(row.1), Some(templateId), now));
        r
  }

  /** A row that adds a part keeps what the rows before it had established. */
  lemma ImportAppendsOne(db: Tables, st: Import, r: Import, p: Part)
    requires |st.db.parts| == |db.parts| + st.added && st.db.parts[..|db.parts|] == db.parts
    requires forall i :: |db.parts| <= i < |st.db.parts| ==>
               st.db.parts[i].templateId == p.templateId && st.db.parts[i].currentStatus == InStock
    requires p.currentStatus == InStock
    requires r.db.parts == st.db.parts + [p] && r.added == st.added + 1
    ensures |r.db.parts| == |db.parts| + r.added && r.db.parts[..|db.parts|] == db.parts
    ensures forall i :: |db.parts| <= i < |r.db.parts| ==>
              r.db.parts[i].templateId == p.templateId && r.db.parts[i].currentStatus == InStock
  {
    PrefixOfPrefix(r.db.parts, st.db.parts, db.parts);
  }

  /** The loop state after row `i` is that row's iteration applied to the state
      after the rows before it. */
  lemma ImportRowsStep(db: Tables, rows: seq<(string, string)>, i: nat, templateId: int, userId: int,
                       now: int, fileName: string)
    requires i < |rows|
    ensures ImportRows(db, rows[..i + 1], templateId, userId, now, fileName)
         == ImportRow(ImportRows(db, rows[..i], templateId, userId, now, fileName), rows[i],
                      templateId, userId, now, fileName)
  {
    assert rows[..i + 1][..i] == rows[..i];
  }

  /** Every row that is not passed over is counted exactly once, as added or as
      skipped. */
  lemma {:induction false} ImportCounts(db: Tables, rows: seq<(string, string)>, templateId: int,
                                        userId: int, now: int, fileName: string)
    ensures var r := ImportRows(db, rows, templateId, userId, now, fileName);
            r.added + r.skipped == |Filter(rows, IsCountedRow)|
  {
    if rows != [] {
      var n := |rows| - 1;
      ImportCounts(db, rows[..n], templateId, userId, now, fileName);
      assert rows == rows[..n] + [rows[n]];
      FilterAppend(rows[..n], [rows[n]], IsCountedRow);
      assert Filter([rows[n]], IsCountedRow) == (if IsCountedRow(rows[n]) then [rows[n]] else []) + Filter([], IsCountedRow);
    }
  }

  lemma {:induction false} ImportKeeps(db: Tables, rows: seq<(string, string)>, templateId: int,
                                       userId: int, now: int, fileName: string)
    requires Consistent(db) && IsTemplateId(db.templates, templateId)
    ensures Consistent(ImportRows(db, rows, templateId, userId, now, fileName).db)
  {
    if rows != [] {
      var n := |rows| - 1;
      ImportKeeps(db, rows[..n], templateId, userId, now, fileName);
      var st := ImportRows(db, rows[..n], templateId, userId, now, fileName);
      var row := rows[n];
      if !IsIgnoredRow(row) && !IsPartId(st.db.parts, Strip(row.0)) {
        var r := ImportRow(st, row, templateId, userId, now, fileName);
        InsertPartKeeps(st.db, r.db.parts[|st.db.parts|], r.db.audit[|st.db.audit|]);
      }
    }
  }

  /** Every part the upload adds has an id that no part had before it (the parts
      that were there stay as they were: `ImportRows` keeps them as a prefix). */
  lemma {:induction false} ImportAddsFresh(db: Tables, rows: seq<(string, string)>, templateId: int,
                                           userId: int, now: int, fileName: string)
    ensures forall j :: |db.parts| <= j < |ImportRows(db, rows, templateId, userId, now, fileName).db.parts| ==>
              !IsPartId(db.parts, ImportRows(db, rows, templateId, userId, now, fileName).db.parts[j].partId)
  {
    if rows != [] {
      var n := |rows| - 1;
      ImportAddsFresh(db, rows[..n], templateId, userId, now, fileName);
      var st := ImportRows(db, rows[..n], templateId, userId, now, fileName);
      ImportRowFresh(db, st, rows[n], templateId, userId, now, fileName);
    }
  }

  /** One row of the loop keeps every added part's id new to `db`. */
  lemma ImportRowFresh(db: Tables, st: Import, row: (string, string), templateId: int, userId: int,
                       now: int, fileName: string)
    requires |db.parts| <= |st.db.parts| && st.db.parts[..|db.parts|] == db.parts
    requires forall j :: |db.parts| <= j < |st.db.parts| ==> !IsPartId(db.parts, st.db.parts[j].partId)
    ensures var r := ImportRow(st, row, templateId, userId, now, fileName);
      forall j :: |db.parts| <= j < |r.db.parts| ==> !IsPartId(db.parts, r.db.parts[j].partId)
  {
    var r := ImportRow(st, row, templateId, userId, now, fileName);
    var x := Strip(row.0);
    if !IsIgnoredRow(row) && !IsPartId(st.db.parts, x) {
      AppendedFresh(db.parts, st.db.parts, NewPart(x, Strip(row.1), Some(templateId), now));
    }
  }

  /** Appending a part whose id the longer table lacks keeps every part after
      the prefix `before` new to `before`. */
  lemma AppendedFresh(before: seq<Part>, after: seq<Part>, p: Part)
    requires |before| <= |after| && after[..|before|] == before
    requires forall j :: |before| <= j < |after| ==> !IsPartId(before, after[j].partId)
    requires !IsPartId(after, p.partId)
    ensures forall j :: |before| <= j < |after + [p]| ==> !IsPartId(before, (after + [p])[j].partId)
  {
    StillPartId(before, after, p.partId);
  }

  lemma StillPartId(before: seq<Part>, after: seq<Part>, x: string)
    requires |before| <= |after| && after[..|before|] == before
    ensures IsPartId(before, x) ==> IsPartId(after, x)
  {
    if IsPartId(before, x) {
      var i :| 0 <= i < |before| && before[i].partId == x;
      assert after[i] == before[i];
    }
  }

  datatype ImportOutcome = NoDefaultRoute | Imported(added: nat, skipped: nat)

  datatype ImportStep = ImportStep(db: Tables, out: ImportOutcome)

  /** `RouteTemplate.query.filter_by(is_default=True).first()`. */
  function DefaultTemplate(templates: seq<RouteTemplate>): Option<nat>
  {
    Find(templates, (t: RouteTemplate) => t.isDefault)
  }

  /** `upload_excel` over already parsed rows of (part id, product) cells: with no
      default template nothing happens; otherwise the row loop runs and its
      result is committed once. */
  function UploadExcel(db: Tables, rows: seq<(string, string)>, userId: int, now: int,
                       fileName: string): (r: ImportStep)
    ensures r.out == NoDefaultRoute <==> forall i :: 0 <= i < |db.templates| ==> !db.templates[i].isDefault
    ensures r.out == NoDefaultRoute ==> r.db == db
    ensures r.out.Imported? ==>
      var k := DefaultTemplate(db.templates).value;
      var done := ImportRows(db, rows, db.templates[k].id, userId, now, fileName);
      k < |db.templates| && db.templates[k].isDefault && r.db == done.db && r.out == Imported(done.added, done.skipped)
  {
    match DefaultTemplate(db.templates)
    case None => ImportStep(db, NoDefaultRoute)
    case Some(k) =>
      var done := ImportRows(db, rows, db.templates[k].id, userId, now, fileName);
      ImportStep(done.db, Imported(done.added, done.skipped))
  }

  lemma UploadExcelKeeps(db: Tables, rows: seq<(string, string)>, userId: int, now: int, fileName: string)
    requires Consistent(db)
    ensures Consistent(UploadExcel(db, rows, userId, now, fileName).db)
  {
    match DefaultTemplate(db.templates)
    case None =>
    case Some(k) =>
      assert IsTemplateId(db.templates, db.templates[k].id);
      ImportKeeps(db, rows, db.templates[k].id, userId, now, fileName);
  }

  // ----- edit_part -----

  /** `edit_part`: a missing part is not found; a valid designation equal to the
      stored one changes nothing; any other valid designation is stored, the
      update stamps `last_update`, and one audit entry records both values. */
  function EditPart(db: Tables, userId: int, now: int, partId: string, designation: string): (r: Step)
    ensures r.out == NotFound <==> !IsPartId(db.parts, partId)
    ensures r.out.Invalid? <==> IsPartId(db.parts, partId) && EditPartFormErrors(designation) != []
    ensures r.out == Ok || r.out == NotFound || r.out.Invalid? || r.out == Unchanged
    ensures r.out != Ok ==> r.db == db
    ensures r.out == Unchanged || r.out == Ok ==>
      var k := FindPart(db.parts, partId).value;
      && (r.out == Unchanged <==> db.parts[k].productDesignation == designation)
      && (r.out == Ok ==>
            && r.db.parts == db.parts[k := db.parts[k].(productDesignation := designation, lastUpdate := now)]
            && r.db.audit == db.audit + [AuditEntry(db.nextId, Some(partId), userId, now, EditAction,
                 DesignationChanged(db.parts[k].productDesignation, designation))]
            && r.db.stages == db.stages && r.db.templates == db.templates
            && r.db.routeStages == db.routeStages && r.db.history == db.history
            && r.db.nextId == db.nextId + 1)
  {
    match FindPart(db.parts, partId)
    case None => Step(db, NotFound)
    case Some(k) =>
      var errs := EditPartFormErrors(designation);
      if errs != [] then Step(db, Invalid(errs))
      else
        var before := db.parts[k].productDesignation;
        if before == designation then Step(db, Unchanged)
        else
          var entry := AuditEntry(db.nextId, Some(partId), userId, now, EditAction,
                                  DesignationChanged(before, designation));
          Step(db.(parts := db.parts[k := db.parts[k].(productDesignation := designation, lastUpdate := now)],
                   audit := db.audit + [entry],
                   nextId := db.nextId + 1), Ok)
  }

  lemma EditPartKeeps(db: Tables, userId: int, now: int, partId: string, designation: string)
    requires Consistent(db)
    ensures Consistent(EditPart(db, userId, now, partId, designation).db)
  {
    var r := EditPart(db, userId, now, partId, designation);
    if r.out == Ok {
      var k := FindPart(db.parts, partId).value;
      UpdatePartKeeps(db.parts, db.templates, k, r.db.parts[k]);
      assert IsPartId(r.db.parts, partId) by {
        assert r.db.parts[k].partId == partId;
      }
      PairwiseAppendOne(db.audit, r.db.audit[|db.audit|], (a: AuditEntry, b: AuditEntry) => a.id != b.id);
    }
  }

  // ----- delete_part -----

  /** `delete_part`: a missing part is not found; otherwise the deletion entry is
      written and the part is deleted with the cascade of its history and of its
      audit entries. The cascade loads the part's audit entries after the session
      has flushed the new one, so the deletion entry goes with them. */
  function DeletePart(db: Tables, userId: int, now: int, partId: string): (r: Step)
    ensures r.out == NotFound <==> !IsPartId(db.parts, partId)
    ensures r.out == Ok || r.out == NotFound
    ensures r.out != Ok ==> r.db == db
    ensures r.out == Ok ==>
      && r.db.parts == WithoutPart(db.parts, partId)
      && r.db.history == HistoryWithoutPart(db.history, partId)
      && r.db.audit == AuditWithoutPart(db.audit + [AuditEntry(db.nextId, Some(partId), userId, now, DeleteAction,
                         PartDeleted(partId))], partId)
      && r.db.stages == db.stages && r.db.templates == db.templates && r.db.routeStages == db.routeStages
      && r.db.nextId == db.nextId + 1
  {
    match FindPart(db.parts, partId)
    case None => Step(db, NotFound)
    case Some(_) =>
      var entry := AuditEntry(db.nextId, Some(partId), userId, now, DeleteAction,
                              PartDeleted(partId));
      Step(db.(parts := WithoutPart(db.parts, partId),
               history := HistoryWithoutPart(db.history, partId),
               audit := AuditWithoutPart(db.audit + [entry], partId),
               nextId := db.nextId + 1), Ok)
  }

  /** The part and everything recorded about it are gone; the history and the
      audit trail of every other part are untouched. */
  lemma DeletePartRemovesAll(db: Tables, userId: int, now: int, partId: string, other: string)
    requires DeletePart(db, userId, now, partId).out == Ok && other != partId
    ensures var after := DeletePart(db, userId, now, partId).db;
            && !IsPartId(after.parts, partId)
            && HistoryOf(after.history, partId) == [] && AuditOf(after.audit, partId) == []
            && HistoryOf(after.history, other) == HistoryOf(db.history, other)
            && AuditOf(after.audit, other) == AuditOf(db.audit, other)
  {
    var after := DeletePart(db, userId, now, partId).db;
    var entry := after.audit;
    FilterNone(after.history, (e: StatusEntry) => e.partId == partId);
    FilterNone(after.audit, (e: AuditEntry) => e.partId == Some(partId));
    FilterFilter(db.history, (e: StatusEntry) => e.partId != partId, (e: StatusEntry) => e.partId == other);
    var written := db.audit + [AuditEntry(db.nextId, Some(partId), userId, now, DeleteAction,
                                          PartDeleted(partId))];
    FilterFilter(written, (e: AuditEntry) => e.partId != Some(partId), (e: AuditEntry) => e.partId == Some(other));
    FilterAppend(db.audit, written[|db.audit|..], (e: AuditEntry) => e.partId == Some(other));
    assert written == db.audit + written[|db.audit|..];
    FilterNone(written[|db.audit|..], (e: AuditEntry) => e.partId == Some(other));
  }

  /** Deleting part `p` keeps every other part id. */
  lemma KeptPartIds(parts: seq<Part>, p: string)
    ensures forall x :: x != p && IsPartId(parts, x) ==> IsPartId(WithoutPart(parts, p), x)
  {
    forall x | x != p && IsPartId(parts, x) ensures IsPartId(WithoutPart(parts, p), x) {
      var i :| 0 <= i < |parts| && parts[i].partId == x;
      assert parts[i] in WithoutPart(parts, p);
    }
  }

  lemma DeletePartKeeps(db: Tables, userId: int, now: int, partId: string)
    requires Consistent(db)
    ensures Consistent(DeletePart(db, userId, now, partId).db)
  {
    var r := DeletePart(db, userId, now, partId);
    if r.out == Ok {
      var entry := AuditEntry(db.nextId, Some(partId), userId, now, DeleteAction,
                              PartDeleted(partId));
      FilterPairwise(db.parts, (p: Part) => p.partId != partId, (a: Part, b: Part) => a.partId != b.partId);
      KeptPartIds(db.parts, partId);
      FilterPairwise(db.history, (e: StatusEntry) => e.partId != partId,
                     (a: StatusEntry, b: StatusEntry) => a.id != b.id && (a.partId == b.partId ==> a.status != b.status));
      PairwiseAppendOne(db.audit, entry, (a: AuditEntry, b: AuditEntry) => a.id != b.id);
      FilterPairwise(db.audit + [entry], (e: AuditEntry) => e.partId != Some(partId),
                     (a: AuditEntry, b: AuditEntry) => a.id != b.id);
      assert HistoryOk(r.db.history, r.db.parts, r.db.nextId);
      assert AuditOk(r.db.audit, r.db.parts, r.db.nextId);
    }
  }

  // ----- cancel_stage -----

  /** `cancel_stage`: a missing history entry is not found. Otherwise one audit
      entry names the cancelled stage, that entry alone is deleted, and the part
      takes the status of its latest remaining entry, or the in-stock status when
      none remains; `last_update` is stamped only when the status changes. */
  function CancelStage(db: Tables, userId: int, now: int, historyId: int): (r: Step)
    ensures FindEntry(db.history, historyId).None? ==> r.out == NotFound
    ensures r.out == Ok || r.out == NotFound
    ensures r.out == Ok <==>
      && FindEntry(db.history, historyId).Some?
      && FindPart(db.parts, db.history[FindEntry(db.history, historyId).value].partId).Some?
    ensures r.out != Ok ==> r.db == db
    ensures r.out == Ok ==>
      var h := FindEntry(db.history, historyId);
      && h.Some? && FindPart(db.parts, db.history[h.value].partId).Some?
      && r.db == ApplyCancel(db, userId, now, historyId, h.value, FindPart(db.parts, db.history[h.value].partId).value)
  {
    match FindEntry(db.history, historyId)
    case None => Step(db, NotFound)
    case Some(h) =>
      var e := db.history[h];
      match FindPart(db.parts, e.partId)
      // the entry's part is missing only where its foreign key dangles: the
      // source then fails on `history_entry.part` and nothing is committed
      case None => Step(db, NotFound)
      case Some(k) => Step(ApplyCancel(db, userId, now, historyId, h, k), Ok)
  }

  /** The committed state of a cancellation of history entry `historyId`, the
      row at `h`, whose part is the row at `k`. */
  function ApplyCancel(db: Tables, userId: int, now: int, historyId: int, h: nat, k: nat): (t: Tables)
    requires h < |db.history| && k < |db.parts|
    ensures var e := db.history[h];
      var status := StatusAfter(HistoryOf(t.history, e.partId));
      && t.history == HistoryWithout(db.history, historyId)
      && |t.parts| == |db.parts|
      && t.parts[k].currentStatus == status
      && t.parts == db.parts[k := if status == db.parts[k].currentStatus then db.parts[k]
                                  else db.parts[k].(currentStatus := status, lastUpdate := now)]
      && t.audit == db.audit + [AuditEntry(db.nextId, Some(e.partId), userId, now, CancelAction,
                                           StageCancelled(e.status))]
      && t.stages == db.stages && t.templates == db.templates && t.routeStages == db.routeStages
      && t.nextId == db.nextId + 1
  {
    var e := db.history[h];
    var rest := HistoryWithout(db.history, historyId);
    var status := StatusAfter(HistoryOf(rest, e.partId));
    var part := db.parts[k];
    var updated := if status == part.currentStatus then part else part.(currentStatus := status, lastUpdate := now);
    var entry := AuditEntry(db.nextId, Some(e.partId), userId, now, CancelAction,
                            StageCancelled(e.status));
    db.(parts := db.parts[k := updated], history := rest, audit := db.audit + [entry],
        nextId := db.nextId + 1)
  }

  /** Where history ids are unique, cancelling removes exactly one entry and keeps
      every other one. */
  lemma CancelStageRemovesOne(db: Tables, userId: int, now: int, historyId: int)
    requires Consistent(db) && CancelStage(db, userId, now, historyId).out == Ok
    ensures |CancelStage(db, userId, now, historyId).db.history| == |db.history| - 1
    ensures forall i :: 0 <= i < |db.history| && db.history[i].id != historyId ==>
              db.history[i] in CancelStage(db, userId, now, historyId).db.history
  {
    var k := FindEntry(db.history, historyId).value;
    forall i | 0 <= i < |db.history| && i != k ensures db.history[i].id != historyId {
      var R := (a: StatusEntry, b: StatusEntry) => a.id != b.id && (a.partId == b.partId ==> a.status != b.status);
      if i < k {
        assert R(db.history[i], db.history[k]);
      } else {
        assert R(db.history[k], db.history[i]);
      }
    }
    FilterDropsOne(db.history, (e: StatusEntry) => e.id != historyId, k);
  }

  /** In consistent tables every history entry's part exists, so a cancellation
      succeeds exactly when some entry has the given id. */
  lemma CancelStageFound(db: Tables, userId: int, now: int, historyId: int)
    requires Consistent(db)
    ensures CancelStage(db, userId, now, historyId).out == Ok <==>
      exists i :: 0 <= i < |db.history| && db.history[i].id == historyId
  {
    var h := FindEntry(db.history, historyId);
    if h.Some? {
      var e := db.history[h.value];
      assert IsPartId(db.parts, e.partId);
      var i :| 0 <= i < |db.parts| && db.parts[i].partId == e.partId;
      assert FindPart(db.parts, e.partId).Some?;
    }
  }

  lemma CancelStageKeeps(db: Tables, userId: int, now: int, historyId: int)
    requires Consistent(db)
    ensures Consistent(CancelStage(db, userId, now, historyId).db)
  {
    var r := CancelStage(db, userId, now, historyId);
    if r.out == Ok {
      var e := db.history[FindEntry(db.history, historyId).value];
      var k := FindPart(db.parts, e.partId).value;
      UpdatePartKeeps(db.parts, db.templates, k, r.db.parts[k]);
      FilterPairwise(db.history, (x: StatusEntry) => x.id != historyId,
                     (a: StatusEntry, b: StatusEntry) => a.id != b.id && (a.partId == b.partId ==> a.status != b.status));
      assert IsPartId(r.db.parts, e.partId) by {
        assert r.db.parts[k].partId == e.partId;
      }
      PairwiseAppendOne(db.audit, r.db.audit[|db.audit|], (a: AuditEntry, b: AuditEntry) => a.id != b.id);
      assert HistoryOk(r.db.history, r.db.parts, r.db.nextId);
    }
  }
}
