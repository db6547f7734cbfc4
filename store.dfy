/** The database session as the handlers use it: one object whose tables they
    update in place and then commit. Each method runs the statements of one
    handler in the source's order, with its loops, and is proved to reach the
    state the corresponding step function of `AdminRoutes` or `MainRoutes`
    describes, from any state; a state that satisfies `Schema.Consistent`
    (`Valid`) still does afterwards. */
module Store {

  import opened Seqs
  import opened Text
  import opened Models
  import opened Schema
  import opened Forms
  import opened Outcomes
  import AdminRoutes
  import MainRoutes

  class Database {
    var stages: seq<Stage>
    var templates: seq<RouteTemplate>
    var routeStages: seq<RouteStage>
    var parts: seq<Part>
    var history: seq<StatusEntry>
    var audit: seq<AuditEntry>
    /** The next integer primary key the database hands out. */
    var nextId: int

    function Snapshot(): Tables
      reads this
    {
      Tables(stages, templates, routeStages, parts, history, audit, nextId)
    }

    ghost predicate Valid()
      reads this
    {
      Consistent(Snapshot())
    }

    /** An empty database. */
    constructor ()
      ensures Valid()
      ensures Snapshot() == Tables([], [], [], [], [], [], 0)
    {
      stages, templates, routeStages := [], [], [];
      parts, history, audit := [], [], [];
      nextId := 0;
    }

    method AddStage(name: string) returns (out: Outcome)
      modifies this
      ensures Snapshot() == AdminRoutes.AddStage(old(Snapshot()), name).db
      ensures out == AdminRoutes.AddStage(old(Snapshot()), name).out
      ensures old(Valid()) ==> Valid()
    {
      ghost var before := Snapshot();
      var errs := StageFormErrors(name);
      if errs != [] {
        return Invalid(errs);
      }
      var stripped := Strip(name);
      if AdminRoutes.StageNamedLike(stages, stripped).Some? {
        return Duplicate;
      }
      ghost var after := before.(stages := stages + [Stage(nextId, stripped)], nextId := nextId + 1);
      assert AdminRoutes.AddStage(before, name) == Step(after, Ok);
      stages := stages + [Stage(nextId, stripped)];
      nextId := nextId + 1;
      out := Ok;
      assert Snapshot() == after;
      if old(Valid()) {
        AdminRoutes.AddStageKeeps(before, name);
      }
    }

    method DeleteStage(stageId: int) returns (out: Outcome)
      modifies this
      ensures Snapshot() == AdminRoutes.DeleteStage(old(Snapshot()), stageId).db
      ensures out == AdminRoutes.DeleteStage(old(Snapshot()), stageId).out
      ensures old(Valid()) ==> Valid()
    {
      if Valid() {
        AdminRoutes.DeleteStageKeeps(Snapshot(), stageId);
      }
      if FindStage(stages, stageId).None? {
        return NotFound;
      }
      if Find(routeStages, (r: RouteStage) => r.stageId == stageId).Some? {
        return InUse;
      }
      stages := WithoutStage(stages, stageId);
      out := Ok;
    }

    /** The `enumerate` loop of `add_route` and `edit_route`: one RouteStage row
        per submitted stage, numbered from 0. */
    method AppendNumbered(id: int, stageIds: seq<int>)
      modifies this
      ensures routeStages == old(routeStages) + Numbered(id, stageIds)
      ensures stages == old(stages) && templates == old(templates) && parts == old(parts)
      ensures history == old(history) && audit == old(audit) && nextId == old(nextId)
    {
      var i := 0;
      while i < |stageIds|
        invariant 0 <= i <= |stageIds|
        invariant routeStages == old(routeStages) + Numbered(id, stageIds[..i])
        invariant stages == old(stages) && templates == old(templates) && parts == old(parts)
        invariant history == old(history) && audit == old(audit) && nextId == old(nextId)
      {
        assert Numbered(id, stageIds[..i + 1]) == Numbered(id, stageIds[..i]) + [RouteStage(id, stageIds[i], i)];
        routeStages := routeStages + [RouteStage(id, stageIds[i], i)];
        i := i + 1;
      }
      assert stageIds[..i] == stageIds;
    }

    method AddRoute(userId: int, now: int, name: string, isDefault: bool, stageIds: seq<int>)
      returns (out: Outcome)
      modifies this
      ensures Snapshot() == AdminRoutes.AddRoute(old(Snapshot()), userId, now, name, isDefault, stageIds).db
      ensures out == AdminRoutes.AddRoute(old(Snapshot()), userId, now, name, isDefault, stageIds).out
      ensures old(Valid()) ==> Valid()
    {
      ghost var before := Snapshot();
      var errs := RouteFormErrors(templates, stages, name, stageIds, None);
      if errs != [] {
        return Invalid(errs);
      }
      ghost var after := AdminRoutes.ApplyAdd(before, userId, now, name, isDefault, stageIds);
      assert AdminRoutes.AddRoute(before, userId, now, name, isDefault, stageIds) == Step(after, Ok);
      if isDefault {
        templates := ClearDefaults(templates);
      }
      var id := nextId;
      templates := templates + [RouteTemplate(id, name, isDefault)];
      nextId := nextId + 1;
      AppendNumbered(id, stageIds);
      audit := audit + [AuditEntry(nextId, None, userId, now, AdminRoutes.RoutesAction,
                                   AdminRoutes.RouteCreated(name))];
      nextId := nextId + 1;
      out := Ok;
      assert Snapshot() == after;
      if old(Valid()) {
        AdminRoutes.AddRouteKeeps(before, userId, now, name, isDefault, stageIds);
      }
    }

    method EditRoute(userId: int, now: int, routeId: int, name: string, isDefault: bool, stageIds: seq<int>)
      returns (out: Outcome)
      modifies this
      ensures Snapshot() == AdminRoutes.EditRoute(old(Snapshot()), userId, now, routeId, name, isDefault, stageIds).db
      ensures out == AdminRoutes.EditRoute(old(Snapshot()), userId, now, routeId, name, isDefault, stageIds).out
      ensures old(Valid()) ==> Valid()
    {
      ghost var before := Snapshot();
      var k := FindTemplate(templates, routeId);
      if k.None? {
        return NotFound;
      }
      var errs := RouteFormErrors(templates, stages, name, stageIds, None);
      if errs != [] {
        return Invalid(errs);
      }
      ghost var after := AdminRoutes.ApplyEdit(before, userId, now, k.value, name, isDefault, stageIds);
      assert AdminRoutes.EditRoute(before, userId, now, routeId, name, isDefault, stageIds) == Step(after, Ok);
      if isDefault {
        templates := ClearDefaults(templates);
      }
      templates := templates[k.value := RouteTemplate(routeId, name, isDefault)];
      routeStages := WithoutRouteOf(routeStages, routeId);
      AppendNumbered(routeId, stageIds);
      audit := audit + [AuditEntry(nextId, None, userId, now, AdminRoutes.RoutesAction,
                                   AdminRoutes.RouteEdited(name))];
      nextId := nextId + 1;
      out := Ok;
      assert Snapshot() == after;
      if old(Valid()) {
        AdminRoutes.EditRouteKeeps(before, userId, now, routeId, name, isDefault, stageIds);
      }
    }

    method DeleteRoute(userId: int, now: int, routeId: int) returns (out: Outcome)
      modifies this
      ensures Snapshot() == AdminRoutes.DeleteRoute(old(Snapshot()), userId, now, routeId).db
      ensures out == AdminRoutes.DeleteRoute(old(Snapshot()), userId, now, routeId).out
      ensures old(Valid()) ==> Valid()
    {
      var k := FindTemplate(templates, routeId);
      if k.None? {
        return NotFound;
      }
      if Find(parts, (p: Part) => p.templateId == Some(routeId)).Some? {
        return InUse;
      }
      var templateName := templates[k.value].name;
      // the delete-orphan cascade takes the template's RouteStage rows with it
      templates := WithoutTemplate(templates, routeId);
      routeStages := WithoutRouteOf(routeStages, routeId);
      audit := audit + [AuditEntry(nextId, None, userId, now, AdminRoutes.RoutesAction,
                                   AdminRoutes.RouteDeleted(templateName))];
      nextId := nextId + 1;
      out := Ok;
      if old(Valid()) {
        AdminRoutes.DeleteRouteKeeps(old(Snapshot()), userId, now, routeId);
      }
    }

    method AddSinglePart(userId: int, now: int, product: string, partId: string, templateChoice: int)
      returns (out: Outcome)
      modifies this
      ensures Snapshot() == AdminRoutes.AddSinglePart(old(Snapshot()), userId, now, product, partId, templateChoice).db
      ensures out == AdminRoutes.AddSinglePart(old(Snapshot()), userId, now, product, partId, templateChoice).out
      ensures old(Valid()) ==> Valid()
    {
      if Valid() {
        AdminRoutes.AddSinglePartKeeps(Snapshot(), userId, now, product, partId, templateChoice);
      }
      var errs := PartFormErrors(templates, product, partId, templateChoice);
      if errs != [] {
        return Invalid(errs);
      }
      // the primary key violation surfaces at commit and the session rolls back
      if IsPartId(parts, partId) {
        return Duplicate;
      }
      parts := parts + [NewPart(partId, product, Some(templateChoice), now)];
      audit := audit + [AuditEntry(nextId, Some(partId), userId, now, AdminRoutes.CreateAction,
                                   AdminRoutes.PartCreatedManually)];
      nextId := nextId + 1;
      out := Ok;
    }

    /** `upload_excel` over the parsed (part id, product) rows, with the row loop
        and its two counters. */
    method UploadExcel(rows: seq<(string, string)>, userId: int, now: int, fileName: string)
      returns (out: AdminRoutes.ImportOutcome)
      modifies this
      ensures Snapshot() == AdminRoutes.UploadExcel(old(Snapshot()), rows, userId, now, fileName).db
      ensures out == AdminRoutes.UploadExcel(old(Snapshot()), rows, userId, now, fileName).out
      ensures old(Valid()) ==> Valid()
    {
      ghost var before := Snapshot();
      var d := AdminRoutes.DefaultTemplate(templates);
      if d.None? {
        return AdminRoutes.NoDefaultRoute;
      }
      var templateId := templates[d.value].id;
      var added: nat, skipped: nat := 0, 0;
      var i := 0;
      while i < |rows|
        invariant 0 <= i <= |rows|
        invariant AdminRoutes.Import(Snapshot(), added, skipped)
               == AdminRoutes.ImportRows(before, rows[..i], templateId, userId, now, fileName)
      {
        AdminRoutes.ImportRowsStep(before, rows, i, templateId, userId, now, fileName);
        added, skipped := ImportRow(rows[i], templateId, userId, now, fileName, added, skipped);
        i := i + 1;
      }
      assert rows[..i] == rows;
      out := AdminRoutes.Imported(added, skipped);
      if old(Valid()) {
        AdminRoutes.UploadExcelKeeps(before, rows, userId, now, fileName);
      }
    }

    /** One iteration of the row loop of `upload_excel`, with the two counters. */
    method ImportRow(row: (string, string), templateId: int, userId: int, now: int, fileName: string,
                     added: nat, skipped: nat) returns (added': nat, skipped': nat)
      modifies this
      ensures AdminRoutes.Import(Snapshot(), added', skipped')
           == AdminRoutes.ImportRow(AdminRoutes.Import(old(Snapshot()), added, skipped), row,
                                    templateId, userId, now, fileName)
    {
      added', skipped' := added, skipped;
      var partId := Strip(row.0);
      var product := Strip(row.1);
      if partId == [] || product == [] || LowerStr(partId) == AdminRoutes.MissingCell {
        // passed over: counted neither as added nor as skipped
      } else if IsPartId(parts, partId) {
        skipped' := skipped + 1;
      } else {
        parts := parts + [NewPart(partId, product, Some(templateId), now)];
        audit := audit + [AuditEntry(nextId, Some(partId), userId, now, AdminRoutes.CreateAction,
                                     AdminRoutes.PartImported(fileName))];
        nextId := nextId + 1;
        added' := added + 1;
      }
    }

    method EditPart(userId: int, now: int, partId: string, designation: string) returns (out: Outcome)
      modifies this
      ensures Snapshot() == AdminRoutes.EditPart(old(Snapshot()), userId, now, partId, designation).db
      ensures out == AdminRoutes.EditPart(old(Snapshot()), userId, now, partId, designation).out
      ensures old(Valid()) ==> Valid()
    {
      if Valid() {
        AdminRoutes.EditPartKeeps(Snapshot(), userId, now, partId, designation);
      }
      var k := FindPart(parts, partId);
      if k.None? {
        return NotFound;
      }
      var errs := EditPartFormErrors(designation);
      if errs != [] {
        return Invalid(errs);
      }
      var before := parts[k.value].productDesignation;
      if before == designation {
        return Unchanged;
      }
      parts := parts[k.value := parts[k.value].(productDesignation := designation, lastUpdate := now)];
      audit := audit + [AuditEntry(nextId, Some(partId), userId, now, AdminRoutes.EditAction,
                                   AdminRoutes.DesignationChanged(before, designation))];
      nextId := nextId + 1;
      out := Ok;
    }

    method DeletePart(userId: int, now: int, partId: string) returns (out: Outcome)
      modifies this
      ensures Snapshot() == AdminRoutes.DeletePart(old(Snapshot()), userId, now, partId).db
      ensures out == AdminRoutes.DeletePart(old(Snapshot()), userId, now, partId).out
      ensures old(Valid()) ==> Valid()
    {
      if Valid() {
        AdminRoutes.DeletePartKeeps(Snapshot(), userId, now, partId);
      }
      if FindPart(parts, partId).None? {
        return NotFound;
      }
      audit := audit + [AuditEntry(nextId, Some(partId), userId, now, AdminRoutes.DeleteAction,
                                   AdminRoutes.PartDeleted(partId))];
      nextId := nextId + 1;
      // the cascade removes the part's history and every audit entry about it,
      // the one just added included
      parts := WithoutPart(parts, partId);
      history := HistoryWithoutPart(history, partId);
      audit := AuditWithoutPart(audit, partId);
      out := Ok;
    }

    method CancelStage(userId: int, now: int, historyId: int) returns (out: Outcome)
      modifies this
      ensures Snapshot() == AdminRoutes.CancelStage(old(Snapshot()), userId, now, historyId).db
      ensures out == AdminRoutes.CancelStage(old(Snapshot()), userId, now, historyId).out
      ensures old(Valid()) ==> Valid()
    {
      var h := FindEntry(history, historyId);
      if h.None? {
        return NotFound;
      }
      var k := FindPart(parts, history[h.value].partId);
      if k.None? {
        return NotFound;
      }
      CommitCancel(userId, now, historyId, h.value, k.value);
      out := Ok;
      if old(Valid()) {
        AdminRoutes.CancelStageKeeps(old(Snapshot()), userId, now, historyId);
      }
    }

    /** The committed part of `cancel_stage` for history entry `historyId`, the
        row at `h`, whose part is the row at `k`. */
    method CommitCancel(userId: int, now: int, historyId: int, h: nat, k: nat)
      requires h < |history| && k < |parts|
      modifies this
      ensures Snapshot() == AdminRoutes.ApplyCancel(old(Snapshot()), userId, now, historyId, h, k)
    {
      var e := history[h];
      audit := audit + [AuditEntry(nextId, Some(e.partId), userId, now, AdminRoutes.CancelAction,
                                   AdminRoutes.StageCancelled(e.status))];
      nextId := nextId + 1;
      history := HistoryWithout(history, historyId);
      // the status of the latest remaining entry, or the in-stock status
      var status := StatusAfter(HistoryOf(history, e.partId));
      // `last_update` is stamped only when the UPDATE changes a column
      if status != parts[k].currentStatus {
        parts := parts[k := parts[k].(currentStatus := status, lastUpdate := now)];
      }
    }

    method ConfirmStage(partId: string, stageName: string, field: Option<string>, username: Option<string>,
                        now: int) returns (out: Outcome)
      modifies this
      ensures Snapshot() == MainRoutes.ConfirmStage(old(Snapshot()), partId, stageName, field, username, now).db
      ensures out == MainRoutes.ConfirmStage(old(Snapshot()), partId, stageName, field, username, now).out
      ensures old(Valid()) ==> Valid()
    {
      ghost var before := Snapshot();
      var k := FindPart(parts, partId);
      if k.None? {
        assert MainRoutes.ConfirmStage(before, partId, stageName, field, username, now) == Step(before, NotFound);
        return NotFound;
      }
      var t := MainRoutes.TemplateOf(Snapshot(), parts[k.value]);
      if t.None? {
        assert MainRoutes.ConfirmStage(before, partId, stageName, field, username, now) == Step(before, NoRoute);
        return NoRoute;
      }
      var names := MainRoutes.RouteNames(Snapshot(), t.value);
      var done := MainRoutes.CompletedOf(Snapshot(), partId);
      if stageName !in names || stageName in done {
        assert MainRoutes.ConfirmStage(before, partId, stageName, field, username, now) == Step(before, Rejected);
        return Rejected;
      }
      var operator := MainRoutes.Operator(field, username);
      assert MainRoutes.ConfirmStage(before, partId, stageName, field, username, now) ==
             Step(MainRoutes.ApplyConfirm(before, k.value, stageName, operator, now), Ok);
      CommitConfirm(k.value, stageName, operator, now);
      out := Ok;
      if old(Valid()) {
        MainRoutes.ConfirmStageKeeps(before, partId, stageName, field, username, now);
      }
    }

    /** The committed part of `confirm_stage` for the part at `k`: the part
        takes the stage as its status and one history entry records it. */
    method CommitConfirm(k: nat, stageName: string, operator: string, now: int)
      requires k < |parts|
      modifies this
      ensures Snapshot() == MainRoutes.ApplyConfirm(old(Snapshot()), k, stageName, operator, now)
    {
      parts := parts[k := parts[k].(currentStatus := stageName, lastUpdate := now)];
      history := history + [StatusEntry(nextId, parts[k].partId, stageName, operator, now)];
      nextId := nextId + 1;
    }
  }
}
