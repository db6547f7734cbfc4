/** The relational store of `app/models/models.py`: the tables, the queries the
    handlers run against them, and the constraints every committed state keeps
    (unique keys, foreign keys, the single default template, dense stage orders,
    and no stage completed twice by one part). */
module Schema {

  import opened Seqs
  import opened Models

  /** Every table, plus the counter that hands out integer primary keys. */
  datatype Tables = Tables(stages: seq<Stage>, templates: seq<RouteTemplate>,
                           routeStages: seq<RouteStage>, parts: seq<Part>,
                           history: seq<StatusEntry>, audit: seq<AuditEntry>, nextId: int)

  // ----- lookups by primary key -----

  function FindStage(stages: seq<Stage>, id: int): Option<nat>
  {
    Find(stages, (s: Stage) => s.id == id)
  }

  function FindTemplate(templates: seq<RouteTemplate>, id: int): Option<nat>
  {
    Find(templates, (t: RouteTemplate) => t.id == id)
  }

  lemma FindTemplateIff(templates: seq<RouteTemplate>, id: int)
    ensures FindTemplate(templates, id).None? <==> !IsTemplateId(templates, id)
  {
  }

  function FindPart(parts: seq<Part>, partId: string): Option<nat>
  {
    Find(parts, (p: Part) => p.partId == partId)
  }

  function FindEntry(history: seq<StatusEntry>, id: int): Option<nat>
  {
    Find(history, (e: StatusEntry) => e.id == id)
  }

  predicate IsStageId(stages: seq<Stage>, id: int)
  {
    exists i :: 0 <= i < |stages| && stages[i].id == id
  }

  predicate IsTemplateId(templates: seq<RouteTemplate>, id: int)
  {
    exists i :: 0 <= i < |templates| && templates[i].id == id
  }

  predicate IsPartId(parts: seq<Part>, partId: string)
  {
    exists i :: 0 <= i < |parts| && parts[i].partId == partId
  }

  function PartIds(parts: seq<Part>): set<string>
  {
    set i | 0 <= i < |parts| :: parts[i].partId
  }

  /** `RouteStage.query.filter_by(stage_id=...).first()` finds a row. */
  predicate StageInUse(routeStages: seq<RouteStage>, stageId: int)
  {
    exists i :: 0 <= i < |routeStages| && routeStages[i].stageId == stageId
  }

  /** `Part.query.filter_by(route_template_id=...).first()` finds a row. */
  predicate TemplateInUse(parts: seq<Part>, templateId: int)
  {
    exists i :: 0 <= i < |parts| && parts[i].templateId == Some(templateId)
  }

  // ----- selections -----

  /** The RouteStage rows of one template, in table order. */
  function RouteOf(routeStages: seq<RouteStage>, t: int): seq<RouteStage>
  {
    Filter(routeStages, (r: RouteStage) => r.templateId == t)
  }

  /** `RouteStage.query.filter_by(template_id=t).delete()`, and the delete-orphan
      cascade of `RouteTemplate.stages`. */
  function WithoutRouteOf(routeStages: seq<RouteStage>, t: int): seq<RouteStage>
  {
    Filter(routeStages, (r: RouteStage) => r.templateId != t)
  }

  /** The rows `enumerate` produces for a submitted stage list: position i gets order i. */
  function Numbered(t: int, stageIds: seq<int>): (r: seq<RouteStage>)
    ensures |r| == |stageIds|
    ensures forall i :: 0 <= i < |r| ==> r[i] == RouteStage(t, stageIds[i], i)
  {
    seq(|stageIds|, i requires 0 <= i < |stageIds| => RouteStage(t, stageIds[i], i))
  }

  /** `part.history`: the status entries of one part. */
  function HistoryOf(history: seq<StatusEntry>, partId: string): seq<StatusEntry>
  {
    Filter(history, (e: StatusEntry) => e.partId == partId)
  }

  function HistoryWithout(history: seq<StatusEntry>, id: int): seq<StatusEntry>
  {
    Filter(history, (e: StatusEntry) => e.id != id)
  }

  function HistoryWithoutPart(history: seq<StatusEntry>, partId: string): seq<StatusEntry>
  {
    Filter(history, (e: StatusEntry) => e.partId != partId)
  }

  /** `part.audit_logs`: the audit entries about one part. */
  function AuditOf(audit: seq<AuditEntry>, partId: string): seq<AuditEntry>
  {
    Filter(audit, (e: AuditEntry) => e.partId == Some(partId))
  }

  function AuditWithoutPart(audit: seq<AuditEntry>, partId: string): seq<AuditEntry>
  {
    Filter(audit, (e: AuditEntry) => e.partId != Some(partId))
  }

  function WithoutStage(stages: seq<Stage>, id: int): seq<Stage>
  {
    Filter(stages, (s: Stage) => s.id != id)
  }

  function WithoutTemplate(templates: seq<RouteTemplate>, id: int): seq<RouteTemplate>
  {
    Filter(templates, (t: RouteTemplate) => t.id != id)
  }

  function WithoutPart(parts: seq<Part>, partId: string): seq<Part>
  {
    Filter(parts, (p: Part) => p.partId != partId)
  }

  /** `RouteTemplate.query.update({RouteTemplate.is_default: False})`. */
  function ClearDefaults(templates: seq<RouteTemplate>): (r: seq<RouteTemplate>)
    ensures |r| == |templates|
    ensures forall i :: 0 <= i < |r| ==> r[i] == templates[i].(isDefault := false)
  {
    seq(|templates|, i requires 0 <= i < |templates| => templates[i].(isDefault := false))
  }

  /** The stage names of a list of RouteStage rows, in that order (`rs.stage.name`). */
  function StageNames(stages: seq<Stage>, route: seq<RouteStage>): (names: seq<string>)
    ensures |names| <= |route|
  {
    if route == [] then []
    else
      (match FindStage(stages, route[0].stageId)
         case Some(k) => [stages[k].name]
         case None => [])
      + StageNames(stages, route[1..])
  }

  /** Where every row's stage exists, there is one name per row, the name of
      that row's stage. */
  lemma {:induction false} StageNamesAllFound(stages: seq<Stage>, route: seq<RouteStage>)
    ensures (forall i :: 0 <= i < |route| ==> IsStageId(stages, route[i].stageId)) ==>
      && |StageNames(stages, route)| == |route|
      && forall i :: 0 <= i < |route| ==>
           var k := FindStage(stages, route[i].stageId);
           k.Some? && StageNames(stages, route)[i] == stages[k.value].name
  {
    if route != [] && forall i :: 0 <= i < |route| ==> IsStageId(stages, route[i].stageId) {
      StageNamesAllFound(stages, route[1..]);
      assert IsStageId(stages, route[0].stageId);
      var k := FindStage(stages, route[0].stageId);
      assert k.Some?;
      var names := StageNames(stages, route);
      assert names == [stages[k.value].name] + StageNames(stages, route[1..]);
      forall i | 0 < i < |route| ensures route[1..][i - 1] == route[i] { }
    }
  }

  /** The stages a history already records (`{h.status for h in part.history}`). */
  function Completed(history: seq<StatusEntry>): set<string>
  {
    set i | 0 <= i < |history| :: history[i].status
  }

  /** `StatusHistory.query.filter_by(part_id=...).order_by(timestamp.desc()).first()`:
      an entry with the greatest timestamp, the earliest in table order on a tie. */
  function LatestEntry(history: seq<StatusEntry>): (r: Option<StatusEntry>)
    ensures r.None? <==> history == []
    ensures r.Some? ==> r.value in history
    ensures r.Some? ==> forall i :: 0 <= i < |history| ==> history[i].timestamp <= r.value.timestamp
  {
    if history == [] then None
    else match LatestEntry(history[1..])
      case None => Some(history[0])
      case Some(e) => if e.timestamp > history[0].timestamp then Some(e) else Some(history[0])
  }

  /** The status a part shows once `history` is all that is left of its entries. */
  function StatusAfter(history: seq<StatusEntry>): (s: string)
    ensures history == [] ==> s == InStock
    ensures history != [] ==>
      exists i :: 0 <= i < |history| && history[i].status == s &&
        forall j :: 0 <= j < |history| ==> history[j].timestamp <= history[i].timestamp
  {
    match LatestEntry(history)
    case Some(e) => e.status
    case None => InStock
  }

  // ----- constraints -----

  ghost predicate StagesOk(stages: seq<Stage>, next: int)
  {
    && (forall i :: 0 <= i < |stages| ==> 0 <= stages[i].id < next)
    && Pairwise(stages, (a: Stage, b: Stage) => a.id != b.id && a.name != b.name)
  }

  /** No two templates are both the default. */
  ghost predicate AtMostOneDefault(templates: seq<RouteTemplate>)
  {
    Pairwise(templates, (a: RouteTemplate, b: RouteTemplate) => !(a.isDefault && b.isDefault))
  }

  lemma AtMostOneDefaultMeans(templates: seq<RouteTemplate>)
    ensures AtMostOneDefault(templates) <==>
      forall i, j ::
        0 <= i < |templates| && 0 <= j < |templates| && templates[i].isDefault && templates[j].isDefault
        ==> i == j
  {
  }

  ghost predicate TemplatesOk(templates: seq<RouteTemplate>, next: int)
  {
    && (forall i :: 0 <= i < |templates| ==> 0 <= templates[i].id < next)
    && Pairwise(templates, (a: RouteTemplate, b: RouteTemplate) => a.id != b.id && a.name != b.name)
    && AtMostOneDefault(templates)
  }

  /** The rows of every template carry the orders 0, 1, ..., n-1 in table order. */
  ghost predicate DenseOrders(routeStages: seq<RouteStage>)
  {
    forall t, k :: 0 <= k < |RouteOf(routeStages, t)| ==> RouteOf(routeStages, t)[k].order == k
  }

  ghost predicate RouteStagesOk(routeStages: seq<RouteStage>, stages: seq<Stage>, templates: seq<RouteTemplate>)
  {
    && (forall i :: 0 <= i < |routeStages| ==>
          IsTemplateId(templates, routeStages[i].templateId) && IsStageId(stages, routeStages[i].stageId))
    && DenseOrders(routeStages)
  }

  ghost predicate PartsOk(parts: seq<Part>, templates: seq<RouteTemplate>)
  {
    && Pairwise(parts, (a: Part, b: Part) => a.partId != b.partId)
    && (forall i :: 0 <= i < |parts| && parts[i].templateId.Some? ==>
          IsTemplateId(templates, parts[i].templateId.value))
  }

  ghost predicate HistoryOk(history: seq<StatusEntry>, parts: seq<Part>, next: int)
  {
    && (forall i :: 0 <= i < |history| ==> 0 <= history[i].id < next && IsPartId(parts, history[i].partId))
    && Pairwise(history, (a: StatusEntry, b: StatusEntry) =>
         a.id != b.id && (a.partId == b.partId ==> a.status != b.status))
  }

  ghost predicate AuditOk(audit: seq<AuditEntry>, parts: seq<Part>, next: int)
  {
    && (forall i :: 0 <= i < |audit| ==> 0 <= audit[i].id < next)
    && (forall i :: 0 <= i < |audit| && audit[i].partId.Some? ==> IsPartId(parts, audit[i].partId.value))
    && Pairwise(audit, (a: AuditEntry, b: AuditEntry) => a.id != b.id)
  }

  ghost predicate Consistent(db: Tables)
  {
    && 0 <= db.nextId
    && StagesOk(db.stages, db.nextId)
    && TemplatesOk(db.templates, db.nextId)
    && RouteStagesOk(db.routeStages, db.stages, db.templates)
    && PartsOk(db.parts, db.templates)
    && HistoryOk(db.history, db.parts, db.nextId)
    && AuditOk(db.audit, db.parts, db.nextId)
  }

  // ----- the stage list of a template -----

  lemma RouteOfAppend(a: seq<RouteStage>, b: seq<RouteStage>, t: int)
    ensures RouteOf(a + b, t) == RouteOf(a, t) + RouteOf(b, t)
  {
    FilterAppend(a, b, (r: RouteStage) => r.templateId == t);
  }

  /** The rows written for one template belong to that template and to no other. */
  lemma RouteOfNumbered(t: int, stageIds: seq<int>, u: int)
    ensures RouteOf(Numbered(t, stageIds), u) == if u == t then Numbered(t, stageIds) else []
  {
    if u == t {
      FilterAll(Numbered(t, stageIds), (r: RouteStage) => r.templateId == u);
    } else {
      FilterNone(Numbered(t, stageIds), (r: RouteStage) => r.templateId == u);
    }
  }

  /** Deleting the rows of template `t` empties its stage list and leaves every
      other template's list as it was. */
  lemma RouteOfWithout(routeStages: seq<RouteStage>, t: int, u: int)
    ensures RouteOf(WithoutRouteOf(routeStages, t), u) == if u == t then [] else RouteOf(routeStages, u)
  {
    if u == t {
      FilterNone(WithoutRouteOf(routeStages, t), (r: RouteStage) => r.templateId == u);
    } else {
      FilterFilter(routeStages, (r: RouteStage) => r.templateId != t, (r: RouteStage) => r.templateId == u);
    }
  }

  /** Replacing the rows of template `t` by a numbered list: `t` gets exactly that
      list, in submission order; every other template keeps its list. */
  lemma {:induction false} RouteAfterReplace(routeStages: seq<RouteStage>, t: int, stageIds: seq<int>, u: int)
    ensures RouteOf(WithoutRouteOf(routeStages, t) + Numbered(t, stageIds), u)
         == if u == t then Numbered(t, stageIds) else RouteOf(routeStages, u)
  {
    RouteOfAppend(WithoutRouteOf(routeStages, t), Numbered(t, stageIds), u);
    RouteOfWithout(routeStages, t, u);
    RouteOfNumbered(t, stageIds, u);
  }

  /** Appending the rows of a template that has none yet. */
  lemma {:induction false} RouteAfterAppend(routeStages: seq<RouteStage>, t: int, stageIds: seq<int>, u: int)
    requires RouteOf(routeStages, t) == []
    ensures RouteOf(routeStages + Numbered(t, stageIds), u)
         == if u == t then Numbered(t, stageIds) else RouteOf(routeStages, u)
  {
    RouteOfAppend(routeStages, Numbered(t, stageIds), u);
    RouteOfNumbered(t, stageIds, u);
  }

  /** A template no row refers to has an empty stage list. */
  lemma RouteOfUnused(routeStages: seq<RouteStage>, t: int)
    requires forall i :: 0 <= i < |routeStages| ==> routeStages[i].templateId != t
    ensures RouteOf(routeStages, t) == []
  {
    FilterNone(routeStages, (r: RouteStage) => r.templateId == t);
  }

  lemma DenseAfterReplace(routeStages: seq<RouteStage>, t: int, stageIds: seq<int>)
    requires DenseOrders(routeStages)
    ensures DenseOrders(WithoutRouteOf(routeStages, t) + Numbered(t, stageIds))
  {
    var rs := WithoutRouteOf(routeStages, t) + Numbered(t, stageIds);
    forall u, k | 0 <= k < |RouteOf(rs, u)| ensures RouteOf(rs, u)[k].order == k {
      RouteAfterReplace(routeStages, t, stageIds, u);
    }
  }

  lemma DenseAfterAppend(routeStages: seq<RouteStage>, t: int, stageIds: seq<int>)
    requires DenseOrders(routeStages) && RouteOf(routeStages, t) == []
    ensures DenseOrders(routeStages + Numbered(t, stageIds))
  {
    var rs := routeStages + Numbered(t, stageIds);
    forall u, k | 0 <= k < |RouteOf(rs, u)| ensures RouteOf(rs, u)[k].order == k {
      RouteAfterAppend(routeStages, t, stageIds, u);
    }
  }

  lemma DenseAfterDelete(routeStages: seq<RouteStage>, t: int)
    requires DenseOrders(routeStages)
    ensures DenseOrders(WithoutRouteOf(routeStages, t))
  {
    var rs := WithoutRouteOf(routeStages, t);
    forall u, k | 0 <= k < |RouteOf(rs, u)| ensures RouteOf(rs, u)[k].order == k {
      RouteOfWithout(routeStages, t, u);
    }
  }

  // ----- the counter only grows -----

  lemma ConsistentBump(db: Tables, next: int)
    requires Consistent(db) && db.nextId <= next
    ensures Consistent(db.(nextId := next))
  {
  }

  // ----- foreign keys survive the growth of the table they point into -----

  lemma StageIdsGrow(stages: seq<Stage>, s: Stage)
    ensures forall x :: IsStageId(stages, x) ==> IsStageId(stages + [s], x)
  {
    forall x | IsStageId(stages, x) ensures IsStageId(stages + [s], x) {
      var i :| 0 <= i < |stages| && stages[i].id == x;
      assert (stages + [s])[i] == stages[i];
    }
  }

  lemma TemplateIdsGrow(templates: seq<RouteTemplate>, t: RouteTemplate)
    ensures forall x :: IsTemplateId(templates, x) ==> IsTemplateId(templates + [t], x)
  {
    forall x | IsTemplateId(templates, x) ensures IsTemplateId(templates + [t], x) {
      var i :| 0 <= i < |templates| && templates[i].id == x;
      assert (templates + [t])[i] == templates[i];
    }
  }

  lemma PartIdsGrow(parts: seq<Part>, p: Part)
    ensures forall x :: IsPartId(parts, x) ==> IsPartId(parts + [p], x)
  {
    forall x | IsPartId(parts, x) ensures IsPartId(parts + [p], x) {
      var i :| 0 <= i < |parts| && parts[i].partId == x;
      assert (parts + [p])[i] == parts[i];
    }
  }

  /** Rewriting the non-key columns of a template keeps the set of template ids. */
  lemma TemplateIdsUpdate(templates: seq<RouteTemplate>, k: nat, t: RouteTemplate)
    requires k < |templates| && t.id == templates[k].id
    ensures forall x :: IsTemplateId(templates, x) <==> IsTemplateId(templates[k := t], x)
  {
    forall x ensures IsTemplateId(templates, x) <==> IsTemplateId(templates[k := t], x) {
      if IsTemplateId(templates, x) {
        var i :| 0 <= i < |templates| && templates[i].id == x;
        assert templates[k := t][i].id == x;
      }
      if IsTemplateId(templates[k := t], x) {
        var i :| 0 <= i < |templates| && templates[k := t][i].id == x;
        assert templates[i].id == x;
      }
    }
  }

  /** Rewriting the non-key columns of a part keeps the set of part ids. */
  lemma PartIdsUpdate(parts: seq<Part>, k: nat, p: Part)
    requires k < |parts| && p.partId == parts[k].partId
    ensures forall x :: IsPartId(parts, x) <==> IsPartId(parts[k := p], x)
  {
    forall x ensures IsPartId(parts, x) <==> IsPartId(parts[k := p], x) {
      if IsPartId(parts, x) {
        var i :| 0 <= i < |parts| && parts[i].partId == x;
        assert parts[k := p][i].partId == x;
      }
      if IsPartId(parts[k := p], x) {
        var i :| 0 <= i < |parts| && parts[k := p][i].partId == x;
        assert parts[i].partId == x;
      }
    }
  }

  /** Rewriting the non-key columns of part `k` (its template unchanged) keeps the
      part constraints. */
  lemma UpdatePartKeeps(parts: seq<Part>, templates: seq<RouteTemplate>, k: nat, p: Part)
    requires PartsOk(parts, templates)
    requires k < |parts| && p.partId == parts[k].partId && p.templateId == parts[k].templateId
    ensures PartsOk(parts[k := p], templates)
    ensures forall x :: IsPartId(parts, x) <==> IsPartId(parts[k := p], x)
  {
    forall i | 0 <= i < k ensures parts[i].partId != p.partId {
      assert ((a: Part, b: Part) => a.partId != b.partId)(parts[i], parts[k]);
    }
    forall j | k < j < |parts| ensures p.partId != parts[j].partId {
      assert ((a: Part, b: Part) => a.partId != b.partId)(parts[k], parts[j]);
    }
    PairwiseUpdate(parts, k, p, (a: Part, b: Part) => a.partId != b.partId);
    PartIdsUpdate(parts, k, p);
  }

  /** Appending a history entry with a fresh id, for an existing part, and with a
      status that part has not recorded yet, keeps the history constraints. */
  lemma AppendEntryKeeps(history: seq<StatusEntry>, parts: seq<Part>, next: int, e: StatusEntry)
    requires HistoryOk(history, parts, next)
    requires 0 <= e.id == next && IsPartId(parts, e.partId)
    requires e.status !in Completed(HistoryOf(history, e.partId))
    ensures HistoryOk(history + [e], parts, next + 1)
  {
    forall i | 0 <= i < |history| && history[i].partId == e.partId
      ensures history[i].status != e.status
    {
      assert history[i] in HistoryOf(history, e.partId);
    }
    PairwiseAppendOne(history, e,
      (a: StatusEntry, b: StatusEntry) => a.id != b.id && (a.partId == b.partId ==> a.status != b.status));
  }
}
