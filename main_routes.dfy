/** The part-facing handlers of `app/main/routes.py`: the stage selection and
    confirmation a QR scan leads to, and the read-only progress views. */
module MainRoutes {

  import opened Seqs
  import opened Text
  import opened Models
  import opened Schema
  import opened Outcomes

  /** `part.route_template`: the part's template, when it has one and the row exists. */
  function TemplateOf(db: Tables, p: Part): (t: Option<int>)
    ensures t.Some? ==> p.templateId == t && IsTemplateId(db.templates, t.value)
    ensures t.None? ==> p.templateId.None? || !IsTemplateId(db.templates, p.templateId.value)
  {
    match p.templateId
    case None => None
    case Some(t) => if FindTemplate(db.templates, t).Some? then Some(t) else None
  }

  /** `[rs.stage.name for rs in template.stages]`: the names along template `t`'s
      route. Its rows are in table order, which in a consistent state is the
      order of their `order` column (`Schema.DenseOrders`). */
  function RouteNames(db: Tables, t: int): (names: seq<string>)
    ensures |names| <= |RouteOf(db.routeStages, t)|
    ensures Consistent(db) ==>
      && |names| == |RouteOf(db.routeStages, t)|
      && forall i :: 0 <= i < |names| ==>
           var k := FindStage(db.stages, RouteOf(db.routeStages, t)[i].stageId);
           k.Some? && names[i] == db.stages[k.value].name
  {
    var route := RouteOf(db.routeStages, t);
    assert Consistent(db) ==> forall i :: 0 <= i < |route| ==> IsStageId(db.stages, route[i].stageId) by {
      if Consistent(db) {
        forall i | 0 <= i < |route| ensures IsStageId(db.stages, route[i].stageId) {
          var j :| 0 <= j < |db.routeStages| && db.routeStages[j] == route[i];
        }
      }
    }
    StageNamesAllFound(db.stages, route);
    StageNames(db.stages, route)
  }

  /** `{h.status for h in part.history}`. */
  function CompletedOf(db: Tables, partId: string): set<string>
  {
    Completed(HistoryOf(db.history, partId))
  }

  // ----- select_stage -----

  /** `[s for s in names if s not in done]`. */
  function Remaining(names: seq<string>, done: set<string>): (r: seq<string>)
    ensures forall i :: 0 <= i < |r| ==> r[i] in names && r[i] !in done
    ensures forall i :: 0 <= i < |names| && names[i] !in done ==> names[i] in r
    ensures IsSubsequence(r, names)
    ensures forall s :: multiset(r)[s] == if s in done then 0 else multiset(names)[s]
  {
    FilterIsSubsequence(names, (s: string) => s !in done);
    FilterMultiset(names, (s: string) => s !in done);
    Filter(names, (s: string) => s !in done)
  }

  datatype StageChoice = PartNotFound | NoRouteAssigned | Available(stages: seq<string>)

  /** `select_stage`: the stages a scanned part can still go through. */
  function SelectStage(db: Tables, partId: string): (r: StageChoice)
    ensures r == PartNotFound <==> !IsPartId(db.parts, partId)
    ensures r == NoRouteAssigned <==>
      IsPartId(db.parts, partId) && TemplateOf(db, db.parts[FindPart(db.parts, partId).value]).None?
    ensures r.Available? ==>
      var t := TemplateOf(db, db.parts[FindPart(db.parts, partId).value]).value;
      && (forall s :: s in r.stages <==> s in RouteNames(db, t) && s !in CompletedOf(db, partId))
      && IsSubsequence(r.stages, RouteNames(db, t))
      && (forall s :: multiset(r.stages)[s] ==
            if s in CompletedOf(db, partId) then 0 else multiset(RouteNames(db, t))[s])
  {
    match FindPart(db.parts, partId)
    case None => PartNotFound
    case Some(k) =>
      match TemplateOf(db, db.parts[k])
      case None => NoRouteAssigned
      case Some(t) => Available(Remaining(RouteNames(db, t), CompletedOf(db, partId)))
  }

  // ----- confirm_stage -----

  /** The operator name recorded for an anonymous scan. */
  const Unspecified: string := "Не указан"

  /** The operator recorded for a confirmation: the submitted field, stripped,
      unless it is missing or blank; then the fallback, which is the signed-in
      user's name, or 'Не указан' for an anonymous scan. A missing field is
      replaced by the fallback before stripping, a blank one after. */
  function Operator(field: Option<string>, username: Option<string>): (op: string)
    ensures field.Some? && !IsBlank(field.value) ==> op == Strip(field.value)
    ensures var fallback := if username.Some? then username.value else Unspecified;
      && (field.Some? && IsBlank(field.value) ==> op == fallback)
      && (field.None? ==> op == if IsBlank(fallback) then fallback else Strip(fallback))
    ensures username.None? ==> !IsBlank(op)
  {
    var fallback := if username.Some? then username.value else Unspecified;
    var raw := if field.Some? then field.value else fallback;
    BlankIffStripsToEmpty(raw);
    assert Unspecified[0] == '\U{41D}';
    if Strip(raw) == [] then fallback else Strip(raw)
  }

  /** `confirm_stage`: a missing part is not found; a part without a route cannot
      be confirmed; a stage outside the route or already in the part's history is
      rejected. Any other stage of the route is accepted, wherever it stands in
      the route: the part takes it as its status and one history entry records it. */
  function ConfirmStage(db: Tables, partId: string, stageName: string, field: Option<string>,
                        username: Option<string>, now: int): (r: Step)
    ensures r.out == NotFound <==> !IsPartId(db.parts, partId)
    ensures r.out == NoRoute <==>
      IsPartId(db.parts, partId) && TemplateOf(db, db.parts[FindPart(db.parts, partId).value]).None?
    ensures r.out == Rejected <==>
      IsPartId(db.parts, partId) && TemplateOf(db, db.parts[FindPart(db.parts, partId).value]).Some? &&
      var t := TemplateOf(db, db.parts[FindPart(db.parts, partId).value]).value;
      (stageName !in RouteNames(db, t) || stageName in CompletedOf(db, partId))
    ensures r.out == Ok || r.out == NotFound || r.out == NoRoute || r.out == Rejected
    ensures r.out != Ok ==> r.db == db
    ensures r.out == Ok ==>
      var k := FindPart(db.parts, partId).value;
      && r.db.parts == db.parts[k := db.parts[k].(currentStatus := stageName, lastUpdate := now)]
      && r.db.history == db.history + [StatusEntry(db.nextId, partId, stageName, Operator(field, username), now)]
      && r.db.stages == db.stages && r.db.templates == db.templates && r.db.routeStages == db.routeStages
      && r.db.audit == db.audit && r.db.nextId == db.nextId + 1
  {
    match FindPart(db.parts, partId)
    case None => Step(db, NotFound)
    case Some(k) =>
      // without a template the source fails on `part.route_template.stages` and commits nothing
      match TemplateOf(db, db.parts[k])
      case None => Step(db, NoRoute)
      case Some(t) =>
        if stageName !in RouteNames(db, t) || stageName in CompletedOf(db, partId) then Step(db, Rejected)
        else Step(ApplyConfirm(db, k, stageName, Operator(field, username), now), Ok)
  }

  /** The tables after part `k` is confirmed at `stageName` by `operator`. */
  function ApplyConfirm(db: Tables, k: nat, stageName: string, operator: string, now: int): (t: Tables)
    requires k < |db.parts|
    ensures t.parts == db.parts[k := db.parts[k].(currentStatus := stageName, lastUpdate := now)]
    ensures t.history == db.history + [StatusEntry(db.nextId, db.parts[k].partId, stageName, operator, now)]
    ensures t.stages == db.stages && t.templates == db.templates && t.routeStages == db.routeStages
    ensures t.audit == db.audit && t.nextId == db.nextId + 1
  {
    var entry := StatusEntry(db.nextId, db.parts[k].partId, stageName, operator, now);
    db.(parts := db.parts[k := db.parts[k].(currentStatus := stageName, lastUpdate := now)],
        history := db.history + [entry],
        nextId := db.nextId + 1)
  }

  /** A stage the scan page offers is one the confirmation accepts. */
  lemma OfferedStagesAreAccepted(db: Tables, partId: string, stageName: string, field: Option<string>,
                                 username: Option<string>, now: int)
    requires SelectStage(db, partId).Available? && stageName in SelectStage(db, partId).stages
    ensures ConfirmStage(db, partId, stageName, field, username, now).out == Ok
  {
  }

  lemma ConfirmStageKeeps(db: Tables, partId: string, stageName: string, field: Option<string>,
                          username: Option<string>, now: int)
    requires Consistent(db)
    ensures Consistent(ConfirmStage(db, partId, stageName, field, username, now).db)
  {
    if ConfirmStage(db, partId, stageName, field, username, now).out == Ok {
      ApplyConfirmKeeps(db, FindPart(db.parts, partId).value, stageName, Operator(field, username), now);
    }
  }

  /** Confirming a stage the part has not completed keeps the tables consistent. */
  lemma ApplyConfirmKeeps(db: Tables, k: nat, stageName: string, operator: string, now: int)
    requires Consistent(db) && k < |db.parts|
    requires stageName !in CompletedOf(db, db.parts[k].partId)
    ensures Consistent(ApplyConfirm(db, k, stageName, operator, now))
  {
    var t := ApplyConfirm(db, k, stageName, operator, now);
    var e := StatusEntry(db.nextId, db.parts[k].partId, stageName, operator, now);
    assert IsPartId(db.parts, e.partId);
    AppendEntryKeeps(db.history, db.parts, db.nextId, e);
    UpdatePartKeeps(db.parts, db.templates, k, t.parts[k]);
    assert HistoryOk(t.history, t.parts, t.nextId);
  }

  // ----- api_parts_for_product -----

  /** `part.route_template.stages.count() if part.route_template else 0`. */
  function TotalStages(db: Tables, p: Part): nat
  {
    match TemplateOf(db, p)
    case None => 0
    case Some(t) => |RouteOf(db.routeStages, t)|
  }

  /** One entry of the part list: `creation_date` is the creation timestamp (its
      formatting is not modelled) and `completed_stages` is `len(part.history)`. */
  datatype PartRow = PartRow(partId: string, currentStatus: string, dateAdded: int,
                             completed: nat, total: nat)

  function Progress(db: Tables, p: Part): PartRow
  {
    PartRow(p.partId, p.currentStatus, p.dateAdded, |HistoryOf(db.history, p.partId)|, TotalStages(db, p))
  }

  function ProgressRows(db: Tables, ps: seq<Part>): (rows: seq<PartRow>)
    ensures |rows| == |ps| && forall i :: 0 <= i < |ps| ==> rows[i] == Progress(db, ps[i])
  {
    Map((p: Part) => Progress(db, p), ps)
  }

  /** `Part.query.filter_by(product_designation=d)`, in table order. */
  function PartsOfProduct(parts: seq<Part>, d: string): seq<Part>
  {
    Filter(parts, (p: Part) => p.productDesignation == d)
  }

  /** Code-point lexicographic order, a prefix first. SQLite's default collation
      compares UTF-8 bytes, which orders valid UTF-8 text the same way. */
  predicate StrLe(a: string, b: string)
  {
    |a| == 0 || (|b| > 0 && (a[0] < b[0] || (a[0] == b[0] && StrLe(a[1..], b[1..]))))
  }

  lemma {:induction false} StrLeTotal(a: string, b: string)
    ensures StrLe(a, b) || StrLe(b, a)
  {
    if |a| > 0 && |b| > 0 && a[0] == b[0] {
      StrLeTotal(a[1..], b[1..]);
    }
  }

  lemma {:induction false} StrLeTransitive(a: string, b: string, c: string)
    requires StrLe(a, b) && StrLe(b, c)
    ensures StrLe(a, c)
  {
    if |a| > 0 && a[0] == b[0] && b[0] == c[0] {
      StrLeTransitive(a[1..], b[1..], c[1..]);
    }
  }

  predicate SortedByPartId(ps: seq<Part>)
  {
    forall i :: 0 <= i < |ps| - 1 ==> StrLe(ps[i].partId, ps[i + 1].partId)
  }

  /** Adjacent order extends to every two rows. */
  lemma {:induction false} SortedByPartIdEverywhere(ps: seq<Part>, i: nat, j: nat)
    requires SortedByPartId(ps) && i <= j < |ps|
    ensures StrLe(ps[i].partId, ps[j].partId)
    decreases j - i
  {
    if i == j {
      StrLeTotal(ps[i].partId, ps[i].partId);
    } else {
      SortedByPartIdEverywhere(ps, i + 1, j);
      StrLeTransitive(ps[i].partId, ps[i + 1].partId, ps[j].partId);
    }
  }

  function InsertByPartId(p: Part, ps: seq<Part>): (r: seq<Part>)
    ensures multiset(r) == multiset(ps) + multiset{p}
    ensures |r| == |ps| + 1 && (r[0] == p || (ps != [] && r[0] == ps[0]))
    ensures SortedByPartId(ps) ==> SortedByPartId(r)
  {
    if ps == [] || StrLe(p.partId, ps[0].partId) then
      [p] + ps
    else
      StrLeTotal(p.partId, ps[0].partId);
      assert ps == [ps[0]] + ps[1..];
      [ps[0]] + InsertByPartId(p, ps[1..])
  }

  /** `order_by(Part.part_id.asc())`. */
  function SortByPartId(ps: seq<Part>): (r: seq<Part>)
    ensures multiset(r) == multiset(ps)
    ensures SortedByPartId(r)
  {
    if ps == [] then []
    else
      assert ps == [ps[0]] + ps[1..];
      InsertByPartId(ps[0], SortByPartId(ps[1..]))
  }

  /** The JSON part list of a product: its parts in ascending part id order,
      each with its progress. */
  function PartsForProduct(db: Tables, d: string): (rows: seq<PartRow>)
    ensures forall i, j :: 0 <= i <= j < |rows| ==> StrLe(rows[i].partId, rows[j].partId)
    ensures forall p :: p in db.parts && p.productDesignation == d ==> Progress(db, p) in rows
    ensures forall r :: r in rows ==> exists p :: p in db.parts && p.productDesignation == d && r == Progress(db, p)
    ensures |rows| == |PartsOfProduct(db.parts, d)|
    ensures multiset(rows) == multiset(ProgressRows(db, PartsOfProduct(db.parts, d)))
  {
    var src := PartsOfProduct(db.parts, d);
    var ps := SortByPartId(src);
    SortedRows(db, ps);
    RowsOfPermutation(db, ps, src);
    ProgressRows(db, ps)
  }

  lemma SortedRows(db: Tables, ps: seq<Part>)
    requires SortedByPartId(ps)
    ensures forall i, j :: 0 <= i <= j < |ps| ==>
              StrLe(ProgressRows(db, ps)[i].partId, ProgressRows(db, ps)[j].partId)
  {
    forall i, j | 0 <= i <= j < |ps| ensures StrLe(ps[i].partId, ps[j].partId) {
      SortedByPartIdEverywhere(ps, i, j);
    }
  }

  /** The rows of a permutation of `src` are the rows of `src`, each as often:
      one row per part, and the progress of every part of `src`. */
  lemma RowsOfPermutation(db: Tables, ps: seq<Part>, src: seq<Part>)
    requires multiset(ps) == multiset(src)
    ensures forall p :: p in src ==> Progress(db, p) in ProgressRows(db, ps)
    ensures forall r :: r in ProgressRows(db, ps) ==> exists p :: p in src && r == Progress(db, p)
    ensures |ProgressRows(db, ps)| == |src|
    ensures multiset(ProgressRows(db, ps)) == multiset(ProgressRows(db, src))
  {
    MapPermutation((p: Part) => Progress(db, p), ps, src);
    assert |ps| == |multiset(ps)| == |multiset(src)| == |src|;
    forall p | p in src ensures Progress(db, p) in ProgressRows(db, ps) {
      assert p in multiset(ps);
      var i :| 0 <= i < |ps| && ps[i] == p;
      assert ProgressRows(db, ps)[i] == Progress(db, p);
    }
    forall r | r in ProgressRows(db, ps) ensures exists p :: p in src && r == Progress(db, p) {
      var i :| 0 <= i < |ps| && ProgressRows(db, ps)[i] == r;
      assert ps[i] in multiset(src);
    }
  }

  /** In a consistent state a part's stage count is the length of the stage list
      its scan page works from. */
  lemma TotalIsRouteLength(db: Tables, p: Part)
    requires Consistent(db) && TemplateOf(db, p).Some?
    ensures TotalStages(db, p) == |RouteNames(db, TemplateOf(db, p).value)|
  {
  }

  /** When every stage a part has completed is still on its route (no stage was
      dropped from the template after it was confirmed), the part's completed
      count does not exceed its stage count. */
  lemma CompletedWithinTotal(db: Tables, p: Part)
    requires Consistent(db) && p in db.parts && TemplateOf(db, p).Some?
    requires CompletedOf(db, p.partId) <= Elements(RouteNames(db, TemplateOf(db, p).value))
    ensures Progress(db, p).completed <= Progress(db, p).total
  {
    var h := HistoryOf(db.history, p.partId);
    var names := RouteNames(db, TemplateOf(db, p).value);
    FilterPairwise(db.history, (e: StatusEntry) => e.partId == p.partId,
      (a: StatusEntry, b: StatusEntry) => a.id != b.id && (a.partId == b.partId ==> a.status != b.status));
    forall i, j | 0 <= i < j < |h| ensures h[i].status != h[j].status {
      assert ((a: StatusEntry, b: StatusEntry) => a.id != b.id && (a.partId == b.partId ==> a.status != b.status))(h[i], h[j]);
    }
    KeysOfDistinct(h, (e: StatusEntry) => e.status);
    assert Completed(h) == Keys(h, (e: StatusEntry) => e.status);
    ElementsAtMostLength(names);
    SubsetAtMost(Completed(h), Elements(names));
    TotalIsRouteLength(db, p);
    assert |names| == Progress(db, p).total;
  }

  /** Tables where part "P" follows template 2, which now holds only stage "A",
      and has entries for stages "A" and "B": "B" was completed before it was
      taken off the template. */
  function StaleTables(): Tables
  {
    Tables([Stage(0, "A"), Stage(1, "B")], [RouteTemplate(2, "R", true)],
           [RouteStage(2, 0, 0)], [Part("P", "X", Some(2), "B", 0, 0)],
           [StatusEntry(3, "P", "A", "op", 1), StatusEntry(4, "P", "B", "op", 2)], [], 5)
  }

  lemma StaleRoute()
    ensures RouteOf(StaleTables().routeStages, 2) == [RouteStage(2, 0, 0)]
  {
    var db := StaleTables();
    assert db.routeStages == [RouteStage(2, 0, 0)];
  }

  lemma StaleDense()
    ensures DenseOrders(StaleTables().routeStages)
  {
    var rs := StaleTables().routeStages;
    forall t, k | 0 <= k < |RouteOf(rs, t)| ensures RouteOf(rs, t)[k].order == k {
      assert RouteOf(rs, t) == (if t == 2 then rs else []) + Filter([], (r: RouteStage) => r.templateId == t);
    }
  }

  lemma StaleTemplate()
    ensures TemplateOf(StaleTables(), StaleTables().parts[0]) == Some(2)
  {
    assert StaleTables().templates[0].id == 2;
  }

  lemma StaleHistory()
    ensures HistoryOf(StaleTables().history, "P") == StaleTables().history
  {
    var h := StaleTables().history;
    assert h[0].partId == "P" && h[1].partId == "P";
    FilterAll(h, (e: StatusEntry) => e.partId == "P");
  }

  /** The tables above satisfy every constraint of the schema. */
  lemma StaleTablesConsistent()
    ensures Consistent(StaleTables())
  {
    var db := StaleTables();
    assert StagesOk(db.stages, db.nextId) by {
      assert db.stages[0].name != db.stages[1].name;
    }
    assert TemplatesOk(db.templates, db.nextId);
    assert RouteStagesOk(db.routeStages, db.stages, db.templates) by {
      assert db.templates[0].id == 2 && db.stages[0].id == 0;
      StaleDense();
    }
    assert PartsOk(db.parts, db.templates) by {
      assert db.templates[0].id == 2;
    }
    assert HistoryOk(db.history, db.parts, db.nextId) by {
      assert db.parts[0].partId == "P";
      assert db.history[0].status != db.history[1].status;
    }
  }

  /** The completed count is the number of history entries, not of route stages
      done: in consistent tables, a part whose template lost a stage it had
      already completed shows more completed stages than its route has. */
  lemma StaleEntriesCounted()
    ensures Consistent(StaleTables())
    ensures Progress(StaleTables(), StaleTables().parts[0]).completed == 2
    ensures Progress(StaleTables(), StaleTables().parts[0]).total == 1
  {
    StaleTablesConsistent();
    StaleTemplate();
    StaleRoute();
    StaleHistory();
  }

  // ----- dashboard -----

  /** The first step of the dashboard query: every template with at least one
      RouteStage row, mapped to the number of those rows. */
  function StagesInRoute(db: Tables): (m: map<int, nat>)
    ensures forall t :: t in m <==> IsTemplateId(db.templates, t) && |RouteOf(db.routeStages, t)| > 0
    ensures forall t :: t in m ==> m[t] == |RouteOf(db.routeStages, t)|
  {
    var ids := set i | 0 <= i < |db.templates| :: db.templates[i].id;
    map t | t in ids && |RouteOf(db.routeStages, t)| > 0 :: |RouteOf(db.routeStages, t)|
  }

  /** What one part adds to `total_possible_stages`: the inner join keeps only
      parts whose template appears in the first step. */
  function PossibleOf(db: Tables, p: Part): nat
  {
    var m := StagesInRoute(db);
    if p.templateId.Some? && p.templateId.value in m then m[p.templateId.value] else 0
  }

  function PossibleSum(db: Tables, ps: seq<Part>): nat
  {
    if ps == [] then 0 else PossibleOf(db, ps[0]) + PossibleSum(db, ps[1..])
  }

  /** `count(StatusHistory.id)` over the outer join of parts with their history:
      each part contributes one joined row per history entry of its own. */
  function JoinedHistory(history: seq<StatusEntry>, ps: seq<Part>): nat
  {
    if ps == [] then 0 else |HistoryOf(history, ps[0].partId)| + JoinedHistory(history, ps[1..])
  }

  datatype ProductRow = ProductRow(totalParts: nat, totalCompleted: nat, totalPossible: nat)

  /** The three aggregates of one product designation. */
  function ProductProgress(db: Tables, d: string): ProductRow
  {
    var ps := PartsOfProduct(db.parts, d);
    ProductRow(|PartIds(ps)|, JoinedHistory(db.history, ps), PossibleSum(db, ps))
  }

  /** `dashboard`: one row per product designation that some part carries. */
  function Dashboard(db: Tables): (rows: map<string, ProductRow>)
    ensures forall d :: d in rows <==> exists i :: 0 <= i < |db.parts| && db.parts[i].productDesignation == d
    ensures forall d :: d in rows ==> rows[d] == ProductProgress(db, d) && rows[d].totalParts >= 1
  {
    var ds := set i | 0 <= i < |db.parts| :: db.parts[i].productDesignation;
    forall d | d in ds ensures ProductProgress(db, d).totalParts >= 1 {
      var i :| 0 <= i < |db.parts| && db.parts[i].productDesignation == d;
      var ps := PartsOfProduct(db.parts, d);
      var k :| 0 <= k < |ps| && ps[k] == db.parts[i];
      assert ps[k].partId in PartIds(ps);
    }
    map d | d in ds :: ProductProgress(db, d)
  }

  /** `total_parts` counts distinct part ids, which is the number of parts of the
      product because the part id is the primary key. */
  lemma TotalPartsIsPartCount(db: Tables, d: string)
    requires Consistent(db)
    ensures ProductProgress(db, d).totalParts == |PartsOfProduct(db.parts, d)|
  {
    var ps := PartsOfProduct(db.parts, d);
    FilterPairwise(db.parts, (p: Part) => p.productDesignation == d, (a: Part, b: Part) => a.partId != b.partId);
    forall i, j | 0 <= i < j < |ps| ensures ps[i].partId != ps[j].partId {
      assert ((a: Part, b: Part) => a.partId != b.partId)(ps[i], ps[j]);
    }
    KeysOfDistinct(ps, (p: Part) => p.partId);
    assert PartIds(ps) == Keys(ps, (p: Part) => p.partId);
  }

  /** `total_completed_stages` is the number of history entries that belong to a
      part of the product. */
  lemma {:induction false} JoinedHistoryCountsEntries(history: seq<StatusEntry>, ps: seq<Part>)
    requires forall i, j :: 0 <= i < j < |ps| ==> ps[i].partId != ps[j].partId
    ensures JoinedHistory(history, ps) == |Filter(history, (e: StatusEntry) => e.partId in PartIds(ps))|
  {
    if ps == [] {
      FilterNone(history, (e: StatusEntry) => e.partId in PartIds(ps));
    } else {
      var rest := ps[1..];
      var id := ps[0].partId;
      JoinedHistoryCountsEntries(history, rest);
      assert PartIds(ps) == {id} + PartIds(rest) by {
        forall x | x in PartIds(ps) ensures x in {id} + PartIds(rest) {
          var i :| 0 <= i < |ps| && ps[i].partId == x;
          if i > 0 { assert rest[i - 1].partId == x; }
        }
        forall x | x in PartIds(rest) ensures x in PartIds(ps) {
          var i :| 0 <= i < |rest| && rest[i].partId == x;
          assert ps[i + 1].partId == x;
        }
      }
      assert id !in PartIds(rest) by {
        forall i | 0 <= i < |rest| ensures rest[i].partId != id {
          assert rest[i] == ps[i + 1];
        }
      }
      FilterCountSplit(history, (e: StatusEntry) => e.partId == id, (e: StatusEntry) => e.partId in PartIds(rest),
                       (e: StatusEntry) => e.partId in PartIds(ps));
    }
  }

  // ----- the dashboard and the part list agree -----

  function RowsCompleted(rows: seq<PartRow>): nat
  {
    if rows == [] then 0 else rows[0].completed + RowsCompleted(rows[1..])
  }

  function RowsTotal(rows: seq<PartRow>): nat
  {
    if rows == [] then 0 else rows[0].total + RowsTotal(rows[1..])
  }

  lemma PossibleIsTotal(db: Tables, p: Part)
    ensures PossibleOf(db, p) == TotalStages(db, p)
  {
  }

  lemma {:induction false} RowSums(db: Tables, ps: seq<Part>)
    ensures RowsCompleted(ProgressRows(db, ps)) == JoinedHistory(db.history, ps)
    ensures RowsTotal(ProgressRows(db, ps)) == PossibleSum(db, ps)
  {
    if ps != [] {
      RowSums(db, ps[1..]);
      assert ProgressRows(db, ps)[1..] == ProgressRows(db, ps[1..]);
      PossibleIsTotal(db, ps[0]);
    }
  }

  lemma {:induction false} SumsAfterInsert(db: Tables, p: Part, ps: seq<Part>)
    ensures JoinedHistory(db.history, InsertByPartId(p, ps)) == |HistoryOf(db.history, p.partId)| + JoinedHistory(db.history, ps)
    ensures PossibleSum(db, InsertByPartId(p, ps)) == PossibleOf(db, p) + PossibleSum(db, ps)
  {
    if ps != [] && !StrLe(p.partId, ps[0].partId) {
      SumsAfterInsert(db, p, ps[1..]);
    }
  }

  lemma {:induction false} SumsAfterSort(db: Tables, ps: seq<Part>)
    ensures JoinedHistory(db.history, SortByPartId(ps)) == JoinedHistory(db.history, ps)
    ensures PossibleSum(db, SortByPartId(ps)) == PossibleSum(db, ps)
  {
    if ps != [] {
      SumsAfterSort(db, ps[1..]);
      SumsAfterInsert(db, ps[0], SortByPartId(ps[1..]));
    }
  }

  /** The dashboard row of a product is the sum of that product's part list. */
  lemma DashboardAgreesWithPartList(db: Tables, d: string)
    requires Consistent(db) && d in Dashboard(db)
    ensures Dashboard(db)[d].totalParts == |PartsForProduct(db, d)|
    ensures Dashboard(db)[d].totalCompleted == RowsCompleted(PartsForProduct(db, d))
    ensures Dashboard(db)[d].totalPossible == RowsTotal(PartsForProduct(db, d))
  {
    var ps := PartsOfProduct(db.parts, d);
    TotalPartsIsPartCount(db, d);
    assert |SortByPartId(ps)| == |ps| by {
      assert |multiset(SortByPartId(ps))| == |multiset(ps)|;
    }
    RowSums(db, SortByPartId(ps));
    SumsAfterSort(db, ps);
  }

  // ----- history -----

  /** An entry of the merged history view: `entry.type` is the constructor. */
  datatype HistoryItem = StatusItem(entry: StatusEntry) | AuditItem(log: AuditEntry)
  {
    function Time(): int
    {
      if StatusItem? then entry.timestamp else log.timestamp
    }
  }

  /** `status_entries + audit_entries`, each tagged with its kind. */
  function Tagged(db: Tables, partId: string): (items: seq<HistoryItem>)
    ensures |items| == |HistoryOf(db.history, partId)| + |AuditOf(db.audit, partId)|
  {
    var h := HistoryOf(db.history, partId);
    var a := AuditOf(db.audit, partId);
    seq(|h|, i requires 0 <= i < |h| => StatusItem(h[i])) + seq(|a|, i requires 0 <= i < |a| => AuditItem(a[i]))
  }

  predicate NewestFirst(items: seq<HistoryItem>)
  {
    forall i, j :: 0 <= i < j < |items| ==> items[j].Time() <= items[i].Time()
  }

  /** Puts `x` before the first item no newer than it, so `x` precedes the items
      of its own time: the order of a stable sort when `x` came first. */
  function InsertByTime(x: HistoryItem, items: seq<HistoryItem>): (r: seq<HistoryItem>)
    ensures multiset(r) == multiset(items) + multiset{x}
  {
    if items == [] || items[0].Time() <= x.Time() then
      [x] + items
    else
      assert items == [items[0]] + items[1..];
      [items[0]] + InsertByTime(x, items[1..])
  }

  /** Inserting into a newest-first list keeps it newest first. */
  lemma {:induction false} InsertByTimeOrdered(x: HistoryItem, items: seq<HistoryItem>)
    requires NewestFirst(items)
    ensures NewestFirst(InsertByTime(x, items))
  {
    if items != [] && items[0].Time() > x.Time() {
      var rest := InsertByTime(x, items[1..]);
      InsertByTimeOrdered(x, items[1..]);
      var others := items[1..] + [x];
      assert multiset(others) == multiset(items[1..]) + multiset{x};
      forall i | 0 <= i < |others| ensures others[i].Time() <= items[0].Time() {
        if i < |items| - 1 { assert others[i] == items[i + 1]; }
      }
      NewestFirstCons(items[0], rest, others);
    }
  }

  /** An item no older than any of `src` can head a newest-first permutation of `src`. */
  lemma NewestFirstCons(h: HistoryItem, rest: seq<HistoryItem>, src: seq<HistoryItem>)
    requires multiset(rest) == multiset(src)
    ensures NewestFirst(rest) && (forall i :: 0 <= i < |src| ==> src[i].Time() <= h.Time())
            ==> NewestFirst([h] + rest)
  {
    if NewestFirst(rest) && forall i :: 0 <= i < |src| ==> src[i].Time() <= h.Time() {
      forall j | 0 <= j < |rest| ensures rest[j].Time() <= h.Time() {
        assert rest[j] in multiset(src);
        var k :| 0 <= k < |src| && src[k] == rest[j];
      }
      var r := [h] + rest;
      forall i, j | 0 <= i < j < |r| ensures r[j].Time() <= r[i].Time() {
        assert r[j] == rest[j - 1];
        if i > 0 { assert r[i] == rest[i - 1]; }
      }
    }
  }

  /** `sort(key=lambda x: x.timestamp, reverse=True)`. */
  function SortNewestFirst(items: seq<HistoryItem>): (r: seq<HistoryItem>)
    ensures multiset(r) == multiset(items)
    ensures NewestFirst(r)
  {
    if items == [] then []
    else
      assert items == [items[0]] + items[1..];
      InsertByTimeOrdered(items[0], SortNewestFirst(items[1..]));
      InsertByTime(items[0], SortNewestFirst(items[1..]))
  }

  /** Every status entry of the part appears in the concatenation, and no
      other status entry does. */
  lemma TaggedStatusItems(db: Tables, partId: string)
    ensures forall e :: StatusItem(e) in Tagged(db, partId) <==> e in db.history && e.partId == partId
  {
    var h := HistoryOf(db.history, partId);
    var a := AuditOf(db.audit, partId);
    var statuses := seq(|h|, i requires 0 <= i < |h| => StatusItem(h[i]));
    var audits := seq(|a|, i requires 0 <= i < |a| => AuditItem(a[i]));
    assert Tagged(db, partId) == statuses + audits;
    forall e ensures StatusItem(e) in statuses + audits <==> e in h {
      assert StatusItem(e) !in audits;
      if StatusItem(e) in statuses {
        var i :| 0 <= i < |statuses| && statuses[i] == StatusItem(e);
        assert h[i] == e;
      }
      if e in h {
        var i :| 0 <= i < |h| && h[i] == e;
        assert statuses[i] == StatusItem(e);
      }
    }
  }

  /** Every audit entry about the part appears in the concatenation, and no
      other audit entry does. */
  lemma TaggedAuditItems(db: Tables, partId: string)
    ensures forall e :: AuditItem(e) in Tagged(db, partId) <==> e in db.audit && e.partId == Some(partId)
  {
    var h := HistoryOf(db.history, partId);
    var a := AuditOf(db.audit, partId);
    var statuses := seq(|h|, i requires 0 <= i < |h| => StatusItem(h[i]));
    var audits := seq(|a|, i requires 0 <= i < |a| => AuditItem(a[i]));
    assert Tagged(db, partId) == statuses + audits;
    forall e ensures AuditItem(e) in statuses + audits <==> e in a {
      assert AuditItem(e) !in statuses;
      if AuditItem(e) in audits {
        var i :| 0 <= i < |audits| && audits[i] == AuditItem(e);
        assert a[i] == e;
      }
      if e in a {
        var i :| 0 <= i < |a| && a[i] == e;
        assert audits[i] == AuditItem(e);
      }
    }
  }

  /** `history`: a missing part is not found; otherwise the part's status and
      audit entries, all of them and nothing else, newest first. */
  function CombinedHistory(db: Tables, partId: string): (r: Option<seq<HistoryItem>>)
    ensures r.None? <==> !IsPartId(db.parts, partId)
    ensures r.Some? ==> NewestFirst(r.value)
    ensures r.Some? ==>
      && (forall e :: StatusItem(e) in r.value <==> e in db.history && e.partId == partId)
      && (forall e :: AuditItem(e) in r.value <==> e in db.audit && e.partId == Some(partId))
    ensures r.Some? ==> |r.value| == |HistoryOf(db.history, partId)| + |AuditOf(db.audit, partId)|
    ensures r.Some? ==> multiset(r.value) == multiset(Tagged(db, partId))
  {
    if !IsPartId(db.parts, partId) then None
    else
      var items := Tagged(db, partId);
      var sorted := SortNewestFirst(items);
      assert |sorted| == |items| by {
        assert |multiset(sorted)| == |multiset(items)|;
      }
      TaggedStatusItems(db, partId);
      TaggedAuditItems(db, partId);
      assert forall x :: x in sorted <==> x in items by {
        forall x ensures x in sorted <==> x in items {
          assert x in sorted <==> x in multiset(sorted);
          assert x in items <==> x in multiset(items);
        }
      }
      Some(sorted)
  }
}
