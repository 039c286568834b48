/** The operations board's read model (go/internal/web/projector.go): set-once updates
    keyed on ids the producer owns, fed by topics whose mutual order is not promised. */
module Projector {
  import opened Basics
  import opened Slots
  import opened Berthmaster
  import opened Interruptions

  datatype AssignmentRow = AssignmentRow(
    key: Key, side1: string, side2: string, expectation: string, supersedes: string, voidedBy: Option<string>)

  datatype AlertRow = AlertRow(key: Key, expectation: string, missingSide: string, deadline: int)

  datatype Board = Board(assignments: map<string, AssignmentRow>, alerts: map<string, AlertRow>)

  /** One alert per slot and side, however often the message comes. */
  function AlertId(k: Key, side: string): string {
    k.client + ":" + k.domain + ":" + k.valueDate + ":" + side
  }

  function Projected(b: Board, e: Event): Board {
    match e
    case Assigned(id, key, s1, s2, exp, sup) =>
      if id in b.assignments then b
      else b.(assignments := b.assignments[id := AssignmentRow(key, s1, s2, exp, sup, None)])
    case Voided(id, _, successor) =>
      if id in b.assignments && b.assignments[id].voidedBy.None?
      then b.(assignments := b.assignments[id := b.assignments[id].(voidedBy := Some(successor))])
      else b
    case Alerted(key, exp, side, deadline) =>
      if AlertId(key, side) in b.alerts then b
      else b.(alerts := b.alerts[AlertId(key, side) := AlertRow(key, exp, side, deadline)])
  }

  class Store {
    var assignments: map<string, AssignmentRow>
    var alerts: map<string, AlertRow>

    constructor ()
      ensures View() == EMPTY
    {
      assignments, alerts := map[], map[];
    }

    ghost function View(): Board
      reads this
    {
      Board(assignments, alerts)
    }

    method ProjectAssignment(e: Event)
      requires e.Assigned?
      modifies this
      ensures View() == Projected(old(View()), e)
    {
      if e.id !in assignments {
        assignments := assignments[e.id := AssignmentRow(e.key, e.side1, e.side2, e.expectation, e.supersedes, None)];
      }
    }

    method ProjectSuperseded(e: Event)
      requires e.Voided?
      modifies this
      ensures View() == Projected(old(View()), e)
    {
      if e.id in assignments && assignments[e.id].voidedBy.None? {
        assignments := assignments[e.id := assignments[e.id].(voidedBy := Some(e.supersededBy))];
      }
    }

    method ProjectAlert(e: Event)
      requires e.Alerted?
      modifies this
      ensures View() == Projected(old(View()), e)
    {
      var id := AlertId(e.key, e.missingSide);
      if id !in alerts {
        alerts := alerts[id := AlertRow(e.key, e.expectation, e.missingSide, e.deadline)];
      }
    }
  }

  const EMPTY := Board(map[], map[])

  function ProjectAll(ds: seq<Event>): Board {
    if ds == [] then EMPTY else Projected(ProjectAll(ds[..|ds| - 1]), ds[|ds| - 1])
  }

  // ---- what the board holds after any deliveries ----

  ghost predicate AssignedAt(ds: seq<Event>, i: int, id: string) {
    0 <= i < |ds| && ds[i].Assigned? && ds[i].id == id
  }

  ghost predicate VoidedAt(ds: seq<Event>, j: int, id: string) {
    0 <= j < |ds| && ds[j].Voided? && ds[j].id == id
  }

  /** Some delivery of the void came after some delivery of the assignment. */
  ghost predicate VoidLanded(ds: seq<Event>, id: string) {
    exists i, j :: i < j && AssignedAt(ds, i, id) && VoidedAt(ds, j, id)
  }

  ghost predicate TakenFrom(r: AssignmentRow, e: Event) {
    && e.Assigned? && r.key == e.key && r.side1 == e.side1 && r.side2 == e.side2
    && r.expectation == e.expectation && r.supersedes == e.supersedes
  }

  ghost predicate CopiesSome(ds: seq<Event>, id: string, r: AssignmentRow) {
    exists i :: AssignedAt(ds, i, id) && TakenFrom(r, ds[i])
  }

  ghost predicate VoidedBySome(ds: seq<Event>, id: string, successor: string) {
    exists j :: VoidedAt(ds, j, id) && ds[j].supersededBy == successor
  }

  ghost predicate AlertedAt(ds: seq<Event>, j: int, id: string) {
    0 <= j < |ds| && ds[j].Alerted? && AlertId(ds[j].key, ds[j].missingSide) == id
  }

  /** The first alert under an id is the one shown. */
  ghost predicate FirstAlert(ds: seq<Event>, id: string, r: AlertRow) {
    exists j :: AlertedAt(ds, j, id) && (forall i | i < j :: !AlertedAt(ds, i, id))
      && r == AlertRow(ds[j].key, ds[j].expectation, ds[j].missingSide, ds[j].deadline)
  }

  /** An alert row exactly for each id alerted. */
  ghost predicate AlertFaithfulAt(ds: seq<Event>, b: Board, id: string) {
    if id in b.alerts then FirstAlert(ds, id, b.alerts[id]) else forall j :: !AlertedAt(ds, j, id)
  }

  /** A row per assignment delivered, copied from it, and voided exactly when a void landed
      after it, by a successor some void named; a row per alert id delivered, copied from
      the first. */
  ghost predicate Faithful(ds: seq<Event>, b: Board) {
    (forall id :: FaithfulAt(ds, b, id)) && forall id :: AlertFaithfulAt(ds, b, id)
  }

  lemma AlertsStayFaithful(ds: seq<Event>, b: Board, e: Event, id: string)
    requires AlertFaithfulAt(ds, b, id)
    ensures AlertFaithfulAt(ds + [e], Projected(b, e), id)
  {
    var more, c := ds + [e], Projected(b, e);
    assert forall j :: AlertedAt(more, j, id) <==>
      AlertedAt(ds, j, id) || (j == |ds| && e.Alerted? && AlertId(e.key, e.missingSide) == id);
    if id in b.alerts {
      var j :| AlertedAt(ds, j, id) && (forall i | i < j :: !AlertedAt(ds, i, id))
        && b.alerts[id] == AlertRow(ds[j].key, ds[j].expectation, ds[j].missingSide, ds[j].deadline);
      assert AlertedAt(more, j, id) && more[j] == ds[j];
      assert FirstAlert(more, id, c.alerts[id]);
    } else if e.Alerted? && AlertId(e.key, e.missingSide) == id {
      assert AlertedAt(more, |ds|, id);
      assert FirstAlert(more, id, c.alerts[id]);
    }
  }

  lemma GrownHistory(ds: seq<Event>, e: Event, id: string)
    ensures var more := ds + [e];
      && (forall i :: AssignedAt(more, i, id) <==> AssignedAt(ds, i, id) || (i == |ds| && e.Assigned? && e.id == id))
      && (forall j :: VoidedAt(more, j, id) <==> VoidedAt(ds, j, id) || (j == |ds| && e.Voided? && e.id == id))
      && (VoidLanded(more, id) <==>
            VoidLanded(ds, id) || (e.Voided? && e.id == id && exists i :: AssignedAt(ds, i, id)))
      && (forall r :: CopiesSome(ds, id, r) ==> CopiesSome(more, id, r))
      && (forall x :: VoidedBySome(ds, id, x) ==> VoidedBySome(more, id, x))
      && (e.Voided? && e.id == id ==> VoidedBySome(more, id, e.supersededBy))
  {
    var more := ds + [e];
    if VoidLanded(ds, id) {
      var i, j :| i < j && AssignedAt(ds, i, id) && VoidedAt(ds, j, id);
      assert AssignedAt(more, i, id) && VoidedAt(more, j, id);
    }
    if e.Voided? && e.id == id && exists i :: AssignedAt(ds, i, id) {
      var i :| AssignedAt(ds, i, id);
      assert AssignedAt(more, i, id) && VoidedAt(more, |ds|, id);
    }
    forall x | VoidedBySome(ds, id, x) ensures VoidedBySome(more, id, x) {
      var j :| VoidedAt(ds, j, id) && ds[j].supersededBy == x;
      assert VoidedAt(more, j, id) && more[j] == ds[j];
    }
    assert e.Voided? && e.id == id ==> VoidedAt(more, |ds|, id) && more[|ds|] == e;
    forall r | CopiesSome(ds, id, r) ensures CopiesSome(more, id, r) {
      var i :| AssignedAt(ds, i, id) && TakenFrom(r, ds[i]);
      assert AssignedAt(more, i, id) && TakenFrom(r, more[i]);
    }
  }

  ghost predicate FaithfulAt(ds: seq<Event>, b: Board, id: string) {
    && (id in b.assignments <==> exists i :: AssignedAt(ds, i, id))
    && (id in b.assignments ==>
          && CopiesSome(ds, id, b.assignments[id])
          && (b.assignments[id].voidedBy.Some? <==> VoidLanded(ds, id))
          && (b.assignments[id].voidedBy.Some? ==> VoidedBySome(ds, id, b.assignments[id].voidedBy.value)))
  }

  lemma ProjectedStaysFaithful(ds: seq<Event>, b: Board, e: Event, id: string)
    requires FaithfulAt(ds, b, id)
    ensures FaithfulAt(ds + [e], Projected(b, e), id)
  {
    var more, c := ds + [e], Projected(b, e);
    GrownHistory(ds, e, id);
    if id in b.assignments {
      var i :| AssignedAt(ds, i, id) && TakenFrom(b.assignments[id], ds[i]);
      assert AssignedAt(more, i, id) && TakenFrom(c.assignments[id], more[i]);
    } else if e.Assigned? && e.id == id {
      assert AssignedAt(more, |ds|, id) && TakenFrom(c.assignments[id], more[|ds|]);
    }
  }

  lemma {:induction false} BoardIsFaithful(ds: seq<Event>)
    ensures Faithful(ds, ProjectAll(ds))
  {
    if ds != [] {
      var init := ds[..|ds| - 1];
      BoardIsFaithful(init);
      assert init + [ds[|ds| - 1]] == ds;
      forall id ensures FaithfulAt(ds, ProjectAll(ds), id) {
        ProjectedStaysFaithful(init, ProjectAll(init), ds[|ds| - 1], id);
      }
      forall id ensures AlertFaithfulAt(ds, ProjectAll(ds), id) {
        AlertsStayFaithful(init, ProjectAll(init), ds[|ds| - 1], id);
      }
    }
  }

  // ---- the board of a whole run ----

  /** Everything published is delivered at least once, nothing else is, and each void
      is delivered at least once after its own assignment; otherwise any order, and any
      number of repeats. */
  ghost predicate Delivers(ds: seq<Event>, log: seq<Event>) {
    && (forall e :: e in ds <==> e in log)
    && (forall e | e in log && e.Voided? :: VoidLanded(ds, e.id))
  }

  /** The unvoided rows are in bijection with the ASSIGNED slots, and carry their ids. */
  ghost predicate MatchesSlots(b: Board, rows: Rows) {
    && (forall k | k in rows && rows[k].state == ASSIGNED ::
          var id := rows[k].assignment;
          id in b.assignments && b.assignments[id].voidedBy.None? && b.assignments[id].key == k
          && b.assignments[id].side1 == rows[k].side1 && b.assignments[id].side2 == rows[k].side2)
    && (forall id | id in b.assignments && b.assignments[id].voidedBy.None? ::
          var k := b.assignments[id].key;
          k in rows && rows[k].state == ASSIGNED && rows[k].assignment == id)
  }

  lemma BoardMatchesSlots(cfg: Config, steps: seq<Step>, ds: seq<Event>)
    requires ValidRun(cfg, steps) && HandlersComplete(steps) && Delivers(ds, Run(cfg, steps).log)
    ensures MatchesSlots(ProjectAll(ds), Run(cfg, steps).rows)
  {
    var w, b := Run(cfg, steps), ProjectAll(ds);
    RunsKeepTheInvariant(cfg, steps);
    BoardIsFaithful(ds);
    forall k | k in w.rows && w.rows[k].state == ASSIGNED
      ensures var id := w.rows[k].assignment;
        id in b.assignments && b.assignments[id].voidedBy.None? && b.assignments[id].key == k
        && b.assignments[id].side1 == w.rows[k].side1 && b.assignments[id].side2 == w.rows[k].side2
    {
      SlotIsOnTheBoard(w, ds, b, k);
    }
    forall id | id in b.assignments && b.assignments[id].voidedBy.None?
      ensures var k := b.assignments[id].key;
        k in w.rows && w.rows[k].state == ASSIGNED && w.rows[k].assignment == id
    {
      RowHasItsSlot(w, ds, b, id);
    }
  }

  lemma OnlyIfPublished(ds: seq<Event>, log: seq<Event>, id: string)
    requires Delivers(ds, log)
    ensures VoidLanded(ds, id) <==> IsVoided(log, id)
  {
    if VoidLanded(ds, id) {
      var i, j :| i < j && AssignedAt(ds, i, id) && VoidedAt(ds, j, id);
      assert ds[j] in ds;
    }
  }

  lemma SlotIsOnTheBoard(w: World, ds: seq<Event>, b: Board, k: Key)
    requires Agreement(w) && DistinctIds(w.log) && UnvoidedIsCurrent(w) && Keyed(w.rows)
    requires Delivers(ds, w.log) && Faithful(ds, b)
    requires k in w.rows && w.rows[k].state == ASSIGNED
    ensures var id := w.rows[k].assignment;
      id in b.assignments && b.assignments[id].voidedBy.None? && b.assignments[id].key == k
      && b.assignments[id].side1 == w.rows[k].side1 && b.assignments[id].side2 == w.rows[k].side2
  {
    var es, id := ForSlot(w.log, k), w.rows[k].assignment;
    assert SlotAgrees(Row(w.rows, k), es);
    ForSlotKeeps(w.log, k);
    var e := es[|es| - 1];
    assert e in es && e in w.log && e in ds;
    var i :| 0 <= i < |ds| && ds[i] == e;
    assert AssignedAt(ds, i, id);
    assert FaithfulAt(ds, b, id);
    var j :| AssignedAt(ds, j, id) && TakenFrom(b.assignments[id], ds[j]);
    assert ds[j] in ds;
    SameIdSameEvent(w.log, e, ds[j]);
    OnlyIfPublished(ds, w.log, id);
    assert StandsAsItShould(w, e);
  }

  lemma RowHasItsSlot(w: World, ds: seq<Event>, b: Board, id: string)
    requires Agreement(w) && DistinctIds(w.log) && UnvoidedIsCurrent(w)
    requires Delivers(ds, w.log) && Faithful(ds, b)
    requires id in b.assignments && b.assignments[id].voidedBy.None?
    ensures var k := b.assignments[id].key;
      k in w.rows && w.rows[k].state == ASSIGNED && w.rows[k].assignment == id
  {
    assert FaithfulAt(ds, b, id);
    var j :| AssignedAt(ds, j, id) && TakenFrom(b.assignments[id], ds[j]);
    var e := ds[j];
    assert e in ds;
    OnlyIfPublished(ds, w.log, id);
    assert StandsAsItShould(w, e);
    assert SlotAgrees(Row(w.rows, e.key), ForSlot(w.log, e.key));
  }

  // ---- redelivery ----

  lemma {:induction false} AlertsStay(ds: seq<Event>, e: Event)
    requires e in ds && e.Alerted?
    ensures AlertId(e.key, e.missingSide) in ProjectAll(ds).alerts
  {
    var init := ds[..|ds| - 1];
    assert ds == init + [ds[|ds| - 1]];
    if e in init {
      AlertsStay(init, e);
    }
  }

  /** A message already projected changes nothing when it comes again, with one
      exception: a void that has only ever come before its assignment. */
  lemma RedeliveryIsIdempotent(ds: seq<Event>, e: Event)
    requires e in ds
    ensures Projected(ProjectAll(ds), e) == ProjectAll(ds) <==>
      !(e.Voided? && (exists i :: AssignedAt(ds, i, e.id)) && !VoidLanded(ds, e.id))
  {
    var b := ProjectAll(ds);
    BoardIsFaithful(ds);
    assert !e.Alerted? ==> FaithfulAt(ds, b, IdOf(e));
    match e
    case Assigned(id, _, _, _, _, _) =>
      var i :| 0 <= i < |ds| && ds[i] == e;
      assert AssignedAt(ds, i, id);
    case Voided(id, _, successor) =>
      if id in b.assignments && b.assignments[id].voidedBy.None? {
        assert Projected(b, e).assignments[id].voidedBy == Some(successor);
      }
    case Alerted(_, _, _, _) =>
      AlertsStay(ds, e);
  }

  // ---- publish order is an admissible delivery ----

  ghost predicate VoidsFollow(log: seq<Event>) {
    forall j, id | VoidedAt(log, j, id) :: exists i :: i < j && AssignedAt(log, i, id)
  }

  lemma VoidsKeepFollowing(log: seq<Event>, more: seq<Event>)
    requires VoidsFollow(log)
    requires forall j | 0 <= j < |more| && more[j].Voided? :: Issued(log, more[j].id)
    ensures VoidsFollow(log + more)
  {
    var all := log + more;
    forall j, id | VoidedAt(all, j, id) ensures exists i :: i < j && AssignedAt(all, i, id) {
      if j < |log| {
        assert VoidedAt(log, j, id);
        var i :| i < j && AssignedAt(log, i, id);
        assert AssignedAt(all, i, id);
      } else {
        assert Issued(log, more[j - |log|].id);
        var e :| e in log && e.Assigned? && e.id == id;
        var i :| 0 <= i < |log| && log[i] == e;
        assert AssignedAt(all, i, id);
      }
    }
  }

  lemma HandleVoidsAfterAssigning(
    cfg: Config, w: World, lost: set<string>, m: Message, now: int, id: string, f: HandlerFault)
    requires VoidsFollow(w.log) && Traced(cfg, w, lost) && m.arrival.id != ""
    ensures VoidsFollow(Handled(cfg, w, m, now, id, f).log)
  {
    if m.dispatched && Applied(cfg, w.rows, m.arrival, now).Ok? {
      var s := Located(cfg, w.rows, m.arrival, now).value;
      LocatedSlot(cfg, w.rows, m.arrival, now);
      PlacedMoves(s, m.arrival, w.log, lost);
      CarryVoidsAfterAssigning(w, lost, s, Placed(s, m.arrival).value, m.arrival, id, f);
    }
  }

  lemma CarryVoidsAfterAssigning(
    w: World, lost: set<string>, s: Slot, o: Outcome, a: Arrival, id: string, f: HandlerFault)
    requires VoidsFollow(w.log) && RowTraced(s, w.log, lost) && Moves(s, o)
    ensures VoidsFollow(CarriedUpTo(w, o, a, id, f).log)
  {
    if o.supersedes != "" {
      IssuedForIsIssued(w.log, o.supersedes, s.key);
    }
    VoidsKeepFollowing(w.log, Instructions(o, a, id)[..Published(o, f)]);
  }

  lemma {:induction false} RunsVoidAfterAssigning(cfg: Config, steps: seq<Step>)
    requires ValidRun(cfg, steps)
    ensures VoidsFollow(Run(cfg, steps).log)
  {
    if steps != [] {
      var before := steps[..|steps| - 1];
      var w := Run(cfg, before);
      RunsVoidAfterAssigning(cfg, before);
      RunsStayTraced(cfg, before);
      match steps[|steps| - 1]
      case SweepStep(now, due, f) => VoidsKeepFollowing(w.log, Alerts(due)[..Sent(due, f)]);
      case HandleStep(m, now, id, f) => HandleVoidsAfterAssigning(cfg, w, Orphans(cfg, before), m, now, id, f);
    }
  }

  lemma PublishOrderDelivers(cfg: Config, steps: seq<Step>)
    requires ValidRun(cfg, steps)
    ensures Delivers(Run(cfg, steps).log, Run(cfg, steps).log)
  {
    var log := Run(cfg, steps).log;
    RunsVoidAfterAssigning(cfg, steps);
    forall e | e in log && e.Voided? ensures VoidLanded(log, e.id) {
      var j :| 0 <= j < |log| && log[j] == e;
      assert VoidedAt(log, j, e.id);
    }
  }

  // ---- what interrupted handlers leave on the board ----

  ghost predicate ShownAlthoughReplaced(b: Board, rows: Rows, id: string) {
    && id in b.assignments && b.assignments[id].voidedBy.None?
    && var k := b.assignments[id].key;
       !(k in rows && rows[k].assignment == id)
  }

  /** Wherever handlers broke off, and however messages were delivered, the board shows
      as valid an assignment its slot does not carry if and only if the handler that
      published it broke off before stamping. */
  lemma BoardShowsExactlyTheOrphans(cfg: Config, steps: seq<Step>, ds: seq<Event>, id: string)
    requires ValidRun(cfg, steps) && Delivers(ds, Run(cfg, steps).log)
    ensures ShownAlthoughReplaced(ProjectAll(ds), Run(cfg, steps).rows, id) <==> id in Orphans(cfg, steps)
  {
    var w, b := Run(cfg, steps), ProjectAll(ds);
    RunsStayTraced(cfg, steps);
    BoardIsFaithful(ds);
    OnlyIfPublished(ds, w.log, id);
    assert FaithfulAt(ds, b, id);
    if id in Orphans(cfg, steps) {
      OrphanIsDelivered(ds, w.log, id);
    }
    if id in b.assignments {
      var e := CopiedFrom(ds, w.log, id, b.assignments[id]);
      OrphansAreExactlyTheUnstamped(cfg, steps, e);
    }
  }

  lemma OrphanIsDelivered(ds: seq<Event>, log: seq<Event>, id: string)
    requires Delivers(ds, log) && Issued(log, id)
    ensures exists i :: AssignedAt(ds, i, id)
  {
    var e :| e in log && e.Assigned? && e.id == id;
    assert e in ds;
    var i :| 0 <= i < |ds| && ds[i] == e;
    assert AssignedAt(ds, i, id);
  }

  lemma CopiedFrom(ds: seq<Event>, log: seq<Event>, id: string, r: AssignmentRow) returns (e: Event)
    requires Delivers(ds, log) && CopiesSome(ds, id, r)
    ensures e in log && e.Assigned? && e.id == id && e.key == r.key
  {
    var i :| AssignedAt(ds, i, id) && TakenFrom(r, ds[i]);
    e := ds[i];
    assert e in ds;
  }

  // ---- alert ids ----

  lemma LastField(a: string, b: string, c: string, d: string)
    requires a + ":" + b == c + ":" + d && ':' !in b && ':' !in d
    ensures a == c && b == d
  {
    LastPiece(':', a + ":", b, c + ":", d);
    assert a == (a + ":")[..|a|] && c == (c + ":")[..|c|];
  }

  /** Distinct slots and sides never share an alert id: only the client id is free text. */
  lemma AlertIdIsInjective(k: Key, s: string, l: Key, t: string)
    requires ':' !in k.domain + k.valueDate + s && ':' !in l.domain + l.valueDate + t
    requires AlertId(k, s) == AlertId(l, t)
    ensures k == l && s == t
  {
    LastField(k.client + ":" + k.domain + ":" + k.valueDate, s, l.client + ":" + l.domain + ":" + l.valueDate, t);
    LastField(k.client + ":" + k.domain, k.valueDate, l.client + ":" + l.domain, l.valueDate);
    LastField(k.client, k.domain, l.client, l.domain);
  }
}
