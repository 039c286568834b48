/** What is left of Berthmaster's promises when a handler breaks off between any two of
    its writes (go/cmd/berthmaster/main.go, handle and assign), over whole runs. */
module Interruptions {
  import opened Basics
  import opened Slots
  import opened Berthmaster

  // ---- the void still comes before what replaces it ----

  ghost predicate VoidedBefore(log: seq<Event>, j: nat, id: string) {
    exists i :: 0 <= i < j && i < |log| && log[i].Voided? && log[i].id == id
  }

  ghost predicate VoidsComeFirst(log: seq<Event>) {
    forall j | 0 <= j < |log| && log[j].Assigned? && log[j].supersedes != "" :: VoidedBefore(log, j, log[j].supersedes)
  }

  lemma VoidsStayFirst(log: seq<Event>, more: seq<Event>)
    requires VoidsComeFirst(log) && VoidsComeFirst(more)
    ensures VoidsComeFirst(log + more)
  {
    var all := log + more;
    forall j | 0 <= j < |all| && all[j].Assigned? && all[j].supersedes != ""
      ensures VoidedBefore(all, j, all[j].supersedes)
    {
      if j < |log| {
        var i :| 0 <= i < j && log[i].Voided? && log[i].id == log[j].supersedes;
        assert all[i] == log[i];
      } else {
        var n := j - |log|;
        var i :| 0 <= i < n && more[i].Voided? && more[i].id == more[n].supersedes;
        assert all[|log| + i] == more[i];
      }
    }
  }

  lemma InstructionsVoidFirst(o: Outcome, a: Arrival, id: string, n: nat)
    requires n <= |Instructions(o, a, id)|
    ensures VoidsComeFirst(Instructions(o, a, id)[..n])
  {
    var es := Instructions(o, a, id);
    if o.supersedes != "" && n == 2 {
      assert es[..n][0] == es[0];
    }
  }

  /** In every run, wherever handlers and sweeps break off, an assignment that replaces
      another is preceded by a void of that other. */
  lemma {:induction false} VoidsPrecedeReplacements(cfg: Config, steps: seq<Step>)
    requires ValidRun(cfg, steps)
    ensures VoidsComeFirst(Run(cfg, steps).log)
  {
    if steps != [] {
      var before, step := steps[..|steps| - 1], steps[|steps| - 1];
      var w := Run(cfg, before);
      VoidsPrecedeReplacements(cfg, before);
      match step {
        case SweepStep(now, due, f) => VoidsStayFirst(w.log, Alerts(due)[..Sent(due, f)]);
        case HandleStep(m, now, id, f) =>
          if m.dispatched && Applied(cfg, w.rows, m.arrival, now).Ok? {
            var o := Applied(cfg, w.rows, m.arrival, now).value;
            InstructionsVoidFirst(o, m.arrival, id, Published(o, f));
            VoidsStayFirst(w.log, Instructions(o, m.arrival, id)[..Published(o, f)]);
          }
      }
    }
  }

  // ---- an assignment published and not stamped is an orphan for good ----

  /** The handler published its assignment and broke off before stamping the slot. */
  predicate LeavesOrphan(cfg: Config, w: World, s: Step) {
    && s.HandleStep? && s.failure.AtStamp? && s.m.dispatched
    && var out := Applied(cfg, w.rows, s.m.arrival, s.now);
       out.Ok? && out.value.assign
  }

  function Orphans(cfg: Config, steps: seq<Step>): set<string> {
    if steps == [] then {}
    else
      var before, step := steps[..|steps| - 1], steps[|steps| - 1];
      Orphans(cfg, before) + if LeavesOrphan(cfg, Run(cfg, before), step) then {step.id} else {}
  }

  ghost predicate RowTraced(s: Slot, log: seq<Event>, lost: set<string>) {
    s.assignment != "" ==>
      s.state == ASSIGNED && s.Complete() && s.assignment !in lost && IssuedFor(log, s.assignment, s.key)
  }

  ghost predicate RowsTraced(w: World, lost: set<string>) {
    forall k | k in w.rows :: RowTraced(w.rows[k], w.log, lost)
  }

  /** An assignment is an orphan, or its slot carries it, or it is voided. */
  ghost predicate Accounted(w: World, lost: set<string>, e: Event) {
    e.Assigned? ==> e.id in lost || IsCurrent(w.rows, e) || IsVoided(w.log, e.id)
  }

  ghost predicate AllAccounted(w: World, lost: set<string>) {
    forall e | e in w.log :: Accounted(w, lost, e)
  }

  ghost predicate OrphansUnvoided(log: seq<Event>, lost: set<string>) {
    forall x | x in lost :: Issued(log, x) && !IsVoided(log, x)
  }

  ghost predicate Traced(cfg: Config, w: World, lost: set<string>) {
    && DeadlinesFixed(cfg, w.rows) && DistinctIds(w.log)
    && RowsTraced(w, lost) && AllAccounted(w, lost) && OrphansUnvoided(w.log, lost)
  }

  lemma IssuedAfter(log: seq<Event>, more: seq<Event>, id: string)
    ensures Issued(log + more, id) <==> Issued(log, id) || Issued(more, id)
  {}

  lemma IssuedForAfter(log: seq<Event>, more: seq<Event>, id: string, k: Key)
    requires IssuedFor(log, id, k)
    ensures IssuedFor(log + more, id, k)
  {}

  lemma SweepStaysTraced(cfg: Config, w: World, lost: set<string>, now: int, due: seq<Slot>, f: SweepFault)
    requires Traced(cfg, w, lost) && IsDueList(w.rows, now, due)
    ensures Traced(cfg, SweptWorld(w, now, due, f), lost)
  {
    var rows, es := SweptUpTo(w.rows, now, due, f), Alerts(due)[..Sent(due, f)];
    SweepMarksSome(w.rows, now, due, f);
    MarkingKeepsDeadlines(cfg, w.rows, now, rows);
    AlertsCarryNoIds(w.log, es);
    MarkingKeepsRows(w, lost, now, rows, es);
    MarkingKeepsAccounts(w, lost, now, rows, es);
  }

  lemma MarkingKeepsRows(w: World, lost: set<string>, now: int, rows: Rows, es: seq<Event>)
    requires RowsTraced(w, lost) && MarksSome(w.rows, rows, now)
    ensures RowsTraced(World(rows, w.log + es), lost)
  {
    forall k | k in rows ensures RowTraced(rows[k], w.log + es, lost) {
      assert RowTraced(w.rows[k], w.log, lost);
      if rows[k].assignment != "" {
        IssuedForAfter(w.log, es, rows[k].assignment, rows[k].key);
      }
    }
  }

  lemma MarkingKeepsAccounts(w: World, lost: set<string>, now: int, rows: Rows, es: seq<Event>)
    requires AllAccounted(w, lost) && MarksSome(w.rows, rows, now)
    requires forall i | 0 <= i < |es| :: es[i].Alerted?
    ensures AllAccounted(World(rows, w.log + es), lost)
  {
    AlertsCarryNoIds(w.log, es);
    forall e | e in w.log + es && e.Assigned? ensures Accounted(World(rows, w.log + es), lost, e) {
      assert e in w.log && Accounted(w, lost, e);
    }
  }

  /** What putting an arrival on its slot does to the assignment the slot carries. */
  ghost predicate Moves(s: Slot, o: Outcome) {
    && o.slot.key == s.key && o.slot.assignment == s.assignment
    && (s.assignment != "" ==> o.assign)
    && (o.assign ==> o.slot.state == ASSIGNED && o.slot.Complete() && o.supersedes == s.assignment)
    && (!o.assign ==> o.supersedes == "")
  }

  lemma PlacedMoves(s: Slot, a: Arrival, log: seq<Event>, lost: set<string>)
    requires RowTraced(s, log, lost) && Placed(s, a).Ok? && a.id != ""
    ensures Moves(s, Placed(s, a).value)
  {}

  /** The events an interrupted handler did publish, by what they issue and void. */
  ghost predicate Emits(o: Outcome, id: string, f: HandlerFault, es: seq<Event>) {
    && (Issued(es, id) <==> Stamps(o, f) || f.AtStamp?)
    && (forall x :: IsVoided(es, x) <==> x == o.supersedes && x != "" && !f.AtVoid?)
    && (forall e | e in es && e.Assigned? :: e.id == id && e.key == o.slot.key)
  }

  lemma PublishedEmits(o: Outcome, a: Arrival, id: string, f: HandlerFault)
    requires id != "" && o.supersedes != id
    ensures Emits(o, id, f, Instructions(o, a, id)[..Published(o, f)])
  {
    var all, n := Instructions(o, a, id), Published(o, f);
    var es := all[..n];
    if n == |all| {
      assert es == all && all[n - 1] in es;
      if o.supersedes != "" {
        assert all[0] in es;
      }
    } else if n == 1 {
      assert es == [all[0]] && all[0] in es;
    }
  }

  /** The row such an arrival leaves behind. */
  function RowLeft(o: Outcome, id: string, f: HandlerFault): Slot {
    if o.assign && Stamps(o, f) then o.slot.(assignment := id) else o.slot
  }

  function OrphanOf(id: string, f: HandlerFault): set<string> {
    if f.AtStamp? then {id} else {}
  }

  /** `id` is new to the log and to the orphans. */
  ghost predicate IsNew(log: seq<Event>, lost: set<string>, id: string) {
    id != "" && !Issued(log, id) && id !in lost && !IsVoided(log, id)
  }

  lemma RowLeftIsTraced(
    s: Slot, o: Outcome, id: string, f: HandlerFault, log: seq<Event>, es: seq<Event>, lost: set<string>)
    requires RowTraced(s, log, lost) && Moves(s, o) && o.assign && Emits(o, id, f, es) && IsNew(log, lost, id)
    ensures RowTraced(RowLeft(o, id, f), log + es, lost + OrphanOf(id, f))
  {
    if Stamps(o, f) {
      var e :| e in es && e.Assigned? && e.id == id;
      assert e in log + es;
    } else if s.assignment != "" {
      IssuedForIsIssued(log, s.assignment, s.key);
      IssuedForAfter(log, es, s.assignment, s.key);
    }
  }

  lemma OtherRowsStayTraced(s: Slot, log: seq<Event>, es: seq<Event>, lost: set<string>, id: string, f: HandlerFault)
    requires RowTraced(s, log, lost) && !Issued(log, id)
    ensures RowTraced(s, log + es, lost + OrphanOf(id, f))
  {
    if s.assignment != "" {
      IssuedForIsIssued(log, s.assignment, s.key);
      IssuedForAfter(log, es, s.assignment, s.key);
    }
  }

  lemma OrphansStayUnvoided(
    s: Slot, o: Outcome, id: string, f: HandlerFault, log: seq<Event>, es: seq<Event>, lost: set<string>)
    requires RowTraced(s, log, lost) && Moves(s, o) && o.assign && Emits(o, id, f, es) && IsNew(log, lost, id)
    requires OrphansUnvoided(log, lost)
    ensures OrphansUnvoided(log + es, lost + OrphanOf(id, f))
  {
    if s.assignment != "" {
      IssuedForIsIssued(log, s.assignment, s.key);
    }
    forall x | x in lost + OrphanOf(id, f) ensures Issued(log + es, x) && !IsVoided(log + es, x) {
      IssuedAfter(log, es, x);
      VoidedAfter(log, es, x);
    }
  }

  lemma PublishingStaysAccounted(
    s: Slot, o: Outcome, id: string, f: HandlerFault, w: World, es: seq<Event>, lost: set<string>, e: Event)
    requires Moves(s, o) && o.assign && Emits(o, id, f, es)
    requires DistinctIds(w.log) && AllAccounted(w, lost) && e in w.log + es
    requires s.key in w.rows ==> w.rows[s.key] == s
    ensures Accounted(World(w.rows[s.key := RowLeft(o, id, f)], w.log + es), lost + OrphanOf(id, f), e)
  {
    if e.Assigned? {
      VoidedAfter(w.log, es, e.id);
      if e in w.log {
        assert Accounted(w, lost, e);
      } else {
        EventsIssue(es, e);
      }
    }
  }

  lemma EventsIssue(es: seq<Event>, e: Event)
    requires e in es && e.Assigned?
    ensures Issued(es, e.id)
  {}

  lemma DistinctPrefix(log: seq<Event>, more: seq<Event>, n: nat)
    requires DistinctIds(log) && DistinctIds(log + more) && n <= |more|
    requires forall e | e in more && e.Voided? :: Issued(log, e.id)
    ensures DistinctIds(log + more[..n])
  {
    var all, some := log + more, log + more[..n];
    assert some == all[..|log| + n];
    forall e | e in some && e.Voided? ensures Issued(some, e.id) {
      IssuedAfter(log, more[..n], e.id);
    }
  }

  lemma PublishingStaysDistinct(log: seq<Event>, o: Outcome, a: Arrival, id: string, n: nat)
    requires DistinctIds(log) && id != "" && !Issued(log, id) && n <= |Instructions(o, a, id)|
    requires o.supersedes != "" ==> Issued(log, o.supersedes)
    ensures DistinctIds(log + Instructions(o, a, id)[..n])
  {
    IdsStayDistinct(log, o, a, id);
    DistinctPrefix(log, Instructions(o, a, id), n);
  }

  /** A handler that stops before publishing, or has nothing to publish. */
  lemma StoringStaysTraced(cfg: Config, w: World, lost: set<string>, s: Slot, o: Outcome, rows: Rows)
    requires Traced(cfg, w, lost) && RowTraced(s, w.log, lost) && Moves(s, o)
    requires (s.key in w.rows ==> w.rows[s.key] == s) && rows == w.rows[s.key := o.slot] && DeadlinesFixed(cfg, rows)
    ensures Traced(cfg, World(rows, w.log), lost)
  {
    StoringKeepsAccounts(w, lost, s, o, rows);
    forall k | k in rows ensures RowTraced(rows[k], w.log, lost) {
      if k != s.key {
        assert RowTraced(w.rows[k], w.log, lost);
      }
    }
  }

  lemma StoringKeepsAccounts(w: World, lost: set<string>, s: Slot, o: Outcome, rows: Rows)
    requires AllAccounted(w, lost) && Moves(s, o)
    requires (s.key in w.rows ==> w.rows[s.key] == s) && rows == w.rows[s.key := o.slot]
    ensures AllAccounted(World(rows, w.log), lost)
  {
    forall e | e in w.log ensures Accounted(World(rows, w.log), lost, e) {
      assert Accounted(w, lost, e);
    }
  }

  lemma PublishingStaysTraced(
    cfg: Config, w: World, lost: set<string>, s: Slot, o: Outcome, id: string, f: HandlerFault, w': World,
    es: seq<Event>)
    requires Traced(cfg, w, lost) && RowTraced(s, w.log, lost) && Moves(s, o) && o.assign && IsNew(w.log, lost, id)
    requires (s.key in w.rows ==> w.rows[s.key] == s) && DeadlinesFixed(cfg, w'.rows)
    requires Emits(o, id, f, es) && w' == World(w.rows[s.key := RowLeft(o, id, f)], w.log + es) && DistinctIds(w'.log)
    ensures Traced(cfg, w', lost + OrphanOf(id, f))
  {
    var lost' := lost + OrphanOf(id, f);
    OrphansStayUnvoided(s, o, id, f, w.log, es, lost);
    RowLeftIsTraced(s, o, id, f, w.log, es, lost);
    forall k | k in w'.rows ensures RowTraced(w'.rows[k], w'.log, lost') {
      if k != s.key {
        OtherRowsStayTraced(w.rows[k], w.log, es, lost, id, f);
      }
    }
    forall e | e in w'.log ensures Accounted(w', lost', e) {
      PublishingStaysAccounted(s, o, id, f, w, es, lost, e);
    }
  }

  lemma CarryStaysTraced(cfg: Config, w: World, lost: set<string>, s: Slot, a: Arrival, id: string, f: HandlerFault)
    requires Traced(cfg, w, lost) && IsLocated(cfg, w.rows, a, s) && Placed(s, a).Ok?
    requires a.id != "" && id != "" && !Issued(w.log, id) && !f.AtStore?
    ensures var o := Placed(s, a).value;
      Traced(cfg, CarriedUpTo(w, o, a, id, f), lost + if o.assign then OrphanOf(id, f) else {})
  {
    var o := Placed(s, a).value;
    PlacedMoves(s, a, w.log, lost);
    CarriedRowsUpTo(cfg, w, s, a, id, f);
    CarryKeepsDeadlines(cfg, w, s, a, id, f);
    if o.assign && !f.AtAudit? {
      if o.supersedes != "" {
        IssuedForIsIssued(w.log, o.supersedes, s.key);
      }
      PublishedEmits(o, a, id, f);
      PublishingStaysDistinct(w.log, o, a, id, Published(o, f));
      PublishingStaysTraced(cfg, w, lost, s, o, id, f, CarriedUpTo(w, o, a, id, f),
                            Instructions(o, a, id)[..Published(o, f)]);
    } else {
      StoringStaysTraced(cfg, w, lost, s, o, Upserted(w.rows, o.slot));
      assert lost + {} == lost;
    }
  }

  lemma HandleStaysTraced(cfg: Config, w: World, lost: set<string>, m: Message, now: int, id: string, f: HandlerFault)
    requires Traced(cfg, w, lost) && StepOk(w, HandleStep(m, now, id, f))
    ensures Traced(cfg, Handled(cfg, w, m, now, id, f),
                   lost + if LeavesOrphan(cfg, w, HandleStep(m, now, id, f)) then {id} else {})
  {
    assert lost + {} == lost;
    if m.dispatched && Applied(cfg, w.rows, m.arrival, now).Ok? && !f.AtStore? {
      LocatedSlot(cfg, w.rows, m.arrival, now);
      CarryStaysTraced(cfg, w, lost, Located(cfg, w.rows, m.arrival, now).value, m.arrival, id, f);
    }
  }

  lemma {:induction false} RunsStayTraced(cfg: Config, steps: seq<Step>)
    requires ValidRun(cfg, steps)
    ensures Traced(cfg, Run(cfg, steps), Orphans(cfg, steps))
  {
    if steps != [] {
      var before, step := steps[..|steps| - 1], steps[|steps| - 1];
      var w, lost := Run(cfg, before), Orphans(cfg, before);
      RunsStayTraced(cfg, before);
      match step {
        case SweepStep(now, due, f) =>
          SweepStaysTraced(cfg, w, lost, now, due, f);
          assert lost + {} == lost;
        case HandleStep(m, now, id, f) => HandleStaysTraced(cfg, w, lost, m, now, id, f);
      }
    }
  }

  /** Over every run, wherever handlers and sweeps break off: an assignment stays
      unvoided although its slot does not carry it if and only if the handler that
      published it broke off before stamping. */
  lemma OrphansAreExactlyTheUnstamped(cfg: Config, steps: seq<Step>, e: Event)
    requires ValidRun(cfg, steps) && e in Run(cfg, steps).log && e.Assigned?
    ensures var w := Run(cfg, steps);
      !IsVoided(w.log, e.id) && !IsCurrent(w.rows, e) <==> e.id in Orphans(cfg, steps)
  {
    var w := Run(cfg, steps);
    RunsStayTraced(cfg, steps);
    assert Accounted(w, Orphans(cfg, steps), e);
    if IsCurrent(w.rows, e) {
      assert RowTraced(w.rows[e.key], w.log, Orphans(cfg, steps));
    }
  }
}
