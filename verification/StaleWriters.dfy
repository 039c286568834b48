/** Any number of workers racing on the slot table (go/internal/slot/slot.go,
    Get, DueBefore and Upsert). Each holds one slot it read earlier and may write it back
    at any later time; only the single statements are atomic. */
module StaleWriters {
  import opened Basics
  import opened Slots

  type Worker = nat

  /** What a worker has done to the slot it read or opened: what Apply, Overdue and
      RecordAssignment do, or any other change. */
  datatype Deed = Reading | Placing | Marking | Stamping | Editing

  datatype Held = Held(slot: Slot, deed: Deed)

  datatype System = System(rows: Rows, held: map<Worker, Held>)

  datatype Action =
    | Read(w: Worker, k: Key)
    | Open(w: Worker, k: Key, expectation: string, now: int)
    | Place(w: Worker, a: Arrival)
    | Mark(w: Worker, now: int)
    | Stamp(w: Worker, id: string)
    | Edit(w: Worker, state: State, side1: string, side2: string, assignment: string)
    | Write(w: Worker)

  /** Open is Get finding no row and the slot made for it. Edit stands for any change there
      could be, blank values included. */
  function Act(cfg: Config, sys: System, a: Action): System {
    match a
    case Read(w, k) => if k in sys.rows then Holding(sys, w, Held(sys.rows[k], Reading)) else sys
    case Open(w, k, e, now) =>
      (match cfg.Deadline(k.client, k.valueDate)
       case Err(_) => sys
       case Ok(d) =>
         if k in sys.rows then sys
         else Holding(sys, w, Held(Slot(k, OPEN, e, "", "", "", now, d), Reading)))
    case Write(w) =>
      if w in sys.held && sys.held[w].deed != Reading
      then sys.(rows := Upserted(sys.rows, sys.held[w].slot))
      else sys
    case _ =>
      if a.w in sys.held && sys.held[a.w].deed == Reading
      then Holding(sys, a.w, Changed(sys.held[a.w], a))
      else sys
  }

  function Holding(sys: System, w: Worker, h: Held): System {
    sys.(held := sys.held[w := h])
  }

  /** The worker's own change to the slot in its memory, made once. */
  function Changed(h: Held, a: Action): Held {
    match a
    case Place(_, x) =>
      var placed := Placed(h.slot, x);
      if x.SlotKey() == h.slot.key && placed.Ok? then Held(placed.value.slot, Placing) else h
    case Mark(_, now) => if Due(h.slot, now) then Held(h.slot.(state := MISSING), Marking) else h
    case Stamp(_, id) => Held(h.slot.(assignment := id, state := ASSIGNED), Stamping)
    case Edit(_, state, side1, side2, assignment) =>
      Held(h.slot.(state := state, side1 := side1, side2 := side2, assignment := assignment), Editing)
    case _ => h
  }

  /** The system after the first `n` actions. */
  function Played(cfg: Config, sys: System, actions: seq<Action>, n: nat): System
    requires n <= |actions|
  {
    if n == 0 then sys else Act(cfg, Played(cfg, sys, actions, n - 1), actions[n - 1])
  }

  function Play(cfg: Config, sys: System, actions: seq<Action>): System {
    Played(cfg, sys, actions, |actions|)
  }

  /** Every slot in the table or in memory carries the deadline its key determines. */
  ghost predicate Sound(cfg: Config, sys: System) {
    && Keyed(sys.rows)
    && (forall k | k in sys.rows :: cfg.Deadline(k.client, k.valueDate) == Ok(sys.rows[k].deadline))
    && (forall w | w in sys.held :: HasItsDeadline(cfg, sys.held[w].slot))
  }

  ghost predicate HasItsDeadline(cfg: Config, s: Slot) {
    cfg.Deadline(s.key.client, s.key.valueDate) == Ok(s.deadline)
  }

  ghost predicate NotBlanked(before: string, after: string) {
    before != "" ==> after != ""
  }

  /** What no write, however stale, can take from a row. */
  ghost predicate Survives(r: Slot, s: Slot) {
    && s.key == r.key && s.expectation == r.expectation && s.openedAt == r.openedAt && s.deadline == r.deadline
    && NotBlanked(r.side1, s.side1) && NotBlanked(r.side2, s.side2) && NotBlanked(r.assignment, s.assignment)
  }

  ghost predicate RowsSurvive(before: Rows, after: Rows) {
    forall k | k in before :: k in after && Survives(before[k], after[k])
  }

  /** Merging any slot with the same key and deadline, blank values and all. */
  lemma MergeSurvives(stored: Slot, s: Slot)
    requires s.deadline == stored.deadline
    ensures Survives(stored, Merge(stored, s)) && Merge(stored, s).deadline == stored.deadline
  {}

  lemma WriteKeepsRows(cfg: Config, sys: System, s: Slot)
    requires Sound(cfg, sys) && cfg.Deadline(s.key.client, s.key.valueDate) == Ok(s.deadline)
    ensures Sound(cfg, sys.(rows := Upserted(sys.rows, s))) && RowsSurvive(sys.rows, Upserted(sys.rows, s))
  {
    if s.key in sys.rows {
      MergeSurvives(sys.rows[s.key], s);
    }
  }

  lemma ActKeepsRows(cfg: Config, sys: System, a: Action)
    requires Sound(cfg, sys)
    ensures Sound(cfg, Act(cfg, sys, a)) && RowsSurvive(sys.rows, Act(cfg, sys, a).rows)
  {
    if a.Write? {
      if a.w in sys.held {
        WriteKeepsRows(cfg, sys, sys.held[a.w].slot);
      }
    } else {
      OthersKeepRows(cfg, sys, a);
    }
  }

  lemma ChangeKeepsKey(h: Held, a: Action)
    ensures Changed(h, a).slot.key == h.slot.key && Changed(h, a).slot.deadline == h.slot.deadline
  {}

  lemma OthersKeepRows(cfg: Config, sys: System, a: Action)
    requires Sound(cfg, sys) && !a.Write?
    ensures Sound(cfg, Act(cfg, sys, a)) && Act(cfg, sys, a).rows == sys.rows
  {
    if a.w in sys.held {
      ChangeKeepsKey(sys.held[a.w], a);
    }
  }

  lemma {:induction false} RowsSurviveSoFar(cfg: Config, sys: System, actions: seq<Action>, n: nat)
    requires Sound(cfg, sys) && n <= |actions|
    ensures Sound(cfg, Played(cfg, sys, actions, n))
    ensures RowsSurvive(sys.rows, Played(cfg, sys, actions, n).rows)
  {
    if n > 0 {
      var before := Played(cfg, sys, actions, n - 1);
      RowsSurviveSoFar(cfg, sys, actions, n - 1);
      ActKeepsRows(cfg, before, actions[n - 1]);
      var end := Act(cfg, before, actions[n - 1]);
      forall k | k in sys.rows ensures k in end.rows && Survives(sys.rows[k], end.rows[k]) {
        assert Survives(before.rows[k], end.rows[k]);
      }
    }
  }

  lemma RowsSurviveEveryInterleaving(cfg: Config, sys: System, actions: seq<Action>)
    requires Sound(cfg, sys)
    ensures Sound(cfg, Play(cfg, sys, actions))
    ensures RowsSurvive(sys.rows, Play(cfg, sys, actions).rows)
  {
    RowsSurviveSoFar(cfg, sys, actions, |actions|);
  }

  // ---- the state column belongs to the last writer ----

  predicate Writes(sys: System, a: Action, k: Key) {
    a.Write? && a.w in sys.held && sys.held[a.w].deed != Reading && sys.held[a.w].slot.key == k
  }

  /** What was written last to a row among the first `n` actions. */
  function LastWritten(cfg: Config, sys: System, actions: seq<Action>, n: nat, k: Key): Option<Held>
    requires n <= |actions|
  {
    if n == 0 then None
    else
      var before := Played(cfg, sys, actions, n - 1);
      if Writes(before, actions[n - 1], k) then Some(before.held[actions[n - 1].w])
      else LastWritten(cfg, sys, actions, n - 1, k)
  }

  lemma ActWrites(cfg: Config, sys: System, a: Action, k: Key)
    ensures var rows := Act(cfg, sys, a).rows;
      if Writes(sys, a, k)
      then k in rows && rows[k].state == sys.held[a.w].slot.state
      else (k in rows <==> k in sys.rows) && (k in rows ==> rows[k] == sys.rows[k])
  {}

  /** Through any interleaving a row's state is what its last writer said. */
  lemma {:induction false} StateIsTheLastWriters(cfg: Config, sys: System, actions: seq<Action>, n: nat, k: Key)
    requires n <= |actions|
    ensures var rows, last := Played(cfg, sys, actions, n).rows, LastWritten(cfg, sys, actions, n, k);
      if last.Some? then k in rows && rows[k].state == last.value.slot.state
      else (k in rows <==> k in sys.rows) && (k in rows ==> rows[k] == sys.rows[k])
  {
    if n > 0 {
      StateIsTheLastWriters(cfg, sys, actions, n - 1, k);
      ActWrites(cfg, Played(cfg, sys, actions, n - 1), actions[n - 1], k);
    }
  }

  /** The machine's own steps; arrival ids are never blank. */
  ghost predicate ByTheMachine(actions: seq<Action>) {
    forall i | 0 <= i < |actions| :: IsMachineStep(actions[i])
  }

  predicate IsMachineStep(a: Action) {
    !a.Edit? && (a.Place? ==> a.a.id != "")
  }

  /** What the deed says of the slot it left in memory, whatever slot it was done to. */
  ghost predicate DeedTells(h: Held) {
    match h.deed
    case Reading => true
    case Placing => (h.slot.state == ASSIGNED <==> h.slot.Complete()) && (h.slot.side1 != "" || h.slot.side2 != "")
    case Marking => h.slot.state == MISSING
    case Stamping => h.slot.state == ASSIGNED
    case Editing => false
  }

  lemma ChangeTells(h: Held, a: Action)
    requires IsMachineStep(a) && h.deed == Reading
    ensures DeedTells(Changed(h, a))
  {}

  lemma {:induction false} DeedsTell(cfg: Config, actions: seq<Action>, n: nat, w: Worker)
    requires ByTheMachine(actions) && n <= |actions|
    ensures var sys := Played(cfg, EMPTY, actions, n); w in sys.held ==> DeedTells(sys.held[w])
  {
    if n > 0 {
      var before, a := Played(cfg, EMPTY, actions, n - 1), actions[n - 1];
      DeedsTell(cfg, actions, n - 1, w);
      if w in before.held && before.held[w].deed == Reading {
        ChangeTells(before.held[w], a);
      }
    }
  }

  const EMPTY := System(map[], map[])

  lemma {:induction false} LastWrittenTells(cfg: Config, actions: seq<Action>, n: nat, k: Key)
    requires ByTheMachine(actions) && n <= |actions| && LastWritten(cfg, EMPTY, actions, n, k).Some?
    ensures var h := LastWritten(cfg, EMPTY, actions, n, k).value; DeedTells(h) && h.deed != Reading
  {
    var before := Played(cfg, EMPTY, actions, n - 1);
    if Writes(before, actions[n - 1], k) {
      DeedsTell(cfg, actions, n - 1, actions[n - 1].w);
    } else {
      LastWrittenTells(cfg, actions, n - 1, k);
    }
  }

  /** The write was a sweep's mark, or an Apply that knew one side only. */
  predicate Unassigns(h: Held) {
    h.deed.Marking? || (h.deed.Placing? && !h.slot.Complete())
  }

  /** Any workers doing what the machine does, in any order, from an empty table: a complete
      row is un-assigned if and only if its last write was a sweep's mark or an Apply that
      knew one side only. */
  lemma CompleteIsUnassignedExactlyWhen(cfg: Config, actions: seq<Action>, k: Key)
    requires ByTheMachine(actions)
    requires var rows := Play(cfg, EMPTY, actions).rows; k in rows && rows[k].Complete()
    ensures var last := LastWritten(cfg, EMPTY, actions, |actions|, k);
      && last.Some?
      && (last.value.deed.Placing? ==> last.value.slot.side1 != "" || last.value.slot.side2 != "")
      && (Play(cfg, EMPTY, actions).rows[k].state != ASSIGNED <==> Unassigns(last.value))
  {
    StateIsTheLastWriters(cfg, EMPTY, actions, |actions|, k);
    LastWrittenTells(cfg, actions, |actions|, k);
  }

  // ---- two runs in which it happens ----

  lemma NextPlayed(cfg: Config, sys: System, run: seq<Action>, n: nat, before: System, after: System)
    requires n < |run| && Played(cfg, sys, run, n) == before && Act(cfg, before, run[n]) == after
    ensures Played(cfg, sys, run, n + 1) == after
  {}

  lemma ReadActs(cfg: Config, s: Slot, held: map<Worker, Held>, w: Worker)
    ensures Act(cfg, System(map[s.key := s], held), Read(w, s.key))
      == System(map[s.key := s], held[w := Held(s, Reading)])
  {}

  lemma ChangeActs(cfg: Config, rows: Rows, held: map<Worker, Held>, w: Worker, s: Slot, a: Action, h: Held)
    requires a.w == w && !a.Write? && !a.Read? && !a.Open? && Changed(Held(s, Reading), a) == h
    ensures Act(cfg, System(rows, held[w := Held(s, Reading)]), a) == System(rows, held[w := h])
  {
    assert held[w := Held(s, Reading)][w := h] == held[w := h];
  }

  lemma WriteActs(cfg: Config, s: Slot, t: Slot, held: map<Worker, Held>, w: Worker, deed: Deed)
    requires w in held && held[w] == Held(t, deed) && deed != Reading && t.key == s.key
    ensures Act(cfg, System(map[s.key := s], held), Write(w)) == System(map[s.key := Merge(s, t)], held)
  {
    assert Upserted(map[s.key := s], t) == map[s.key := Merge(s, t)];
  }

  /** A worker's read, its change and its write, on a table of one row. */
  lemma ThreePlayed(
    cfg: Config, sys: System, run: seq<Action>, n: nat, s: Slot, t: Slot, held: map<Worker, Held>, w: Worker,
    deed: Deed)
    requires n + 3 <= |run| && Played(cfg, sys, run, n) == System(map[s.key := s], held)
    requires run[n] == Read(w, s.key) && run[n + 2] == Write(w)
    requires var a := run[n + 1]; a.w == w && !a.Write? && !a.Read? && !a.Open?
    requires deed != Reading && Changed(Held(s, Reading), run[n + 1]) == Held(t, deed)
    requires t.key == s.key && Merge(s, t) == t
    ensures Played(cfg, sys, run, n + 3) == System(map[s.key := t], held[w := Held(t, deed)])
  {
    var rows, after := map[s.key := s], held[w := Held(t, deed)];
    ReadActs(cfg, s, held, w);
    ChangeActs(cfg, rows, held, w, s, run[n + 1], Held(t, deed));
    WriteActs(cfg, s, t, after, w, deed);
    NextPlayed(cfg, sys, run, n, System(rows, held), System(rows, held[w := Held(s, Reading)]));
    NextPlayed(cfg, sys, run, n + 1, System(rows, held[w := Held(s, Reading)]), System(rows, after));
    NextPlayed(cfg, sys, run, n + 2, System(rows, after), System(map[s.key := t], after));
  }

  function StaleSweepRun(k: Key, a: Arrival, berth: string, now: int): seq<Action> {
    [Read(1, k), Read(2, k), Place(2, a), Write(2), Read(3, k), Stamp(3, berth), Write(3), Mark(1, now), Write(1)]
  }

  /** The second side arrives on a PARTIAL row, and the assignment is stamped. */
  lemma SecondSide(s: Slot, t: Slot, u: Slot, a: Arrival, berth: string)
    requires s.state == PARTIAL && s.side1 != "" && s.side2 == "" && s.assignment == ""
    requires a.SlotKey() == s.key && a.side == SIDE_EXTERNAL_CLIENT && a.id != "" && berth != ""
    requires t == s.(state := ASSIGNED, side2 := a.id) && u == t.(assignment := berth)
    ensures Changed(Held(s, Reading), Place(2, a)) == Held(t, Placing) && Merge(s, t) == t
    ensures Changed(Held(t, Reading), Stamp(3, berth)) == Held(u, Stamping) && Merge(t, u) == u
    ensures Merge(u, s.(state := MISSING)) == u.(state := MISSING)
  {}

  lemma StaleSweepReads(cfg: Config, run: seq<Action>, s: Slot, t: Slot)
    requires |run| >= 4 && run[0] == Read(1, s.key) && run[1] == Read(2, s.key)
    requires run[2].w == 2 && run[2].Place? && run[3] == Write(2)
    requires Changed(Held(s, Reading), run[2]) == Held(t, Placing) && t.key == s.key && Merge(s, t) == t
    ensures Played(cfg, System(map[s.key := s], map[]), run, 4)
      == System(map[s.key := t], map[1 := Held(s, Reading), 2 := Held(t, Placing)])
  {
    var start, held := System(map[s.key := s], map[]), map[1 := Held(s, Reading)];
    ReadActs(cfg, s, map[], 1);
    NextPlayed(cfg, start, run, 0, start, System(start.rows, held));
    ThreePlayed(cfg, start, run, 1, s, t, held, 2, Placing);
  }

  lemma StaleSweepMarks(
    cfg: Config, start: System, run: seq<Action>, s: Slot, t: Slot, u: Slot, held: map<Worker, Held>, now: int)
    requires |run| == 9 && run[4] == Read(3, s.key) && run[5].w == 3 && run[5].Stamp? && run[6] == Write(3)
    requires run[7] == Mark(1, now) && run[8] == Write(1) && Due(s, now)
    requires Played(cfg, start, run, 4) == System(map[s.key := t], held) && 1 in held && held[1] == Held(s, Reading)
    requires Changed(Held(t, Reading), run[5]) == Held(u, Stamping) && Merge(t, u) == u
    requires t.key == s.key && u.key == s.key
    ensures Play(cfg, start, run).rows == map[s.key := Merge(u, s.(state := MISSING))]
  {
    ThreePlayed(cfg, start, run, 4, t, u, held, 3, Stamping);
    MarkAfter(cfg, start, run, s, u, held[3 := Held(u, Stamping)], now);
  }

  /** A sweep that read the row before its second side arrived turns a complete, ASSIGNED
      slot into MISSING. */
  lemma StaleSweepUnassigns(cfg: Config, s: Slot, a: Arrival, berth: string, now: int)
    requires s.deadline < now && s.state == PARTIAL && s.side1 != "" && s.side2 == "" && s.assignment == ""
    requires a.SlotKey() == s.key && a.side == SIDE_EXTERNAL_CLIENT && a.id != "" && berth != ""
    ensures var after := Play(cfg, System(map[s.key := s], map[]), StaleSweepRun(s.key, a, berth, now)).rows;
      s.key in after && after[s.key].state == MISSING && after[s.key].Complete() && after[s.key].assignment == berth
  {
    var t := s.(state := ASSIGNED, side2 := a.id);
    var u := t.(assignment := berth);
    SecondSide(s, t, u, a, berth);
    var run := StaleSweepRun(s.key, a, berth, now);
    StaleSweepReads(cfg, run, s, t);
    var held := map[1 := Held(s, Reading), 2 := Held(t, Placing)];
    StaleSweepMarks(cfg, System(map[s.key := s], map[]), run, s, t, u, held, now);
  }

  /** The sweep's turn comes, with the row as it read it. */
  lemma MarkAfter(
    cfg: Config, start: System, run: seq<Action>, s: Slot, u: Slot, held: map<Worker, Held>, now: int)
    requires |run| == 9 && run[7] == Mark(1, now) && run[8] == Write(1)
    requires Played(cfg, start, run, 7) == System(map[u.key := u], held) && u.key == s.key
    requires 1 in held && held[1] == Held(s, Reading) && Due(s, now)
    ensures Play(cfg, start, run).rows == map[s.key := Merge(u, s.(state := MISSING))]
  {
    var t := s.(state := MISSING);
    assert held[1 := Held(s, Reading)] == held;
    ChangeActs(cfg, map[u.key := u], held, 1, s, run[7], Held(t, Marking));
    WriteActs(cfg, u, t, held[1 := Held(t, Marking)], 1, Marking);
    var after := held[1 := Held(t, Marking)];
    NextPlayed(cfg, start, run, 7, System(map[u.key := u], held), System(map[u.key := u], after));
    NextPlayed(cfg, start, run, 8, System(map[u.key := u], after), System(map[u.key := Merge(u, t)], after));
  }

  /** What Apply stores for a first arrival. */
  function FirstSlot(a: Arrival, e: string, now: int, d: int): Slot {
    var s := Slot(a.SlotKey(), PARTIAL, e, "", "", "", now, d);
    if a.side == SIDE_INTERNAL_GL then s.(side1 := a.id) else s.(side2 := a.id)
  }

  lemma FirstIsPlaced(a: Arrival, e: string, now: int, d: int, w: Worker)
    requires a.side == SIDE_INTERNAL_GL || a.side == SIDE_EXTERNAL_CLIENT
    ensures Changed(Held(Slot(a.SlotKey(), OPEN, e, "", "", "", now, d), Reading), Place(w, a))
      == Held(FirstSlot(a, e, now, d), Placing)
  {}

  /** Two arrivals, one per side, both find no row. */
  lemma BothOpen(
    cfg: Config, run: seq<Action>, a: Arrival, b: Arrival, e: string, now: int, d: int, s: Slot, t: Slot)
    requires a.side == SIDE_INTERNAL_GL && b.side == SIDE_EXTERNAL_CLIENT && a.SlotKey() == b.SlotKey()
    requires cfg.Deadline(a.client, a.valueDate) == Ok(d) && |run| >= 4
    requires run[0] == Open(1, a.SlotKey(), e, now) && run[1] == Open(2, a.SlotKey(), e, now)
    requires run[2] == Place(1, a) && run[3] == Place(2, b)
    requires s == FirstSlot(a, e, now, d) && t == FirstSlot(b, e, now, d)
    ensures Played(cfg, EMPTY, run, 4) == System(map[], map[1 := Held(s, Placing), 2 := Held(t, Placing)])
  {
    var blank := Held(Slot(a.SlotKey(), OPEN, e, "", "", "", now, d), Reading);
    var one, two := System(map[], map[1 := blank]), System(map[], map[1 := blank, 2 := blank]);
    var three := System(map[], map[1 := Held(s, Placing), 2 := blank]);
    FirstIsPlaced(a, e, now, d, 1);
    FirstIsPlaced(b, e, now, d, 2);
    NextPlayed(cfg, EMPTY, run, 0, EMPTY, one);
    NextPlayed(cfg, EMPTY, run, 1, one, two);
    NextPlayed(cfg, EMPTY, run, 2, two, three);
    NextPlayed(cfg, EMPTY, run, 3, three, System(map[], map[1 := Held(s, Placing), 2 := Held(t, Placing)]));
  }

  /** Both store what they know, and the row has both sides and says PARTIAL. */
  lemma BothStore(cfg: Config, run: seq<Action>, s: Slot, t: Slot, held: map<Worker, Held>)
    requires |run| >= 6 && run[4] == Write(1) && run[5] == Write(2)
    requires held == map[1 := Held(s, Placing), 2 := Held(t, Placing)] && t.key == s.key
    requires Played(cfg, EMPTY, run, 4) == System(map[], held)
    ensures Played(cfg, EMPTY, run, 6) == System(map[s.key := Merge(s, t)], held)
  {
    NextPlayed(cfg, EMPTY, run, 4, System(map[], held), System(map[s.key := s], held));
    NextPlayed(cfg, EMPTY, run, 5, System(map[s.key := s], held), System(map[s.key := Merge(s, t)], held));
  }

  function RacingRun(k: Key, a: Arrival, b: Arrival, e: string, now: int, later: int): seq<Action> {
    [Open(1, k, e, now), Open(2, k, e, now), Place(1, a), Place(2, b), Write(1), Write(2),
     Read(3, k), Mark(3, later), Write(3)]
  }

  lemma RaceMerges(s: Slot, t: Slot, a: Arrival, b: Arrival, e: string, now: int, d: int, later: int)
    requires a.side == SIDE_INTERNAL_GL && b.side == SIDE_EXTERNAL_CLIENT && a.SlotKey() == b.SlotKey()
    requires a.id != "" && b.id != "" && d < later
    requires s == FirstSlot(a, e, now, d) && t == FirstSlot(b, e, now, d)
    ensures var u := Merge(s, t);
      && u.key == s.key && u.Complete() && u.state == PARTIAL && Due(u, later)
      && Changed(Held(u, Reading), Mark(3, later)) == Held(u.(state := MISSING), Marking)
      && Merge(u, u.(state := MISSING)) == u.(state := MISSING)
  {}

  lemma RaceAlong(
    cfg: Config, run: seq<Action>, a: Arrival, b: Arrival, e: string, now: int, d: int, later: int, s: Slot, t: Slot,
    u: Slot)
    requires a.side == SIDE_INTERNAL_GL && b.side == SIDE_EXTERNAL_CLIENT && a.SlotKey() == b.SlotKey()
    requires cfg.Deadline(a.client, a.valueDate) == Ok(d) && run == RacingRun(a.SlotKey(), a, b, e, now, later)
    requires s == FirstSlot(a, e, now, d) && t == FirstSlot(b, e, now, d)
    requires u == Merge(s, t) && u.key == s.key && Due(u, later)
    requires Changed(Held(u, Reading), Mark(3, later)) == Held(u.(state := MISSING), Marking)
    requires Merge(u, u.(state := MISSING)) == u.(state := MISSING)
    ensures Play(cfg, EMPTY, run).rows == map[s.key := u.(state := MISSING)]
    ensures LastWritten(cfg, EMPTY, run, |run|, s.key) == Some(Held(u.(state := MISSING), Marking))
  {
    var held := map[1 := Held(s, Placing), 2 := Held(t, Placing)];
    BothOpen(cfg, run, a, b, e, now, d, s, t);
    BothStore(cfg, run, s, t, held);
    ThreePlayed(cfg, EMPTY, run, 6, u, u.(state := MISSING), held, 3, Marking);
    MarkedLast(cfg, run, u, held, later);
  }

  /** A sweep that has seen both sides un-assigns too: two first arrivals race, each stores
      PARTIAL, and past the deadline the complete row is listed and marked. */
  lemma SweepOfACompleteRowUnassigns(cfg: Config, a: Arrival, b: Arrival, e: string, now: int, d: int, later: int)
    requires a.side == SIDE_INTERNAL_GL && b.side == SIDE_EXTERNAL_CLIENT && a.SlotKey() == b.SlotKey()
    requires a.id != "" && b.id != "" && cfg.Deadline(a.client, a.valueDate) == Ok(d) && d < later
    ensures
      var k, run := a.SlotKey(), RacingRun(a.SlotKey(), a, b, e, now, later);
      var rows, last := Play(cfg, EMPTY, run).rows, LastWritten(cfg, EMPTY, run, |run|, k);
      && ByTheMachine(run) && k in rows && rows[k].Complete() && rows[k].state == MISSING
      && last.Some? && last.value.slot.Complete()
  {
    var s, t := FirstSlot(a, e, now, d), FirstSlot(b, e, now, d);
    RaceMerges(s, t, a, b, e, now, d, later);
    RaceAlong(cfg, RacingRun(a.SlotKey(), a, b, e, now, later), a, b, e, now, d, later, s, t, Merge(s, t));
  }

  lemma MarkedLast(cfg: Config, run: seq<Action>, u: Slot, held: map<Worker, Held>, later: int)
    requires |run| == 9 && run[6] == Read(3, u.key) && run[7] == Mark(3, later) && run[8] == Write(3) && Due(u, later)
    requires Played(cfg, EMPTY, run, 6) == System(map[u.key := u], held)
    ensures LastWritten(cfg, EMPTY, run, 9, u.key) == Some(Held(u.(state := MISSING), Marking))
  {
    var before := System(map[u.key := u], held);
    var read, marked := Holding(before, 3, Held(u, Reading)), Holding(before, 3, Held(u.(state := MISSING), Marking));
    NextPlayed(cfg, EMPTY, run, 6, before, read);
    NextPlayed(cfg, EMPTY, run, 7, read, marked);
  }
}
