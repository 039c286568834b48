/** What the bus's redelivery makes good (go/internal/bus/franz.go, Consume, and
    go/cmd/berthmaster/main.go, handle): a message whose handler broke off comes again,
    perhaps much later, and is handled without a break. */
module Redelivery {
  import opened Basics
  import opened Slots
  import opened Berthmaster
  import opened Interruptions
  import opened Alerts

  predicate Accepted(cfg: Config, a: Arrival, t: int) {
    cfg.Accepts(a.client, a.valueDate, t) == Ok(true)
  }

  /** Handled, broken off at `f`, and handled again at `later`. */
  function Redelivered(
    cfg: Config, w: World, m: Message, now: int, id: string, f: HandlerFault, later: int, id2: string): World
  {
    Handled(cfg, Handled(cfg, w, m, now, id, f), m, later, id2, HandlerFault.Never)
  }

  /** The world one handling at `now`, without a break, would have left. */
  ghost predicate AsOnce(cfg: Config, w: World, m: Message, now: int, end: World) {
    exists x :: x != "" && end == Handled(cfg, w, m, now, x, HandlerFault.Never)
  }

  /** Of all that can refuse an arrival only the window depends on the time. */
  lemma AcceptedIsApplied(cfg: Config, rows: Rows, after: Rows, a: Arrival, now: int, later: int)
    requires Applied(cfg, rows, a, now).Ok?
    ensures Applied(cfg, after, a, later).Ok? <==> Accepted(cfg, a, later)
    ensures !Accepted(cfg, a, later) ==> Applied(cfg, after, a, later) == Err(OutsideWindow)
  {}

  // ---- arrivals that complete their slot ----

  /** The break comes before the first message the arrival calls for. */
  predicate BeforePublishing(o: Outcome, f: HandlerFault) {
    f.AtStore? || f.AtAudit? || (if o.supersedes != "" then f.AtVoid? else f.AtAssigned?)
  }

  /** Nothing is left to do: at most the last audit entry is missing. */
  predicate Finished(o: Outcome, f: HandlerFault) {
    !f.AtStore? && !f.AtAudit? && Stamps(o, f)
  }

  /** Applying the same arrival again to the slot it completed. */
  lemma PlacedTwice(s: Slot, a: Arrival, id: string)
    requires Placed(s, a).Ok? && Placed(s, a).value.assign && a.id != ""
    ensures var t := Placed(s, a).value.slot.(assignment := id);
      && Placed(t, a).Ok? && Placed(t, a).value.slot == t
      && Placed(t, a).value.assign && Placed(t, a).value.supersedes == id
  {}

  lemma LocatedAgain(cfg: Config, rows: Rows, after: Rows, a: Arrival, now: int, t: Slot)
    requires Located(cfg, rows, a, now).Ok? && a.SlotKey() in after && after[a.SlotKey()] == t
    ensures Located(cfg, after, a, now) == Ok(t)
  {}

  /** A handling that runs through. */
  lemma HandledThrough(cfg: Config, w: World, m: Message, now: int, id: string)
    requires m.dispatched && Applied(cfg, w.rows, m.arrival, now).Ok?
    ensures Handled(cfg, w, m, now, id, HandlerFault.Never)
      == Carried(w, Applied(cfg, w.rows, m.arrival, now).value, m.arrival, id)
  {
    CarriedWhole(w, Applied(cfg, w.rows, m.arrival, now).value, m.arrival, id, HandlerFault.Never);
  }

  /** The retry of an arrival that completed its slot: what it supersedes is the
      assignment `x` the slot carries by then. */
  lemma RetryCarries(
    cfg: Config, rows: Rows, o: Outcome, m: Message, now: int, id: string, broken: World, x: string, s: Slot)
    requires Located(cfg, rows, m.arrival, now).Ok? && Placed(s, m.arrival) == Ok(o) && o.assign
    requires m.dispatched && m.arrival.id != "" && id != "" && o.slot.key == m.arrival.SlotKey()
    requires broken.rows == rows[o.slot.key := o.slot.(assignment := x)]
    ensures var again := o.(slot := o.slot.(assignment := x), supersedes := x);
      Handled(cfg, broken, m, now, id, HandlerFault.Never)
        == World(rows[o.slot.key := o.slot.(assignment := id)], broken.log + Instructions(again, m.arrival, id))
  {
    var t := o.slot.(assignment := x);
    PlacedTwice(s, m.arrival, x);
    LocatedAgain(cfg, rows, broken.rows, m.arrival, now, t);
    HandledThrough(cfg, broken, m, now, id);
    MergeKeepsPlaced(t, m.arrival, id);
    CarriedAgain(rows, o, m.arrival, id, broken, x, Placed(t, m.arrival).value);
  }

  lemma CarriedAgain(rows: Rows, o: Outcome, a: Arrival, id: string, broken: World, x: string, again: Outcome)
    requires again.assign && again.slot == o.slot.(assignment := x) && again.supersedes == x
    requires broken.rows == rows[o.slot.key := again.slot] && o.slot.state == ASSIGNED
    requires Merge(again.slot, again.slot) == again.slot
    requires Merge(again.slot, again.slot.(assignment := id)) == again.slot.(assignment := id)
    ensures Carried(broken, again, a, id)
      == World(rows[o.slot.key := o.slot.(assignment := id)],
               broken.log + Instructions(o.(slot := o.slot.(assignment := x), supersedes := x), a, id))
  {}

  /** What one handling without a break leaves. */
  function Clean(w: World, o: Outcome, a: Arrival, x: string): World {
    World(w.rows[o.slot.key := o.slot.(assignment := x)], w.log + Instructions(o, a, x))
  }

  lemma HandledIsClean(cfg: Config, w: World, s: Slot, o: Outcome, m: Message, now: int, x: string)
    requires IsLocated(cfg, w.rows, m.arrival, s) && s.key in w.rows && Placed(s, m.arrival) == Ok(o) && o.assign
    requires m.dispatched && m.arrival.id != "" && x != "" && Located(cfg, w.rows, m.arrival, now).Ok?
    ensures Handled(cfg, w, m, now, x, HandlerFault.Never) == Clean(w, o, m.arrival, x)
  {
    LocatedAgain(cfg, w.rows, w.rows, m.arrival, now, s);
    HandledThrough(cfg, w, m, now, x);
    CarriedRows(cfg, w, s, m.arrival, x);
  }

  /** How many messages are out when the handler breaks off. */
  function SentBefore(o: Outcome, f: HandlerFault): nat {
    if f.AtStore? || f.AtAudit? then 0 else Published(o, f)
  }

  /** The assignment id the slot carries when the handler breaks off. */
  function CarriedId(s: Slot, o: Outcome, id: string, f: HandlerFault): string {
    if Finished(o, f) then id else s.assignment
  }

  lemma BrokenWorld(cfg: Config, w: World, s: Slot, o: Outcome, m: Message, now: int, id: string, f: HandlerFault)
    requires IsLocated(cfg, w.rows, m.arrival, s) && Placed(s, m.arrival) == Ok(o) && o.assign && Moves(s, o)
    requires m.dispatched && m.arrival.id != "" && id != "" && !f.AtStore?
    requires Located(cfg, w.rows, m.arrival, now) == Ok(s)
    ensures Handled(cfg, w, m, now, id, f)
      == World(w.rows[o.slot.key := o.slot.(assignment := CarriedId(s, o, id, f))],
               w.log + Instructions(o, m.arrival, id)[..SentBefore(o, f)])
  {
    CarriedRowsUpTo(cfg, w, s, m.arrival, id, f);
    assert o.slot.(assignment := s.assignment) == o.slot;
    assert w.log + Instructions(o, m.arrival, id)[..0] == w.log;
  }

  /** A retry that is let in adds a full set of messages to those already out. */
  lemma RetryIsClean(
    w: World, o: Outcome, a: Arrival, id: string, f: HandlerFault, x: string, id2: string, y: string)
    requires o.supersedes != "" ==> x != ""
    requires x == o.supersedes || SentBefore(o, f) > 0
    ensures var again := o.(slot := o.slot.(assignment := x), supersedes := x);
      var log := w.log + Instructions(o, a, id)[..SentBefore(o, f)] + Instructions(again, a, id2);
      && (SentBefore(o, f) == 0 ==> log == w.log + Instructions(o, a, id2))
      && (SentBefore(o, f) > 0 ==> log != w.log + Instructions(o, a, y))
  {
    var n, again := SentBefore(o, f), o.(slot := o.slot.(assignment := x), supersedes := x);
    var es := Instructions(o, a, id)[..n];
    assert |Instructions(again, a, id2)| >= |Instructions(o, a, id2)| == |Instructions(o, a, y)|;
    if n == 0 {
      assert w.log + es == w.log;
    } else {
      assert |w.log + es + Instructions(again, a, id2)| > |w.log + Instructions(o, a, y)|;
    }
  }

  lemma CleanIsLonger(w: World, o: Outcome, a: Arrival, id: string, n: nat, x: string)
    requires n < |Instructions(o, a, id)|
    ensures w.log + Instructions(o, a, id)[..n] != w.log + Instructions(o, a, x)
  {
    assert |Instructions(o, a, id)| == |Instructions(o, a, x)|;
    assert |w.log + Instructions(o, a, id)[..n]| < |w.log + Instructions(o, a, x)|;
  }

  lemma SameInstructionsSameId(log: seq<Event>, o: Outcome, a: Arrival, id: string, x: string)
    requires log + Instructions(o, a, id) == log + Instructions(o, a, x)
    ensures id == x
  {
    var m, n := log + Instructions(o, a, id), log + Instructions(o, a, x);
    assert IdOf(m[|m| - 1]) == id && IdOf(n[|n| - 1]) == x;
  }

  /** A retry that is let in. */
  lemma LateRetryAccepted(
    cfg: Config, w: World, s: Slot, o: Outcome, m: Message, now: int, id: string, f: HandlerFault, later: int,
    id2: string)
    requires IsLocated(cfg, w.rows, m.arrival, s) && s.key in w.rows && Placed(s, m.arrival) == Ok(o)
    requires o.assign && Moves(s, o) && m.dispatched && m.arrival.id != "" && id != "" && id2 != ""
    requires Located(cfg, w.rows, m.arrival, now) == Ok(s) && Located(cfg, w.rows, m.arrival, later).Ok?
    ensures AsOnce(cfg, w, m, now, Redelivered(cfg, w, m, now, id, f, later, id2)) <==> BeforePublishing(o, f)
  {
    var a, end := m.arrival, Redelivered(cfg, w, m, now, id, f, later, id2);
    HandledIsClean(cfg, w, s, o, m, now, id2);
    if f.AtStore? {
      HandledIsClean(cfg, w, s, o, m, later, id2);
    } else {
      var broken, x := Handled(cfg, w, m, now, id, f), CarriedId(s, o, id, f);
      BrokenWorld(cfg, w, s, o, m, now, id, f);
      RetryCarries(cfg, w.rows, o, m, later, id2, broken, x, s);
      RetryIsClean(w, o, a, id, f, x, id2, id2);
      forall y | y != "" && !BeforePublishing(o, f) ensures end != Handled(cfg, w, m, now, y, HandlerFault.Never) {
        HandledIsClean(cfg, w, s, o, m, now, y);
        RetryIsClean(w, o, a, id, f, x, id2, y);
      }
    }
  }

  /** A retry that is refused leaves the broken handler's work as it is. */
  lemma LateRetryRefused(
    cfg: Config, w: World, s: Slot, o: Outcome, m: Message, now: int, id: string, f: HandlerFault, later: int,
    id2: string)
    requires IsLocated(cfg, w.rows, m.arrival, s) && s.key in w.rows && Placed(s, m.arrival) == Ok(o)
    requires o.assign && Moves(s, o) && m.dispatched && m.arrival.id != "" && id != "" && s.assignment != id
    requires Located(cfg, w.rows, m.arrival, now) == Ok(s)
    requires forall rows :: Applied(cfg, rows, m.arrival, later).Err?
    ensures AsOnce(cfg, w, m, now, Redelivered(cfg, w, m, now, id, f, later, id2)) <==> Finished(o, f)
  {
    var a, broken := m.arrival, Handled(cfg, w, m, now, id, f);
    assert Redelivered(cfg, w, m, now, id, f, later, id2) == broken;
    if f.AtStore? {
      assert w.log == w.log + Instructions(o, a, id)[..0];
    } else {
      BrokenWorld(cfg, w, s, o, m, now, id, f);
    }
    if Finished(o, f) {
      HandledIsClean(cfg, w, s, o, m, now, id);
      assert Instructions(o, a, id)[..SentBefore(o, f)] == Instructions(o, a, id);
    } else {
      forall y | y != "" ensures broken != Handled(cfg, w, m, now, y, HandlerFault.Never) {
        HandledIsClean(cfg, w, s, o, m, now, y);
        UnfinishedIsNotClean(w, s, o, a, id, f, broken, y);
      }
    }
  }

  lemma UnfinishedIsNotClean(
    w: World, s: Slot, o: Outcome, a: Arrival, id: string, f: HandlerFault, broken: World, y: string)
    requires !Finished(o, f) && s.assignment != id && o.slot.assignment == s.assignment
    requires broken.log == w.log + Instructions(o, a, id)[..SentBefore(o, f)]
    requires !f.AtStore? ==> o.slot.key in broken.rows && broken.rows[o.slot.key].assignment == s.assignment
    ensures broken != Clean(w, o, a, y)
  {
    var n := SentBefore(o, f);
    if n < |Instructions(o, a, id)| {
      CleanIsLonger(w, o, a, id, n, y);
    } else if broken.log == Clean(w, o, a, y).log {
      assert Instructions(o, a, id)[..n] == Instructions(o, a, id);
      SameInstructionsSameId(w.log, o, a, id, y);
    }
  }

  /** A message whose handler broke off on an arrival that completes its slot, redelivered:
      the outcome is that of handling it once if and only if, the date being still
      accepted, nothing had been published, or, the date being no longer accepted,
      everything had been done. */
  lemma RedeliveryIsAsOnceExactlyWhen(
    cfg: Config, w: World, lost: set<string>, m: Message, now: int, id: string, f: HandlerFault, later: int,
    id2: string)
    requires Traced(cfg, w, lost) && StepOk(w, HandleStep(m, now, id, f)) && m.dispatched && id2 != ""
    requires Applied(cfg, w.rows, m.arrival, now).Ok? && Applied(cfg, w.rows, m.arrival, now).value.assign
    ensures var o := Applied(cfg, w.rows, m.arrival, now).value;
      AsOnce(cfg, w, m, now, Redelivered(cfg, w, m, now, id, f, later, id2)) <==>
        if Accepted(cfg, m.arrival, later) then BeforePublishing(o, f) else Finished(o, f)
  {
    var a := m.arrival;
    var s := Located(cfg, w.rows, a, now).value;
    var o := Placed(s, a).value;
    LocatedSlot(cfg, w.rows, a, now);
    PlacedMoves(s, a, w.log, lost);
    AcceptedIsApplied(cfg, w.rows, w.rows, a, now, later);
    if Accepted(cfg, a, later) {
      LateRetryAccepted(cfg, w, s, o, m, now, id, f, later, id2);
    } else {
      forall rows ensures Applied(cfg, rows, a, later).Err? {
        AcceptedIsApplied(cfg, w.rows, rows, a, now, later);
      }
      NewIdIsNotCarried(cfg, w, lost, s, id);
      LateRetryRefused(cfg, w, s, o, m, now, id, f, later, id2);
    }
  }

  lemma NewIdIsNotCarried(cfg: Config, w: World, lost: set<string>, s: Slot, id: string)
    requires RowTraced(s, w.log, lost) && id != "" && !Issued(w.log, id)
    ensures s.assignment != id
  {
    if s.assignment != "" {
      IssuedForIsIssued(w.log, s.assignment, s.key);
    }
  }

  // ---- arrivals that leave their slot incomplete ----

  /** The same but for when a slot was opened. */
  ghost predicate SameButOpening(u: World, v: World) {
    && u.log == v.log && u.rows.Keys == v.rows.Keys
    && forall k | k in u.rows :: u.rows[k].(openedAt := 0) == v.rows[k].(openedAt := 0)
  }

  lemma PlacedAgain(s: Slot, a: Arrival)
    requires Placed(s, a).Ok? && !Placed(s, a).value.assign && a.id != ""
    ensures var t := Placed(s, a).value.slot;
      Placed(t, a).Ok? && Placed(t, a).value.slot == t && !Placed(t, a).value.assign && Merge(t, t) == t
  {}

  /** Storing what is stored already. */
  lemma FillingTwice(cfg: Config, w: World, m: Message, now: int, later: int, id: string)
    requires m.dispatched && m.arrival.id != "" && id != ""
    requires Applied(cfg, w.rows, m.arrival, now).Ok? && !Applied(cfg, w.rows, m.arrival, now).value.assign
    requires DeadlinesFixed(cfg, w.rows)
    ensures var once := World(Upserted(w.rows, Applied(cfg, w.rows, m.arrival, now).value.slot), w.log);
      Handled(cfg, once, m, later, id, HandlerFault.Never) == once
  {
    var a := m.arrival;
    var s := Located(cfg, w.rows, a, now).value;
    var t := Placed(s, a).value.slot;
    var once := World(Upserted(w.rows, t), w.log);
    LocatedSlot(cfg, w.rows, a, now);
    PlacedAgain(s, a);
    CarriedRowsUpTo(cfg, w, s, a, id, AtAudit);
    AcceptedIsApplied(cfg, w.rows, once.rows, a, now, later);
    if Accepted(cfg, a, later) {
      LocatedAgain(cfg, once.rows, once.rows, a, later, t);
      HandledThrough(cfg, once, m, later, id);
    }
  }

  /** Storing it now or later. */
  lemma FillingLater(cfg: Config, w: World, m: Message, now: int, later: int, id: string)
    requires m.dispatched && Applied(cfg, w.rows, m.arrival, now).Ok?
    requires !Applied(cfg, w.rows, m.arrival, now).value.assign && Accepted(cfg, m.arrival, later)
    ensures SameButOpening(
      Handled(cfg, w, m, later, id, HandlerFault.Never), Handled(cfg, w, m, now, id, HandlerFault.Never))
  {
    AcceptedIsApplied(cfg, w.rows, w.rows, m.arrival, now, later);
    HandledThrough(cfg, w, m, now, id);
    HandledThrough(cfg, w, m, later, id);
  }

  /** An arrival that leaves its slot incomplete, redelivered: the outcome is that of
      handling it once, but for when a new slot was opened, if and only if it was stored
      the first time, is still accepted, or has nothing to change. */
  lemma FillingIsAsOnceExactlyWhen(
    cfg: Config, w: World, m: Message, now: int, id: string, f: HandlerFault, later: int, id2: string)
    requires DeadlinesFixed(cfg, w.rows) && m.dispatched && m.arrival.id != "" && id != "" && id2 != ""
    requires Applied(cfg, w.rows, m.arrival, now).Ok? && !Applied(cfg, w.rows, m.arrival, now).value.assign
    ensures var t := Applied(cfg, w.rows, m.arrival, now).value.slot;
      SameButOpening(Redelivered(cfg, w, m, now, id, f, later, id2), Handled(cfg, w, m, now, id, HandlerFault.Never))
      <==> !f.AtStore? || Accepted(cfg, m.arrival, later) || (t.key in w.rows && w.rows[t.key] == t)
  {
    var a := m.arrival;
    var t := Applied(cfg, w.rows, a, now).value.slot;
    var once := World(Upserted(w.rows, t), w.log);
    HandledThrough(cfg, w, m, now, id);
    if !f.AtStore? {
      FillingTwice(cfg, w, m, now, later, id2);
    } else if Accepted(cfg, a, later) {
      FillingLater(cfg, w, m, now, later, id2);
      HandledThrough(cfg, w, m, now, id2);
    } else {
      AcceptedIsApplied(cfg, w.rows, w.rows, a, now, later);
      UnstoredIsTheSame(cfg, w, Located(cfg, w.rows, a, now).value, a, now, id);
    }
  }

  lemma UnstoredIsTheSame(cfg: Config, w: World, s: Slot, a: Arrival, now: int, id: string)
    requires DeadlinesFixed(cfg, w.rows) && Located(cfg, w.rows, a, now) == Ok(s) && Placed(s, a).Ok?
    requires a.id != "" && id != ""
    ensures var t := Placed(s, a).value.slot;
      SameButOpening(w, World(Upserted(w.rows, t), w.log)) <==> t.key in w.rows && w.rows[t.key] == t
  {
    LocatedSlot(cfg, w.rows, a, now);
    CarriedRowsUpTo(cfg, w, s, a, id, AtAudit);
    var t := Placed(s, a).value.slot;
    var after := World(Upserted(w.rows, t), w.log);
    assert after.rows == w.rows[s.key := t];
    if SameButOpening(w, after) {
      assert s.key in w.rows && w.rows[s.key].(openedAt := 0) == after.rows[s.key].(openedAt := 0);
    }
  }

  /** An arrival that is refused, redelivered: the outcome is that of handling it once if
      and only if it is refused again or has nothing to change. */
  lemma RefusedIsAsOnceExactlyWhen(
    cfg: Config, w: World, m: Message, now: int, id: string, f: HandlerFault, later: int, id2: string)
    requires DeadlinesFixed(cfg, w.rows) && m.dispatched && m.arrival.id != "" && id2 != ""
    requires Applied(cfg, w.rows, m.arrival, now).Err?
    ensures var again := Applied(cfg, w.rows, m.arrival, later);
      Redelivered(cfg, w, m, now, id, f, later, id2) == Handled(cfg, w, m, now, id, HandlerFault.Never) <==>
        again.Err? || (!again.value.assign && Row(w.rows, m.arrival.SlotKey()) == Some(again.value.slot))
  {
    var again := Applied(cfg, w.rows, m.arrival, later);
    if again.Ok? {
      LocatedSlot(cfg, w.rows, m.arrival, later);
      HandledThrough(cfg, w, m, later, id2);
      CarriedRowsUpTo(cfg, w, Located(cfg, w.rows, m.arrival, later).value, m.arrival, id2, AtAudit);
      assert |w.log + Instructions(again.value, m.arrival, id2)| > |w.log|;
    }
  }

  // ---- the failing input ----

  /** The broken handler has stored the completed slot and published nothing; by the retry
      the deadline day is over. The retry is refused without an error, the row says ASSIGNED
      and shows the arrival, and nobody has been told. */
  lemma LateRetryStrandsTheSlot(
    cfg: Config, w: World, lost: set<string>, m: Message, now: int, id: string, f: HandlerFault, later: int,
    id2: string)
    requires Traced(cfg, w, lost) && StepOk(w, HandleStep(m, now, id, f)) && m.dispatched && id2 != ""
    requires Applied(cfg, w.rows, m.arrival, now).Ok? && Applied(cfg, w.rows, m.arrival, now).value.assign
    requires BeforePublishing(Applied(cfg, w.rows, m.arrival, now).value, f) && !f.AtStore?
    requires later >= cfg.Deadline(m.arrival.client, m.arrival.valueDate).value + MINUTE
    ensures var k, t := m.arrival.SlotKey(), Applied(cfg, w.rows, m.arrival, now).value.slot;
      var end := Redelivered(cfg, w, m, now, id, f, later, id2);
      && end.log == w.log && end == Handled(cfg, w, m, now, id, f)
      && k in end.rows && end.rows[k].state == ASSIGNED && end.rows[k].side1 == t.side1 && end.rows[k].side2 == t.side2
      && HandlerFails(cfg, w.rows, m, now, f) && !HandlerFails(cfg, end.rows, m, later, HandlerFault.Never)
      && !AsOnce(cfg, w, m, now, end)
      && (LastSides(w.log, k) != Some(Sides(t)) ==> Unannounced(end, k))
  {
    var a := m.arrival;
    StoredAndUntold(cfg, w, lost, m, now, id, f);
    AcceptedIsApplied(cfg, w.rows, w.rows, a, now, later);
    ClosedAfterTheDeadlineDay(cfg, w.rows, a, later);
    ClosedAfterTheDeadlineDay(cfg, Handled(cfg, w, m, now, id, f).rows, a, later);
    RedeliveryIsAsOnceExactlyWhen(cfg, w, lost, m, now, id, f, later, id2);
  }

  lemma StoredAndUntold(cfg: Config, w: World, lost: set<string>, m: Message, now: int, id: string, f: HandlerFault)
    requires Traced(cfg, w, lost) && StepOk(w, HandleStep(m, now, id, f)) && m.dispatched
    requires Applied(cfg, w.rows, m.arrival, now).Ok? && Applied(cfg, w.rows, m.arrival, now).value.assign
    requires BeforePublishing(Applied(cfg, w.rows, m.arrival, now).value, f) && !f.AtStore?
    ensures var t, broken := Applied(cfg, w.rows, m.arrival, now).value.slot, Handled(cfg, w, m, now, id, f);
      && t.key == m.arrival.SlotKey() && broken == World(w.rows[t.key := t], w.log) && t.state == ASSIGNED
      && HandlerFails(cfg, w.rows, m, now, f)
  {
    var s := Located(cfg, w.rows, m.arrival, now).value;
    var o := Placed(s, m.arrival).value;
    LocatedSlot(cfg, w.rows, m.arrival, now);
    PlacedMoves(s, m.arrival, w.log, lost);
    BrokenWorld(cfg, w, s, o, m, now, id, f);
    NothingSent(w, s, o, m.arrival, id, f);
  }

  lemma NothingSent(w: World, s: Slot, o: Outcome, a: Arrival, id: string, f: HandlerFault)
    requires BeforePublishing(o, f) && !f.AtStore? && o.slot.assignment == s.assignment
    ensures o.slot.(assignment := CarriedId(s, o, id, f)) == o.slot
    ensures w.log + Instructions(o, a, id)[..SentBefore(o, f)] == w.log
  {}

  // ---- over whole runs: sides a slot shows and nobody was told ----

  /** The sides of the last assignment published for a slot. */
  function LastSides(log: seq<Event>, k: Key): Option<(string, string)> {
    if log == [] then None
    else
      var e := log[|log| - 1];
      if e.Assigned? && e.key == k then Some((e.side1, e.side2)) else LastSides(log[..|log| - 1], k)
  }

  function Sides(s: Slot): (string, string) {
    (s.side1, s.side2)
  }

  /** The slot is ASSIGNED with sides that no assignment, or not the last, names. */
  ghost predicate Unannounced(w: World, k: Key) {
    k in w.rows && w.rows[k].state == ASSIGNED && LastSides(w.log, k) != Some(Sides(w.rows[k]))
  }

  /** The last handler that stored a completing arrival for a slot: the sides it stored,
      and whether it went on to publish them. */
  datatype Completion = Completion(sides: (string, string), published: bool)

  predicate Tells(o: Outcome, f: HandlerFault) {
    !f.AtAudit? && !f.AtAssigned? && !(f.AtVoid? && o.supersedes != "")
  }

  function CompletionOf(cfg: Config, w: World, s: Step): Option<Completion> {
    if s.SweepStep? || !s.m.dispatched || s.failure.AtStore? then None
    else
      match Applied(cfg, w.rows, s.m.arrival, s.now)
      case Err(_) => None
      case Ok(o) => if o.assign then Some(Completion(Sides(o.slot), Tells(o, s.failure))) else None
  }

  function LastCompletion(cfg: Config, steps: seq<Step>, k: Key): Option<Completion> {
    if steps == [] then None
    else
      var before, step := steps[..|steps| - 1], steps[|steps| - 1];
      var c := CompletionOf(cfg, Run(cfg, before), step);
      if c.Some? && step.m.arrival.SlotKey() == k then c else LastCompletion(cfg, before, k)
  }

  /** The sides of the last of these that was published. */
  function LastTold(cfg: Config, steps: seq<Step>, k: Key): Option<(string, string)> {
    if steps == [] then None
    else
      var before, step := steps[..|steps| - 1], steps[|steps| - 1];
      var c := CompletionOf(cfg, Run(cfg, before), step);
      if c.Some? && step.m.arrival.SlotKey() == k && c.value.published then Some(c.value.sides)
      else LastTold(cfg, before, k)
  }

  /** A row is ASSIGNED exactly when complete, whatever breaks off where. */
  ghost predicate Settled(rows: Rows) {
    forall k | k in rows :: rows[k].state == ASSIGNED <==> rows[k].Complete()
  }

  lemma {:induction false} LastSidesSplits(log: seq<Event>, more: seq<Event>, k: Key)
    ensures LastSides(log + more, k) == if LastSides(more, k).Some? then LastSides(more, k) else LastSides(log, k)
  {
    if more == [] {
      assert log + more == log;
    } else {
      var all := log + more;
      assert all[..|all| - 1] == log + more[..|more| - 1];
      LastSidesSplits(log, more[..|more| - 1], k);
    }
  }

  lemma {:induction false} NobodyToldNoSides(es: seq<Event>, k: Key)
    requires forall i | 0 <= i < |es| :: !es[i].Assigned? || es[i].key != k
    ensures LastSides(es, k) == None
  {
    if es != [] {
      NobodyToldNoSides(es[..|es| - 1], k);
    }
  }

  lemma PublishedSides(o: Outcome, a: Arrival, id: string, f: HandlerFault, k: Key)
    requires !f.AtAudit?
    ensures LastSides(Instructions(o, a, id)[..Published(o, f)], k)
      == if Tells(o, f) && k == o.slot.key then Some(Sides(o.slot)) else None
  {
    var all := Instructions(o, a, id);
    var es := all[..Published(o, f)];
    if Tells(o, f) && k == o.slot.key {
      assert es == all;
    } else {
      NobodyToldNoSides(es, k);
    }
  }

  /** One slot across one step: a completing handler that stores settles what it shows and
      perhaps what was told; nothing else touches an ASSIGNED row or tells anybody. */
  lemma StepShows(cfg: Config, w: World, step: Step, k: Key)
    requires DeadlinesFixed(cfg, w.rows) && Settled(w.rows) && StepOk(w, step)
    ensures var w', c := After(cfg, w, step), CompletionOf(cfg, w, step);
      && Settled(w'.rows)
      && (if c.Some? && step.m.arrival.SlotKey() == k then
            && k in w'.rows && w'.rows[k].state == ASSIGNED && Sides(w'.rows[k]) == c.value.sides
            && LastSides(w'.log, k) == if c.value.published then Some(c.value.sides) else LastSides(w.log, k)
          else ShowsTheSame(w, w', k))
  {
    match step {
      case SweepStep(now, due, f) => SweepShows(w, now, due, f, k);
      case HandleStep(m, now, id, f) =>
        if m.dispatched && Applied(cfg, w.rows, m.arrival, now).Ok? && !f.AtStore? {
          LocatedSlot(cfg, w.rows, m.arrival, now);
          CarryShows(cfg, w, Located(cfg, w.rows, m.arrival, now).value, m.arrival, id, f, k);
        }
    }
  }

  /** What the slot shows if it is ASSIGNED, and what was told last. */
  ghost predicate ShowsTheSame(w: World, w': World, k: Key) {
    && (k in w.rows && w.rows[k].state == ASSIGNED ==> k in w'.rows && w'.rows[k] == w.rows[k])
    && (k in w'.rows && w'.rows[k].state == ASSIGNED ==> k in w.rows && w'.rows[k] == w.rows[k])
    && LastSides(w'.log, k) == LastSides(w.log, k)
  }

  lemma SweepShows(w: World, now: int, due: seq<Slot>, f: SweepFault, k: Key)
    requires Settled(w.rows) && IsDueList(w.rows, now, due)
    ensures Settled(SweptWorld(w, now, due, f).rows) && ShowsTheSame(w, SweptWorld(w, now, due, f), k)
  {
    var es := Berthmaster.Alerts(due)[..Sent(due, f)];
    SweepMarksSome(w.rows, now, due, f);
    LastSidesSplits(w.log, es, k);
    NobodyToldNoSides(es, k);
  }

  lemma PlacedSettles(s: Slot, a: Arrival)
    requires Placed(s, a).Ok? && a.id != ""
    ensures var o := Placed(s, a).value;
      && (o.slot.state == ASSIGNED <==> o.slot.Complete()) && (o.assign <==> o.slot.Complete())
      && (s.Complete() ==> o.assign)
  {}

  lemma CarryShows(cfg: Config, w: World, s: Slot, a: Arrival, id: string, f: HandlerFault, k: Key)
    requires Settled(w.rows) && IsLocated(cfg, w.rows, a, s) && Placed(s, a).Ok?
    requires a.id != "" && id != "" && !f.AtStore?
    ensures var o := Placed(s, a).value;
      var w' := CarriedUpTo(w, o, a, id, f);
      && Settled(w'.rows)
      && (if o.assign && s.key == k then
            && k in w'.rows && w'.rows[k].state == ASSIGNED && Sides(w'.rows[k]) == Sides(o.slot)
            && LastSides(w'.log, k) == if Tells(o, f) then Some(Sides(o.slot)) else LastSides(w.log, k)
          else ShowsTheSame(w, w', k))
  {
    var o := Placed(s, a).value;
    PlacedSettles(s, a);
    CarriedRowsUpTo(cfg, w, s, a, id, f);
    if o.assign && !f.AtAudit? {
      PublishedSides(o, a, id, f, k);
      LastSidesSplits(w.log, Instructions(o, a, id)[..Published(o, f)], k);
    }
  }

  /** Over every run, wherever handlers and sweeps break off: the last assignment published
      for a slot names what the last publishing handler stored; a slot is ASSIGNED exactly if
      some handler stored a completing arrival for it, and shows what the last of these
      stored; and it shows what nobody was told of if and only if that one broke off before
      publishing and had not stored again what the last publishing one had. */
  lemma {:induction false} UnannouncedExactlyWhen(cfg: Config, steps: seq<Step>, k: Key)
    requires ValidRun(cfg, steps)
    ensures var w, c := Run(cfg, steps), LastCompletion(cfg, steps, k);
      && Settled(w.rows)
      && LastSides(w.log, k) == LastTold(cfg, steps, k)
      && (k in w.rows && w.rows[k].state == ASSIGNED <==> c.Some?)
      && (c.Some? ==> Sides(w.rows[k]) == c.value.sides)
      && (c.Some? && c.value.published ==> LastTold(cfg, steps, k) == Some(c.value.sides))
      && (Unannounced(w, k) <==>
            c.Some? && !c.value.published && LastTold(cfg, steps, k) != Some(c.value.sides))
  {
    if steps != [] {
      var before, step := steps[..|steps| - 1], steps[|steps| - 1];
      UnannouncedExactlyWhen(cfg, before, k);
      RunsStayTraced(cfg, before);
      StepShows(cfg, Run(cfg, before), step, k);
    }
  }

  // ---- and when they can still be told ----

  /** The registry still knows whose slots these are. */
  ghost predicate Registered(cfg: Config, rows: Rows) {
    forall k | k in rows :: k.client in cfg.clients && cfg.clients[k.client].ExpectationFor(k.domain).Some?
  }

  lemma StepStaysRegistered(cfg: Config, w: World, step: Step)
    requires DeadlinesFixed(cfg, w.rows) && Registered(cfg, w.rows) && StepOk(w, step)
    ensures Registered(cfg, After(cfg, w, step).rows)
  {
    match step {
      case SweepStep(now, due, f) => SweepMarksSome(w.rows, now, due, f);
      case HandleStep(m, now, id, f) =>
        if m.dispatched && Applied(cfg, w.rows, m.arrival, now).Ok? && !f.AtStore? {
          var s := Located(cfg, w.rows, m.arrival, now).value;
          LocatedSlot(cfg, w.rows, m.arrival, now);
          CarriedRowsUpTo(cfg, w, s, m.arrival, id, f);
        }
    }
  }

  lemma {:induction false} RunsStayRegistered(cfg: Config, steps: seq<Step>)
    requires ValidRun(cfg, steps)
    ensures Registered(cfg, Run(cfg, steps).rows)
  {
    if steps != [] {
      var before := steps[..|steps| - 1];
      RunsStayRegistered(cfg, before);
      RunsStayTraced(cfg, before);
      StepStaysRegistered(cfg, Run(cfg, before), steps[|steps| - 1]);
    }
  }

  /** After the deadline day no step changes what an ASSIGNED slot shows or what was told
      of it. */
  lemma {:induction false} ClosedSlotStays(cfg: Config, w: World, steps: seq<Step>, k: Key, t: int)
    requires DeadlinesFixed(cfg, w.rows) && Settled(w.rows) && ValidFrom(cfg, w, steps)
    requires k in w.rows && w.rows[k].state == ASSIGNED && t >= w.rows[k].deadline + MINUTE
    requires forall i | 0 <= i < |steps| :: t <= steps[i].now
    ensures var end := Continued(cfg, w, steps);
      DeadlinesFixed(cfg, end.rows) && Settled(end.rows) && ShowsTheSame(w, end, k)
  {
    if steps != [] {
      var before, step := steps[..|steps| - 1], steps[|steps| - 1];
      var w' := Continued(cfg, w, before);
      ClosedSlotStays(cfg, w, before, k, t);
      StepKeepsDeadlines(cfg, w', step);
      StepShows(cfg, w', step, k);
      if step.HandleStep? && step.m.arrival.SlotKey() == k {
        ClosedAfterTheDeadlineDay(cfg, w'.rows, step.m.arrival, step.now);
      }
    }
  }

  /** The file on the internal side, delivered once more. */
  function Repeat(s: Slot): Message {
    Message(true, Arrival(s.side1, s.key.client, s.key.domain, s.key.valueDate, SIDE_INTERNAL_GL))
  }

  lemma RepeatIsTold(cfg: Config, w: World, k: Key, t: int, id: string)
    requires DeadlinesFixed(cfg, w.rows) && Registered(cfg, w.rows) && Settled(w.rows)
    requires k in w.rows && w.rows[k].state == ASSIGNED
    requires w.rows[k].deadline <= t < w.rows[k].deadline + MINUTE && id != "" && !Issued(w.log, id)
    ensures var step := HandleStep(Repeat(w.rows[k]), t, id, HandlerFault.Never);
      StepOk(w, step) && !Unannounced(After(cfg, w, step), k)
  {
    var step := HandleStep(Repeat(w.rows[k]), t, id, HandlerFault.Never);
    AcceptedOnTheDeadlineDay(cfg, w.rows, k, t, Repeat(w.rows[k]).arrival);
    StepShows(cfg, w, step, k);
  }

  /** A slot that shows what nobody was told of can still be told of, by redelivery of what
      it shows, if and only if it is not yet midnight of its deadline day. */
  lemma AnnouncedExactlyBeforeMidnight(cfg: Config, steps: seq<Step>, k: Key, t: int)
    requires ValidRun(cfg, steps) && Unannounced(Run(cfg, steps), k)
    ensures var w := Run(cfg, steps);
      (exists more :: Follow(cfg, w, more, t) && !Unannounced(Continued(cfg, w, more), k))
      <==> t < w.rows[k].deadline + MINUTE
  {
    var w := Run(cfg, steps);
    RunsStayTraced(cfg, steps);
    RunsStayRegistered(cfg, steps);
    UnannouncedExactlyWhen(cfg, steps, k);
    if t >= w.rows[k].deadline + MINUTE {
      forall more | Follow(cfg, w, more, t) ensures Unannounced(Continued(cfg, w, more), k) {
        ClosedSlotStays(cfg, w, more, k, t);
      }
    } else {
      var id := NewId(w.log);
      var hour := if t < w.rows[k].deadline then w.rows[k].deadline else t;
      var step := HandleStep(Repeat(w.rows[k]), hour, id, HandlerFault.Never);
      RepeatIsTold(cfg, w, k, hour, id);
      OneStep(cfg, w, step);
      assert Follow(cfg, w, [step], t);
    }
  }

  lemma OneStep(cfg: Config, w: World, step: Step)
    requires StepOk(w, step)
    ensures ValidFrom(cfg, w, [step]) && Continued(cfg, w, [step]) == After(cfg, w, step)
  {
    assert [step][..0] == [];
    assert ValidFrom(cfg, w, []) && Continued(cfg, w, []) == w;
  }
}
