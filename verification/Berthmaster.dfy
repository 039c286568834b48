/** Berthmaster turns classified arrivals into berth assignments
    (go/cmd/berthmaster/main.go). The log is the order in which it publishes to the
    superseded, assigned and alert topics. */
module Berthmaster {
  import opened Basics
  import opened Slots

  datatype Event =
    | Assigned(id: string, key: Key, side1: string, side2: string, expectation: string, supersedes: string)
    | Voided(id: string, key: Key, supersededBy: string)
    | Alerted(key: Key, expectation: string, missingSide: string, deadline: int)

  datatype Message = Message(dispatched: bool, arrival: Arrival)

  datatype World = World(rows: Rows, log: seq<Event>)

  // ---- one handled message, one sweep ----

  /** What a dispatched arrival that completes its slot publishes: the void of what it
      replaces, if anything, then the assignment. */
  function Instructions(o: Outcome, a: Arrival, id: string): seq<Event> {
    (if o.supersedes != "" then [Voided(o.supersedes, o.slot.key, a.id)] else [])
    + [Assigned(id, o.slot.key, o.slot.side1, o.slot.side2, o.slot.expectation, o.supersedes)]
  }

  function Recorded(rows: Rows, k: Key, id: string): Rows {
    if k in rows then Upserted(rows, rows[k].(assignment := id, state := ASSIGNED)) else rows
  }

  /** Where a handler breaks off: storing the slot, the audit entry before publishing,
      publishing the void, publishing the assignment, stamping the slot, or the audit
      entry at the very end. */
  datatype HandlerFault = Never | AtStore | AtAudit | AtVoid | AtAssigned | AtStamp | AtEnd

  /** How many of the instructions are out when the handler stops. */
  function Published(o: Outcome, f: HandlerFault): nat {
    var n := if o.supersedes != "" then 2 else 1;
    if f.AtVoid? && o.supersedes != "" then 0 else if f.AtAssigned? then n - 1 else n
  }

  predicate Stamps(o: Outcome, f: HandlerFault) {
    !f.AtAssigned? && !f.AtStamp? && !(f.AtVoid? && o.supersedes != "")
  }

  predicate Interrupts(o: Outcome, f: HandlerFault) {
    f.AtStore? || f.AtAudit? || (o.assign && (!Stamps(o, f) || f.AtEnd?))
  }

  /** A file outside the window is no failure, unless the audit entry about it fails. */
  predicate HandlerFails(cfg: Config, rows: Rows, m: Message, now: int, f: HandlerFault) {
    m.dispatched
    && match Applied(cfg, rows, m.arrival, now)
       case Err(e) => e != OutsideWindow || f.AtAudit?
       case Ok(o) => Interrupts(o, f)
  }

  /** `id` is the assignment id the call would mint. */
  function Handled(cfg: Config, w: World, m: Message, now: int, id: string, f: HandlerFault): World {
    if !m.dispatched then w
    else
      match Applied(cfg, w.rows, m.arrival, now)
      case Err(_) => w
      case Ok(o) => CarriedUpTo(w, o, m.arrival, id, f)
  }

  /** Storing an outcome and, if it completes the slot, publishing and stamping it. */
  function Carried(w: World, o: Outcome, a: Arrival, id: string): World {
    var rows := Upserted(w.rows, o.slot);
    if !o.assign then World(rows, w.log)
    else World(Recorded(rows, o.slot.key, id), w.log + Instructions(o, a, id))
  }

  function CarriedUpTo(w: World, o: Outcome, a: Arrival, id: string, f: HandlerFault): World {
    var rows := Upserted(w.rows, o.slot);
    if f.AtStore? then w
    else if !o.assign || f.AtAudit? then World(rows, w.log)
    else World(if Stamps(o, f) then Recorded(rows, o.slot.key, id) else rows,
               w.log + Instructions(o, a, id)[..Published(o, f)])
  }

  /** The slot is stored, and if that completes it the void of what it replaces and the
      assignment are out, in this order, and the slot carries the assignment. */
  ghost predicate IsDone(w: World, o: Outcome, a: Arrival, id: string, after: World) {
    var s := o.slot;
    && s.key in after.rows && after.rows == Upserted(w.rows, s)[s.key := after.rows[s.key]]
    && (!o.assign ==> after == World(Upserted(w.rows, s), w.log))
    && (o.assign ==>
          && after.rows[s.key].state == ASSIGNED && after.rows[s.key].assignment == id
          && after.log == w.log + (if o.supersedes != "" then [Voided(o.supersedes, s.key, a.id)] else [])
               + [Assigned(id, s.key, s.side1, s.side2, s.expectation, o.supersedes)])
  }

  /** A handler that ends without an error has left nothing undone; files that are not
      dispatched or come outside the window are none of its business. */
  lemma NoErrorMeansDone(cfg: Config, w: World, m: Message, now: int, id: string, f: HandlerFault)
    requires Keyed(w.rows) && !HandlerFails(cfg, w.rows, m, now, f) && id != ""
    ensures var applied, after := Applied(cfg, w.rows, m.arrival, now), Handled(cfg, w, m, now, id, f);
      if !m.dispatched || applied == Err(OutsideWindow) then after == w
      else applied.Ok? && IsDone(w, applied.value, m.arrival, id, after)
  {
    var applied := Applied(cfg, w.rows, m.arrival, now);
    if m.dispatched && applied.Ok? {
      CarriedIsDone(w, applied.value, m.arrival, id, f);
    }
  }

  lemma CarriedIsDone(w: World, o: Outcome, a: Arrival, id: string, f: HandlerFault)
    requires Keyed(w.rows) && !Interrupts(o, f) && id != ""
    ensures IsDone(w, o, a, id, CarriedUpTo(w, o, a, id, f))
  {
    if o.assign {
      AllOut(o, a, id, f);
      assert Upserted(w.rows, o.slot)[o.slot.key].key == o.slot.key;
    }
  }

  lemma AllOut(o: Outcome, a: Arrival, id: string, f: HandlerFault)
    requires Stamps(o, f)
    ensures Instructions(o, a, id)[..Published(o, f)] ==
      (if o.supersedes != "" then [Voided(o.supersedes, o.slot.key, a.id)] else [])
      + [Assigned(id, o.slot.key, o.slot.side1, o.slot.side2, o.slot.expectation, o.supersedes)]
  {}

  function Alert(s: Slot): Event {
    Alerted(s.key, s.expectation, s.MissingSide(), s.deadline)
  }

  function Alerts(due: seq<Slot>): (es: seq<Event>)
    ensures |es| == |due| && forall i | 0 <= i < |due| :: es[i] == Alert(due[i])
  {
    seq(|due|, i requires 0 <= i < |due| => Alert(due[i]))
  }

  function Sent(due: seq<Slot>, f: SweepFault): (n: nat)
    ensures n <= |due|
  {
    if StopsMarking(due, f) then 0 else if f.AtAlert? && f.n < |due| then f.n else |due|
  }

  /** `due` is the order in which the table lists the overdue rows. */
  function SweptWorld(w: World, now: int, due: seq<Slot>, f: SweepFault): World {
    World(SweptUpTo(w.rows, now, due, f), w.log + Alerts(due)[..Sent(due, f)])
  }

  ghost predicate Sweeps(w: World, now: int, due: seq<Slot>, f: SweepFault, after: World, ok: bool) {
    && IsDueList(w.rows, now, due)
    && after == SweptWorld(w, now, due, f)
    && (ok <==> !StopsMarking(due, f) && Sent(due, f) == |due|)
  }

  lemma AlertsOneMore(due: seq<Slot>, i: nat)
    requires i < |due|
    ensures Alerts(due)[..i + 1] == Alerts(due)[..i] + [Alert(Marked(due)[i])]
  {}

  lemma SweepsUpTo(w: World, now: int, due: seq<Slot>, f: SweepFault, i: nat)
    requires IsDueList(w.rows, now, due) && !StopsMarking(due, f) && i <= |due|
    requires (f.AtAlert? ==> i <= f.n) && (i < |due| ==> f == AtAlert(i))
    ensures Sweeps(w, now, due, f, World(SweptUpTo(w.rows, now, due, f), w.log + Alerts(due)[..i]), i == |due|)
  {}

  class Service {
    const machine: Machine
    var log: seq<Event>

    constructor (machine: Machine)
      ensures this.machine == machine && log == []
    {
      this.machine := machine;
      log := [];
    }

    ghost function View(): World
      reads this, machine.store
    {
      World(machine.store.rows, log)
    }

    method Handle(m: Message, now: int, id: string, fault: HandlerFault) returns (r: Result<(), Error>)
      requires Keyed(machine.store.rows)
      modifies this, machine.store
      ensures View() == Handled(machine.cfg, old(View()), m, now, id, fault)
      ensures r.Err? <==> HandlerFails(machine.cfg, old(machine.store.rows), m, now, fault)
    {
      if !m.dispatched {
        return Ok(());
      }
      var out := machine.Apply(m.arrival, now, fault.AtStore?);
      if out.Err? {
        if out.error == OutsideWindow && !fault.AtAudit? {
          return Ok(());
        }
        return Err(out.error);
      }
      if fault.AtAudit? {
        return Err(Unavailable);
      }
      if !out.value.assign {
        return Ok(());
      }
      r := Assign(m.arrival, out.value, id, fault);
    }

    /** The void goes out before the assignment that replaces what it voids, and the
        slot is stamped only after both are on the log. */
    method Assign(a: Arrival, o: Outcome, id: string, fault: HandlerFault) returns (r: Result<(), Error>)
      requires Keyed(machine.store.rows) && o.slot.key in machine.store.rows
      modifies this, machine.store
      ensures r.Err? <==> !Stamps(o, fault) || fault.AtEnd?
      ensures log == old(log) + Instructions(o, a, id)[..Published(o, fault)]
      ensures machine.store.rows ==
        if Stamps(o, fault) then Recorded(old(machine.store.rows), o.slot.key, id) else old(machine.store.rows)
    {
      if o.supersedes != "" {
        if fault.AtVoid? {
          return Err(Unavailable);
        }
        log := log + [Voided(o.supersedes, o.slot.key, a.id)];
      }
      if fault.AtAssigned? {
        return Err(Unavailable);
      }
      log := log + [Assigned(id, o.slot.key, o.slot.side1, o.slot.side2, o.slot.expectation, o.supersedes)];
      r := machine.RecordAssignment(o.slot.key, id, fault.AtStamp?);
      if fault.AtEnd? {
        return Err(Unavailable);
      }
    }

    method Sweep(now: int, fault: SweepFault) returns (r: Result<(), Error>)
      requires Keyed(machine.store.rows)
      modifies this, machine.store
      ensures exists due :: Sweeps(old(View()), now, due, fault, View(), r.Ok?)
    {
      ghost var w := View();
      var overdue := machine.Overdue(now, fault);
      ghost var due :| IsDueList(w.rows, now, due)
        && machine.store.rows == SweptUpTo(w.rows, now, due, fault)
        && overdue == Attempted(Ok(Marked(due)), StopsMarking(due, fault));
      if overdue.Err? {
        r := Err(overdue.error);
        assert Sweeps(w, now, due, fault, View(), r.Ok?);
        return;
      }
      var i := 0;
      while i < |overdue.value| && fault != AtAlert(i)
        invariant i <= |due|
        invariant log == w.log + Alerts(due)[..i]
        invariant machine.store.rows == SweptUpTo(w.rows, now, due, fault)
        invariant fault.AtAlert? ==> i <= fault.n
      {
        var s := overdue.value[i];
        AlertsOneMore(due, i);
        log := log + [Alerted(s.key, s.expectation, s.MissingSide(), s.deadline)];
        i := i + 1;
      }
      r := if i < |overdue.value| then Err(Unavailable) else Ok(());
      SweepsUpTo(w, now, due, fault, i);
      assert Sweeps(w, now, due, fault, View(), r.Ok?);
    }
  }

  // ---- runs ----

  datatype Step =
    | HandleStep(m: Message, now: int, id: string, failure: HandlerFault)
    | SweepStep(now: int, due: seq<Slot>, fault: SweepFault)

  function After(cfg: Config, w: World, s: Step): World {
    match s
    case HandleStep(m, now, id, f) => Handled(cfg, w, m, now, id, f)
    case SweepStep(now, due, f) => SweptWorld(w, now, due, f)
  }

  ghost predicate Issued(log: seq<Event>, id: string) {
    exists e :: e in log && e.Assigned? && e.id == id
  }

  ghost predicate IssuedFor(log: seq<Event>, id: string, k: Key) {
    exists e :: e in log && e.Assigned? && e.id == id && e.key == k
  }

  /** Arrival and assignment ids are ULIDs: never blank, and assignment ids are new. */
  ghost predicate StepOk(w: World, s: Step) {
    match s
    case HandleStep(m, now, id, _) => m.arrival.id != "" && id != "" && !Issued(w.log, id)
    case SweepStep(now, due, _) => IsDueList(w.rows, now, due)
  }

  const START := World(map[], [])

  /** Steps taken from any world, and what each must respect where it is taken. */
  function Continued(cfg: Config, w: World, steps: seq<Step>): World {
    if steps == [] then w
    else After(cfg, Continued(cfg, w, steps[..|steps| - 1]), steps[|steps| - 1])
  }

  ghost predicate ValidFrom(cfg: Config, w: World, steps: seq<Step>) {
    steps != [] ==>
      && ValidFrom(cfg, w, steps[..|steps| - 1])
      && StepOk(Continued(cfg, w, steps[..|steps| - 1]), steps[|steps| - 1])
  }

  function Run(cfg: Config, steps: seq<Step>): World {
    Continued(cfg, START, steps)
  }

  ghost predicate ValidRun(cfg: Config, steps: seq<Step>) {
    ValidFrom(cfg, START, steps)
  }

  predicate AllOrNothing(s: Step) {
    s.HandleStep? ==> s.failure.Never? || s.failure.AtStore? || s.failure.AtEnd?
  }

  /** No handler breaks off half-way; sweeps may. */
  ghost predicate HandlersComplete(steps: seq<Step>) {
    forall i | 0 <= i < |steps| :: AllOrNothing(steps[i])
  }

  // ---- the chain of one slot ----

  function ForSlot(log: seq<Event>, k: Key): seq<Event> {
    if log == [] then []
    else
      var e := log[|log| - 1];
      ForSlot(log[..|log| - 1], k) + if !e.Alerted? && e.key == k then [e] else []
  }

  function IdOf(e: Event): string {
    if e.Alerted? then "" else e.id
  }

  /** Assignment, void, assignment, void, … ending in an assignment: the first
      supersedes nothing, each later one its immediate predecessor, which is voided once
      and directly before it. */
  ghost predicate IsChain(es: seq<Event>) {
    && (es == [] || |es| % 2 == 1)
    && forall i | 0 <= i < |es| :: IsLink(es, i)
  }

  ghost predicate IsLink(es: seq<Event>, i: nat)
    requires i < |es|
  {
    if i % 2 == 0
    then es[i].Assigned? && es[i].supersedes == if i == 0 then "" else IdOf(es[i - 2])
    else es[i].Voided? && es[i].id == IdOf(es[i - 1])
  }

  /** What the table says about one slot, next to what was published for it. */
  ghost predicate SlotAgrees(row: Option<Slot>, es: seq<Event>) {
    && IsChain(es)
    && match row
       case None => es == []
       case Some(s) =>
         && (s.state == ASSIGNED <==> s.Complete())
         && (s.state == ASSIGNED <==> es != [])
         && (s.state == PARTIAL || s.state == ASSIGNED || s.state == MISSING)
         && if es == [] then s.assignment == "" else Restates(es[|es| - 1], s)
  }

  /** The assignment names the slot's present sides, and the slot names the assignment. */
  ghost predicate Restates(e: Event, s: Slot) {
    && e.Assigned?
    && e.id == s.assignment != ""
    && e.key == s.key && e.side1 == s.side1 && e.side2 == s.side2 && e.expectation == s.expectation
  }

  function Row(rows: Rows, k: Key): Option<Slot> {
    if k in rows then Some(rows[k]) else None
  }

  ghost predicate IsVoided(log: seq<Event>, id: string) {
    exists e :: e in log && e.Voided? && e.id == id
  }

  ghost predicate IsCurrent(rows: Rows, e: Event) {
    e.key in rows && rows[e.key].assignment == IdOf(e)
  }

  /** The table and the log tell one story per slot. */
  ghost predicate Agreement(w: World) {
    forall k :: SlotAgrees(Row(w.rows, k), ForSlot(w.log, k))
  }

  ghost predicate DeadlinesFixed(cfg: Config, rows: Rows) {
    && Keyed(rows)
    && forall k | k in rows :: cfg.Deadline(k.client, k.valueDate) == Ok(rows[k].deadline)
  }

  ghost predicate DistinctIds(log: seq<Event>) {
    && (forall i, j | 0 <= i < j < |log| && log[i].Assigned? && log[j].Assigned? :: log[i].id != log[j].id)
    && (forall e | e in log && e.Assigned? :: e.id != "")
    && (forall e | e in log && e.Voided? :: Issued(log, e.id))
  }

  ghost predicate StandsAsItShould(w: World, e: Event) {
    IsCurrent(w.rows, e) <==> !IsVoided(w.log, IdOf(e))
  }

  /** An assignment stands exactly while its slot carries its id. */
  ghost predicate UnvoidedIsCurrent(w: World) {
    forall e | e in w.log && e.Assigned? :: StandsAsItShould(w, e)
  }

  ghost predicate Invariant(cfg: Config, w: World) {
    DeadlinesFixed(cfg, w.rows) && Agreement(w) && DistinctIds(w.log) && UnvoidedIsCurrent(w)
  }

  lemma {:induction false} ForSlotSplits(log: seq<Event>, more: seq<Event>, k: Key)
    ensures ForSlot(log + more, k) == ForSlot(log, k) + ForSlot(more, k)
  {
    if more == [] {
      assert log + more == log;
    } else {
      var all := log + more;
      assert all[..|all| - 1] == log + more[..|more| - 1];
      ForSlotSplits(log, more[..|more| - 1], k);
    }
  }

  lemma {:induction false} ForSlotOfAlerts(es: seq<Event>, k: Key)
    requires forall i | 0 <= i < |es| :: es[i].Alerted?
    ensures ForSlot(es, k) == []
  {
    if es != [] {
      ForSlotOfAlerts(es[..|es| - 1], k);
    }
  }

  lemma {:induction false} ForSlotKeeps(log: seq<Event>, k: Key)
    ensures forall e :: e in ForSlot(log, k) <==> e in log && !e.Alerted? && e.key == k
  {
    if log != [] {
      ForSlotKeeps(log[..|log| - 1], k);
      assert log == log[..|log| - 1] + [log[|log| - 1]];
    }
  }

  lemma InstructionsOfSlot(o: Outcome, a: Arrival, id: string, k: Key)
    ensures ForSlot(Instructions(o, a, id), k) == if k == o.slot.key then Instructions(o, a, id) else []
  {
    var es := Instructions(o, a, id);
    var last := es[|es| - 1];
    assert es == es[..|es| - 1] + [last];
    if o.supersedes != "" {
      assert es[..1] == [es[0]] && es[0..1][..0] == [];
      assert ForSlot([es[0]], k) == ForSlot([], k) + if es[0].key == k then [es[0]] else [];
    }
  }

  lemma ChainGrows(es: seq<Event>, v: Event, e: Event)
    requires IsChain(es) && es != []
    requires v.Voided? && v.id == IdOf(es[|es| - 1])
    requires e.Assigned? && e.supersedes == IdOf(es[|es| - 1])
    ensures IsChain(es + [v, e])
  {
    var fs := es + [v, e];
    forall i | 0 <= i < |fs| ensures IsLink(fs, i) {
      if i < |es| {
        assert IsLink(es, i);
      }
    }
  }

  /** `s` is the slot an accepted arrival `a` was located on in `rows`. */
  ghost predicate IsLocated(cfg: Config, rows: Rows, a: Arrival, s: Slot) {
    && s.key == a.SlotKey()
    && cfg.Deadline(a.client, a.valueDate) == Ok(s.deadline)
    && if s.key in rows then s == rows[s.key]
       else s.state == OPEN && s.side1 == s.side2 == s.assignment == ""
  }

  lemma LocatedSlot(cfg: Config, rows: Rows, a: Arrival, now: int)
    requires DeadlinesFixed(cfg, rows) && Located(cfg, rows, a, now).Ok?
    ensures IsLocated(cfg, rows, a, Located(cfg, rows, a, now).value)
  {}

  lemma MergeKeepsPlaced(s: Slot, a: Arrival, id: string)
    requires Placed(s, a).Ok? && a.id != "" && id != ""
    ensures var t := Placed(s, a).value.slot;
      && Merge(s, t) == t
      && Merge(t, t.(assignment := id, state := ASSIGNED)) == t.(assignment := id, state := ASSIGNED)
  {}

  /** With a real arrival id the merges write exactly the slot Apply computed. */
  lemma CarriedRows(cfg: Config, w: World, s: Slot, a: Arrival, id: string)
    requires IsLocated(cfg, w.rows, a, s) && Placed(s, a).Ok? && a.id != "" && id != ""
    ensures var o := Placed(s, a).value;
      && o.slot.key == s.key && o.slot.deadline == s.deadline
      && Carried(w, o, a, id).rows ==
           w.rows[s.key := if o.assign then o.slot.(assignment := id) else o.slot]
  {
    MergeKeepsPlaced(s, a, id);
  }

  /** One slot across one accepted arrival. */
  lemma SlotKeepsAgreeing(s: Slot, es: seq<Event>, a: Arrival, id: string)
    requires SlotAgrees(Some(s), es) || (es == [] && s.state == OPEN && s.side1 == s.side2 == s.assignment == "")
    requires a.id != "" && id != "" && Placed(s, a).Ok?
    ensures var o := Placed(s, a).value;
      if o.assign
      then SlotAgrees(Some(o.slot.(assignment := id)), es + Instructions(o, a, id))
      else SlotAgrees(Some(o.slot), es)
  {
    var o := Placed(s, a).value;
    var ins := Instructions(o, a, id);
    if o.assign && es != [] {
      assert o.supersedes == s.assignment != "";
      ChainGrows(es, ins[0], ins[1]);
      assert ins == [ins[0], ins[1]];
    } else if o.assign {
      assert o.supersedes == "";
      assert IsLink(es + ins, 0);
    }
  }

  lemma CarriedAgrees(cfg: Config, w: World, s: Slot, a: Arrival, id: string)
    requires Agreement(w) && IsLocated(cfg, w.rows, a, s)
    requires Placed(s, a).Ok? && a.id != "" && id != ""
    ensures Agreement(Carried(w, Placed(s, a).value, a, id))
  {
    var o := Placed(s, a).value;
    var w' := Carried(w, o, a, id);
    CarriedRows(cfg, w, s, a, id);
    forall q ensures SlotAgrees(Row(w'.rows, q), ForSlot(w'.log, q)) {
      assert SlotAgrees(Row(w.rows, q), ForSlot(w.log, q));
      if o.assign {
        ForSlotSplits(w.log, Instructions(o, a, id), q);
        InstructionsOfSlot(o, a, id, q);
      }
      if q == s.key {
        SlotKeepsAgreeing(s, ForSlot(w.log, q), a, id);
      } else {
        assert Row(w'.rows, q) == Row(w.rows, q);
        assert ForSlot(w.log, q) + [] == ForSlot(w.log, q);
      }
    }
  }

  /** What an assigning arrival supersedes is what its slot carried. */
  lemma SupersedesTheCurrent(cfg: Config, w: World, s: Slot, a: Arrival)
    requires Agreement(w) && IsLocated(cfg, w.rows, a, s) && Placed(s, a).Ok?
    ensures var o := Placed(s, a).value;
      && (o.assign ==> o.supersedes == s.assignment)
      && (o.supersedes != "" ==> IssuedFor(w.log, o.supersedes, s.key))
  {
    var es := ForSlot(w.log, s.key);
    assert SlotAgrees(Row(w.rows, s.key), es);
    ForSlotKeeps(w.log, s.key);
    if es != [] {
      assert es[|es| - 1] in es;
    }
  }

  lemma IssuedForIsIssued(log: seq<Event>, id: string, k: Key)
    requires IssuedFor(log, id, k)
    ensures Issued(log, id)
  {}

  lemma IdsStayDistinct(log: seq<Event>, o: Outcome, a: Arrival, id: string)
    requires DistinctIds(log) && id != "" && !Issued(log, id)
    requires o.supersedes != "" ==> Issued(log, o.supersedes)
    ensures DistinctIds(log + Instructions(o, a, id))
  {
    var ins := Instructions(o, a, id);
    var all := log + ins;
    forall e | e in all && e.Voided? ensures Issued(all, e.id) {
      var voided := e.id;
      assert Issued(log, voided);
      var f :| f in log && f.Assigned? && f.id == voided;
      assert f in all;
    }
    forall i, j | 0 <= i < j < |all| && all[i].Assigned? && all[j].Assigned? ensures all[i].id != all[j].id {
      assert i < |log|;
      if j >= |log| {
        assert all[i] in log;
      }
    }
  }

  /** An assignment already published, across one accepted arrival. */
  lemma OldAssignmentStands(cfg: Config, w: World, s: Slot, a: Arrival, id: string, e: Event)
    requires Agreement(w) && DistinctIds(w.log) && IsLocated(cfg, w.rows, a, s)
    requires Placed(s, a).Ok? && a.id != "" && id != "" && !Issued(w.log, id)
    requires e in w.log && e.Assigned? && StandsAsItShould(w, e)
    ensures StandsAsItShould(Carried(w, Placed(s, a).value, a, id), e)
  {
    var o := Placed(s, a).value;
    CarriedRows(cfg, w, s, a, id);
    SupersedesTheCurrent(cfg, w, s, a);
    assert e.id != id && e.id != "";
    if o.assign {
      VoidedAfter(w.log, Instructions(o, a, id), e.id);
      VoidedByInstructions(o, a, id, e.id);
      if e.id == o.supersedes {
        var f :| f in w.log && f.Assigned? && f.id == o.supersedes && f.key == s.key;
        SameIdSameEvent(w.log, e, f);
      }
    }
  }

  /** The assignment an arrival publishes, which nothing can have voided. */
  lemma NewAssignmentStands(cfg: Config, w: World, s: Slot, a: Arrival, id: string, e: Event)
    requires DistinctIds(w.log) && IsLocated(cfg, w.rows, a, s) && Agreement(w)
    requires Placed(s, a).Ok? && a.id != "" && id != "" && !Issued(w.log, id)
    requires Placed(s, a).value.assign && e in Instructions(Placed(s, a).value, a, id) && e.Assigned?
    ensures StandsAsItShould(Carried(w, Placed(s, a).value, a, id), e)
  {
    var o := Placed(s, a).value;
    CarriedRows(cfg, w, s, a, id);
    SupersedesTheCurrent(cfg, w, s, a);
    VoidedAfter(w.log, Instructions(o, a, id), id);
    VoidedByInstructions(o, a, id, id);
    if o.supersedes != "" {
      IssuedForIsIssued(w.log, o.supersedes, s.key);
    }
  }

  lemma CurrentStaysUnvoided(cfg: Config, w: World, s: Slot, a: Arrival, id: string)
    requires Agreement(w) && DistinctIds(w.log) && UnvoidedIsCurrent(w) && IsLocated(cfg, w.rows, a, s)
    requires Placed(s, a).Ok? && a.id != "" && id != "" && !Issued(w.log, id)
    ensures UnvoidedIsCurrent(Carried(w, Placed(s, a).value, a, id))
  {
    var o := Placed(s, a).value;
    var w' := Carried(w, o, a, id);
    forall e | e in w'.log && e.Assigned? ensures StandsAsItShould(w', e) {
      if e in w.log {
        assert StandsAsItShould(w, e);
        OldAssignmentStands(cfg, w, s, a, id, e);
      } else {
        NewAssignmentStands(cfg, w, s, a, id, e);
      }
    }
  }

  lemma SameIdSameEvent(log: seq<Event>, e: Event, f: Event)
    requires DistinctIds(log) && e in log && f in log && e.Assigned? && f.Assigned? && e.id == f.id
    ensures e == f
  {
    var i :| 0 <= i < |log| && log[i] == e;
    var j :| 0 <= j < |log| && log[j] == f;
  }

  lemma VoidedByInstructions(o: Outcome, a: Arrival, id: string, x: string)
    ensures IsVoided(Instructions(o, a, id), x) <==> o.supersedes != "" && x == o.supersedes
  {
    var ins := Instructions(o, a, id);
    if o.supersedes != "" {
      assert ins[0] in ins;
    }
  }

  lemma VoidedAfter(log: seq<Event>, more: seq<Event>, id: string)
    ensures IsVoided(log + more, id) <==> IsVoided(log, id) || IsVoided(more, id)
  {}

  lemma CarriedRowsUpTo(cfg: Config, w: World, s: Slot, a: Arrival, id: string, f: HandlerFault)
    requires IsLocated(cfg, w.rows, a, s) && Placed(s, a).Ok? && a.id != "" && id != "" && !f.AtStore?
    ensures var o := Placed(s, a).value;
      && o.slot.key == s.key && o.slot.deadline == s.deadline
      && CarriedUpTo(w, o, a, id, f).rows ==
           w.rows[s.key := if o.assign && !f.AtAudit? && Stamps(o, f) then o.slot.(assignment := id) else o.slot]
  {
    MergeKeepsPlaced(s, a, id);
  }

  lemma CarryKeepsDeadlines(cfg: Config, w: World, s: Slot, a: Arrival, id: string, f: HandlerFault)
    requires DeadlinesFixed(cfg, w.rows) && IsLocated(cfg, w.rows, a, s) && Placed(s, a).Ok? && a.id != "" && id != ""
    ensures DeadlinesFixed(cfg, CarriedUpTo(w, Placed(s, a).value, a, id, f).rows)
  {
    if !f.AtStore? {
      CarriedRowsUpTo(cfg, w, s, a, id, f);
    }
  }

  /** Whatever breaks off where, a slot keeps the deadline its key determines. */
  lemma StepKeepsDeadlines(cfg: Config, w: World, step: Step)
    requires DeadlinesFixed(cfg, w.rows) && StepOk(w, step)
    ensures DeadlinesFixed(cfg, After(cfg, w, step).rows)
  {
    match step {
      case SweepStep(now, due, f) =>
        SweepMarksSome(w.rows, now, due, f);
        MarkingKeepsDeadlines(cfg, w.rows, now, SweptUpTo(w.rows, now, due, f));
      case HandleStep(m, now, id, f) =>
        if m.dispatched && Applied(cfg, w.rows, m.arrival, now).Ok? {
          LocatedSlot(cfg, w.rows, m.arrival, now);
          CarryKeepsDeadlines(cfg, w, Located(cfg, w.rows, m.arrival, now).value, m.arrival, id, f);
        }
    }
  }

  lemma CarryPreserves(cfg: Config, w: World, s: Slot, a: Arrival, id: string)
    requires Invariant(cfg, w) && IsLocated(cfg, w.rows, a, s) && Placed(s, a).Ok?
    requires a.id != "" && id != "" && !Issued(w.log, id)
    ensures Invariant(cfg, Carried(w, Placed(s, a).value, a, id))
  {
    CarryKeepsDeadlines(cfg, w, s, a, id, HandlerFault.Never);
    CarriedWhole(w, Placed(s, a).value, a, id, HandlerFault.Never);
    CarriedAgrees(cfg, w, s, a, id);
    CurrentStaysUnvoided(cfg, w, s, a, id);
    CarriedIds(cfg, w, s, a, id);
  }

  lemma CarriedIds(cfg: Config, w: World, s: Slot, a: Arrival, id: string)
    requires Agreement(w) && DistinctIds(w.log) && IsLocated(cfg, w.rows, a, s) && Placed(s, a).Ok?
    requires id != "" && !Issued(w.log, id)
    ensures DistinctIds(Carried(w, Placed(s, a).value, a, id).log)
  {
    var o := Placed(s, a).value;
    SupersedesTheCurrent(cfg, w, s, a);
    if o.supersedes != "" {
      IssuedForIsIssued(w.log, o.supersedes, s.key);
    }
    IdsStayDistinct(w.log, o, a, id);
  }

  lemma CarriedWhole(w: World, o: Outcome, a: Arrival, id: string, f: HandlerFault)
    requires f.Never? || f.AtEnd?
    ensures CarriedUpTo(w, o, a, id, f) == Carried(w, o, a, id)
  {
    var es := Instructions(o, a, id);
    assert es[..|es|] == es;
  }

  lemma HandlePreserves(cfg: Config, w: World, m: Message, now: int, id: string, f: HandlerFault)
    requires Invariant(cfg, w) && StepOk(w, HandleStep(m, now, id, f)) && AllOrNothing(HandleStep(m, now, id, f))
    ensures Invariant(cfg, Handled(cfg, w, m, now, id, f))
  {
    if !f.AtStore? && m.dispatched && Applied(cfg, w.rows, m.arrival, now).Ok? {
      var s := Located(cfg, w.rows, m.arrival, now).value;
      LocatedSlot(cfg, w.rows, m.arrival, now);
      CarryPreserves(cfg, w, s, m.arrival, id);
      CarriedWhole(w, Placed(s, m.arrival).value, m.arrival, id, f);
    }
  }

  /** Some of the overdue rows are marked and nothing else is touched. */
  ghost predicate MarksSome(rows: Rows, after: Rows, now: int) {
    && after.Keys == rows.Keys
    && forall k | k in rows ::
         after[k] == rows[k] || (Due(rows[k], now) && after[k] == rows[k].(state := MISSING))
  }

  lemma SweepMarksSome(rows: Rows, now: int, due: seq<Slot>, f: SweepFault)
    requires IsDueList(rows, now, due)
    ensures MarksSome(rows, SweptUpTo(rows, now, due, f), now)
  {}

  lemma SweepAgrees(w: World, now: int, rows: Rows, es: seq<Event>)
    requires Agreement(w) && MarksSome(w.rows, rows, now)
    requires forall i | 0 <= i < |es| :: es[i].Alerted?
    ensures Agreement(World(rows, w.log + es))
  {
    forall k ensures SlotAgrees(Row(rows, k), ForSlot(w.log + es, k)) {
      ForSlotSplits(w.log, es, k);
      ForSlotOfAlerts(es, k);
      assert ForSlot(w.log, k) + [] == ForSlot(w.log, k);
      assert SlotAgrees(Row(w.rows, k), ForSlot(w.log, k));
    }
  }

  lemma AlertsCarryNoIds(log: seq<Event>, alerts: seq<Event>)
    requires forall i | 0 <= i < |alerts| :: alerts[i].Alerted?
    ensures forall e: Event | !e.Alerted? :: e in log + alerts <==> e in log
    ensures forall id :: IsVoided(log + alerts, id) <==> IsVoided(log, id)
    ensures forall id :: Issued(log + alerts, id) <==> Issued(log, id)
    ensures DistinctIds(log) ==> DistinctIds(log + alerts)
  {
    var all := log + alerts;
    forall id ensures IsVoided(all, id) <==> IsVoided(log, id) {
      VoidedAfter(log, alerts, id);
    }
    forall id ensures Issued(all, id) <==> Issued(log, id) {
      if Issued(log, id) {
        var e :| e in log && e.Assigned? && e.id == id;
        assert e in all;
      }
    }
  }

  lemma MarkingKeepsDeadlines(cfg: Config, rows: Rows, now: int, after: Rows)
    requires DeadlinesFixed(cfg, rows) && MarksSome(rows, after, now)
    ensures DeadlinesFixed(cfg, after)
  {}

  lemma MarkingKeepsUnvoided(w: World, now: int, rows: Rows, es: seq<Event>)
    requires UnvoidedIsCurrent(w) && MarksSome(w.rows, rows, now)
    requires forall i | 0 <= i < |es| :: es[i].Alerted?
    ensures UnvoidedIsCurrent(World(rows, w.log + es))
  {
    AlertsCarryNoIds(w.log, es);
    forall e | e in w.log + es && e.Assigned? ensures StandsAsItShould(World(rows, w.log + es), e) {
      assert StandsAsItShould(w, e);
    }
  }

  lemma SweepPreserves(cfg: Config, w: World, now: int, due: seq<Slot>, f: SweepFault)
    requires Invariant(cfg, w) && IsDueList(w.rows, now, due)
    ensures Invariant(cfg, SweptWorld(w, now, due, f))
  {
    var rows, es := SweptUpTo(w.rows, now, due, f), Alerts(due)[..Sent(due, f)];
    SweepMarksSome(w.rows, now, due, f);
    SweepAgrees(w, now, rows, es);
    AlertsCarryNoIds(w.log, es);
    MarkingKeepsDeadlines(cfg, w.rows, now, rows);
    MarkingKeepsUnvoided(w, now, rows, es);
  }

  /** Over every run whose handlers complete, redeliveries and broken-off sweeps included. */
  lemma {:induction false} RunsKeepTheInvariant(cfg: Config, steps: seq<Step>)
    requires ValidRun(cfg, steps) && HandlersComplete(steps)
    ensures Invariant(cfg, Run(cfg, steps))
  {
    if steps != [] {
      var before := steps[..|steps| - 1];
      RunsKeepTheInvariant(cfg, before);
      assert AllOrNothing(steps[|steps| - 1]);
      match steps[|steps| - 1]
      case HandleStep(m, now, id, f) => HandlePreserves(cfg, Run(cfg, before), m, now, id, f);
      case SweepStep(now, due, f) => SweepPreserves(cfg, Run(cfg, before), now, due, f);
    }
  }

  ghost predicate SameIdIsSameEvent(es: seq<Event>) {
    && (forall e | e in es && e.Assigned? :: e.id != "")
    && (forall e, f | e in es && f in es && e.Assigned? && f.Assigned? && e.id == f.id :: e == f)
  }

  /** A chain never comes back to an assignment: following what is superseded from two
      places with the same id would reach the start of the chain from both at once. */
  lemma {:induction false} ChainNeverRepeats(es: seq<Event>, i: nat, j: nat)
    requires IsChain(es) && SameIdIsSameEvent(es)
    requires i <= j < |es| && i % 2 == 0 && j % 2 == 0 && IdOf(es[i]) == IdOf(es[j])
    ensures i == j
    decreases i
  {
    assert IsLink(es, i) && IsLink(es, j);
    assert es[i] in es && es[j] in es;
    if j >= 2 {
      assert IsLink(es, j - 2) && es[j - 2] in es;
      if i >= 2 {
        ChainNeverRepeats(es, i - 2, j - 2);
      }
    }
  }

  lemma VoidsTheOneBefore(es: seq<Event>, i: nat, j: nat)
    requires IsChain(es) && SameIdIsSameEvent(es) && i < |es| && j < |es| && es[i].Assigned? && es[j].Voided?
    ensures es[j].id == es[i].id <==> j == i + 1
  {
    assert IsLink(es, i) && IsLink(es, j) && IsLink(es, j - 1);
    if es[j].id == es[i].id {
      if i <= j - 1 {
        ChainNeverRepeats(es, i, j - 1);
      } else {
        ChainNeverRepeats(es, j - 1, i);
      }
    }
  }

  /** Within a slot's events every superseded assignment is voided once, by the event right
      after it, and the last assignment never. */
  lemma VoidedExactlyOnce(cfg: Config, steps: seq<Step>, k: Key, es: seq<Event>, i: nat, j: nat)
    requires ValidRun(cfg, steps) && HandlersComplete(steps) && es == ForSlot(Run(cfg, steps).log, k)
    requires i < |es| && j < |es| && es[i].Assigned? && es[j].Voided?
    ensures es[j].id == es[i].id <==> j == i + 1
  {
    var w := Run(cfg, steps);
    RunsKeepTheInvariant(cfg, steps);
    assert SlotAgrees(Row(w.rows, k), es);
    IdsOfSlotAreDistinct(w.log, k);
    VoidsTheOneBefore(es, i, j);
  }

  lemma IdsOfSlotAreDistinct(log: seq<Event>, k: Key)
    requires DistinctIds(log)
    ensures SameIdIsSameEvent(ForSlot(log, k))
  {
    var es := ForSlot(log, k);
    ForSlotKeeps(log, k);
    forall e, f | e in es && f in es && e.Assigned? && f.Assigned? && e.id == f.id ensures e == f {
      SameIdSameEvent(log, e, f);
    }
  }

  /** A slot that was ever ASSIGNED stays ASSIGNED to the end of the run. */
  lemma {:induction false} AssignedIsAbsorbing(cfg: Config, steps: seq<Step>, n: nat, k: Key)
    requires ValidRun(cfg, steps) && HandlersComplete(steps) && n <= |steps|
    requires k in Run(cfg, steps[..n]).rows && Run(cfg, steps[..n]).rows[k].state == ASSIGNED
    ensures k in Run(cfg, steps).rows && Run(cfg, steps).rows[k].state == ASSIGNED
  {
    if n == |steps| {
      assert steps[..n] == steps;
    } else {
      var before := steps[..|steps| - 1];
      assert before[..n] == steps[..n];
      AssignedIsAbsorbing(cfg, before, n, k);
      RunsKeepTheInvariant(cfg, before);
      StepKeepsAssigned(cfg, Run(cfg, before), steps[|steps| - 1], k);
    }
  }

  lemma StepKeepsAssigned(cfg: Config, w: World, step: Step, k: Key)
    requires Invariant(cfg, w) && StepOk(w, step) && AllOrNothing(step)
    requires k in w.rows && w.rows[k].state == ASSIGNED
    ensures k in After(cfg, w, step).rows && After(cfg, w, step).rows[k].state == ASSIGNED
  {
    if step.SweepStep? {
      SweepMarksSome(w.rows, step.now, step.due, step.fault);
    } else if !step.failure.AtStore? && step.m.dispatched && Applied(cfg, w.rows, step.m.arrival, step.now).Ok? {
      var a := step.m.arrival;
      var s := Located(cfg, w.rows, a, step.now).value;
      LocatedSlot(cfg, w.rows, a, step.now);
      CarryKeepsAssigned(cfg, w, s, a, step.id, k);
      CarriedWhole(w, Placed(s, a).value, a, step.id, step.failure);
    }
  }

  lemma CarryKeepsAssigned(cfg: Config, w: World, s: Slot, a: Arrival, id: string, k: Key)
    requires Agreement(w) && IsLocated(cfg, w.rows, a, s) && Placed(s, a).Ok? && a.id != "" && id != ""
    requires k in w.rows && w.rows[k].state == ASSIGNED
    ensures var rows := Carried(w, Placed(s, a).value, a, id).rows; k in rows && rows[k].state == ASSIGNED
  {
    CarriedRows(cfg, w, s, a, id);
    assert SlotAgrees(Row(w.rows, k), ForSlot(w.log, k));
  }

  /** Why arrival ids must not be blank: the merge keeps the stored side, the state
      drops to PARTIAL. "ASSIGNED exactly when complete" survives a stored slot's arrival
      if and only if the id is real or the slot was not yet ASSIGNED. */
  lemma BlankArrivalBreaksExactlyTheAssigned(s: Slot, a: Arrival)
    requires s.state == ASSIGNED <==> s.Complete()
    requires Placed(s, a).Ok?
    ensures var t := Merge(s, Placed(s, a).value.slot);
      (t.state == ASSIGNED <==> t.Complete()) <==> (a.id != "" || s.state != ASSIGNED)
  {}
}
