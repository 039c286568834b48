/** Missing-file alerts over whole runs (go/cmd/berthmaster/main.go, sweep, and
    go/internal/slot/slot.go, Overdue), handlers and sweeps that break off included. */
module Alerts {
  import opened Basics
  import opened Calendars
  import opened Slots
  import opened Berthmaster

  /** Every alert of a sweep names its slot, what was expected by when, and a side the slot
      really lacks. */
  lemma AlertsNameTheGap(cfg: Config, w: World, now: int, due: seq<Slot>, i: nat)
    requires Invariant(cfg, w) && IsDueList(w.rows, now, due) && i < |due|
    ensures var s := w.rows[due[i].key];
      && !s.Complete()
      && s.deadline < now && s.state != ASSIGNED && s.state != MISSING
      && Alerts(due)[i] == Alerted(due[i].key, s.expectation,
           if s.side1 == "" then SIDE_INTERNAL_GL else SIDE_EXTERNAL_CLIENT, s.deadline)
  {
    var k := due[i].key;
    assert SlotAgrees(Row(w.rows, k), ForSlot(w.log, k));
  }

  function AlertCount(log: seq<Event>, k: Key): nat {
    if log == [] then 0
    else AlertCount(log[..|log| - 1], k) + if log[|log| - 1].Alerted? && log[|log| - 1].key == k then 1 else 0
  }

  ghost predicate ClockNeverRunsBack(steps: seq<Step>) {
    forall i, j | 0 <= i <= j < |steps| :: steps[i].now <= steps[j].now
  }

  /** A dispatched arrival for `k` between 23:59 and midnight of its deadline day. */
  predicate IsLastMinute(cfg: Config, s: Step, k: Key) {
    && s.HandleStep? && s.m.dispatched && s.m.arrival.SlotKey() == k
    && var d := cfg.Deadline(k.client, k.valueDate);
       d.Ok? && d.value < s.now < d.value + MINUTE
  }

  function LastMinuteArrivals(cfg: Config, steps: seq<Step>, k: Key): nat {
    if steps == [] then 0
    else LastMinuteArrivals(cfg, steps[..|steps| - 1], k) + if IsLastMinute(cfg, steps[|steps| - 1], k) then 1 else 0
  }

  predicate IsMissing(rows: Rows, k: Key) {
    k in rows && rows[k].state == MISSING
  }

  function MissingBit(rows: Rows, k: Key): nat {
    if IsMissing(rows, k) then 1 else 0
  }

  lemma {:induction false} AlertCountSplits(log: seq<Event>, more: seq<Event>, k: Key)
    ensures AlertCount(log + more, k) == AlertCount(log, k) + AlertCount(more, k)
  {
    if more == [] {
      assert log + more == log;
    } else {
      var all := log + more;
      assert all[..|all| - 1] == log + more[..|more| - 1];
      AlertCountSplits(log, more[..|more| - 1], k);
    }
  }

  ghost predicate Listed(due: seq<Slot>, k: Key) {
    exists i :: 0 <= i < |due| && due[i].key == k
  }

  lemma {:induction false} OneAlertPerDueSlot(due: seq<Slot>, n: nat, k: Key)
    requires n <= |due| && forall i, j | 0 <= i < j < |due| :: due[i].key != due[j].key
    ensures AlertCount(Alerts(due)[..n], k) == if Listed(due[..n], k) then 1 else 0
  {
    if n > 0 {
      assert Alerts(due)[..n][..n - 1] == Alerts(due)[..n - 1];
      OneAlertPerDueSlot(due, n - 1, k);
      assert due[..n] == due[..n - 1] + [due[n - 1]];
      if Listed(due[..n - 1], k) {
        var i :| 0 <= i < n - 1 && due[..n - 1][i].key == k;
        assert due[..n][i].key == k;
      } else if Listed(due[..n], k) {
        assert due[n - 1].key == k;
      } else {
        assert due[..n][n - 1].key != k;
      }
    }
  }

  lemma InstructionsAreNoAlerts(o: Outcome, a: Arrival, id: string, n: nat, k: Key)
    requires n <= |Instructions(o, a, id)|
    ensures AlertCount(Instructions(o, a, id)[..n], k) == 0
  {
    NoAlertsNoCount(Instructions(o, a, id)[..n], k);
  }

  lemma {:induction false} NoAlertsNoCount(es: seq<Event>, k: Key)
    requires forall i | 0 <= i < |es| :: !es[i].Alerted?
    ensures AlertCount(es, k) == 0
  {
    if es != [] {
      NoAlertsNoCount(es[..|es| - 1], k);
    }
  }

  // ---- one sweep ----

  /** What each overdue slot gets from a sweep, however it ends: marking stops at the
      failed write and then nobody is alerted; alerting stops at the failed publish. */
  lemma SweepAlertsExactly(w: World, now: int, due: seq<Slot>, f: SweepFault, i: nat)
    requires Keyed(w.rows) && IsDueList(w.rows, now, due) && i < |due|
    ensures var w', k := SweptWorld(w, now, due, f), due[i].key;
      && (IsMissing(w'.rows, k) <==> !f.AtRead? && (f.AtMark? ==> i < f.n))
      && AlertCount(w'.log, k) == AlertCount(w.log, k)
           + if f.Never? || (f.AtMark? && f.n >= |due|) || (f.AtAlert? && i < f.n) then 1 else 0
  {
    var n, k := Sent(due, f), due[i].key;
    AlertCountSplits(w.log, Alerts(due)[..n], k);
    OneAlertPerDueSlot(due, n, k);
    ListedBefore(due, n, i);
    MarkedBefore(w.rows, now, due, f, i);
  }

  lemma ListedBefore(due: seq<Slot>, n: nat, i: nat)
    requires n <= |due| && i < |due| && forall i, j | 0 <= i < j < |due| :: due[i].key != due[j].key
    ensures Listed(due[..n], due[i].key) <==> i < n
  {
    if i < n {
      assert due[..n][i].key == due[i].key;
    }
  }

  lemma MarkedBefore(rows: Rows, now: int, due: seq<Slot>, f: SweepFault, i: nat)
    requires Keyed(rows) && IsDueList(rows, now, due) && i < |due|
    ensures IsMissing(SweptUpTo(rows, now, due, f), due[i].key) <==> !f.AtRead? && (f.AtMark? ==> i < f.n)
  {
    if f.AtMark? && f.n < |due| {
      assert due[i] in due[..f.n] <==> i < f.n;
    }
  }

  /** A sweep alerts only slots it turns MISSING. */
  lemma SweepAccount(w: World, now: int, due: seq<Slot>, f: SweepFault, k: Key)
    requires Keyed(w.rows) && IsDueList(w.rows, now, due)
    ensures var w' := SweptWorld(w, now, due, f);
      && AlertCount(w.log, k) <= AlertCount(w'.log, k)
      && AlertCount(w'.log, k) + MissingBit(w.rows, k) <= AlertCount(w.log, k) + MissingBit(w'.rows, k)
      && (IsMissing(w'.rows, k) && !IsMissing(w.rows, k) ==> w.rows[k].deadline < now)
  {
    SweepMarksSome(w.rows, now, due, f);
    if Listed(due, k) {
      var i :| 0 <= i < |due| && due[i].key == k;
      SweepAlertsExactly(w, now, due, f, i);
    } else {
      UnlistedIsNotAlerted(w, due, Sent(due, f), k);
    }
  }

  lemma UnlistedIsNotAlerted(w: World, due: seq<Slot>, n: nat, k: Key)
    requires n <= |due| && !Listed(due, k) && forall i, j | 0 <= i < j < |due| :: due[i].key != due[j].key
    ensures AlertCount(w.log + Alerts(due)[..n], k) == AlertCount(w.log, k)
  {
    AlertCountSplits(w.log, Alerts(due)[..n], k);
    OneAlertPerDueSlot(due, n, k);
  }

  // ---- one handled message ----

  /** A handled message alerts nobody; a slot leaves MISSING only when it accepts. */
  lemma HandleAccount(cfg: Config, w: World, m: Message, now: int, id: string, f: HandlerFault, k: Key)
    requires DeadlinesFixed(cfg, w.rows) && StepOk(w, HandleStep(m, now, id, f))
    ensures var w' := Handled(cfg, w, m, now, id, f);
      && AlertCount(w'.log, k) == AlertCount(w.log, k)
      && (IsMissing(w'.rows, k) ==> IsMissing(w.rows, k))
      && (IsMissing(w.rows, k) && !IsMissing(w'.rows, k) ==>
            m.dispatched && m.arrival.SlotKey() == k && Applied(cfg, w.rows, m.arrival, now).Ok?)
  {
    var a := m.arrival;
    if m.dispatched && Applied(cfg, w.rows, a, now).Ok? {
      var s := Located(cfg, w.rows, a, now).value;
      LocatedSlot(cfg, w.rows, a, now);
      CarriedAccount(cfg, w, s, a, id, f, k);
    }
  }

  lemma CarriedAccount(cfg: Config, w: World, s: Slot, a: Arrival, id: string, f: HandlerFault, k: Key)
    requires IsLocated(cfg, w.rows, a, s) && Placed(s, a).Ok? && a.id != "" && id != ""
    ensures var w' := CarriedUpTo(w, Placed(s, a).value, a, id, f);
      && AlertCount(w'.log, k) == AlertCount(w.log, k)
      && (IsMissing(w'.rows, s.key) ==> IsMissing(w.rows, s.key))
      && (k != s.key ==> Row(w'.rows, k) == Row(w.rows, k))
  {
    var o := Placed(s, a).value;
    if !f.AtStore? {
      CarriedRowsUpTo(cfg, w, s, a, id, f);
    }
    AlertCountSplits(w.log, Instructions(o, a, id)[..Published(o, f)], k);
    InstructionsAreNoAlerts(o, a, id, Published(o, f), k);
  }

  // ---- whole runs ----

  /** Over any steps from any world, whatever breaks off where: alerts for a slot stay
      within one for its turning MISSING and one more per last-minute arrival. */
  lemma {:induction false} AlertsFrom(cfg: Config, w: World, steps: seq<Step>, k: Key, t: int)
    requires DeadlinesFixed(cfg, w.rows) && ValidFrom(cfg, w, steps) && ClockNeverRunsBack(steps)
    requires forall i | 0 <= i < |steps| :: t <= steps[i].now
    requires IsMissing(w.rows, k) ==> w.rows[k].deadline < t
    ensures var end := Continued(cfg, w, steps);
      && DeadlinesFixed(cfg, end.rows)
      && AlertCount(end.log, k) + MissingBit(w.rows, k)
           <= AlertCount(w.log, k) + LastMinuteArrivals(cfg, steps, k) + MissingBit(end.rows, k)
      && AlertCount(w.log, k) <= AlertCount(end.log, k)
      && (IsMissing(end.rows, k) ==> end.rows[k].deadline < if steps == [] then t else steps[|steps| - 1].now)
  {
    if steps != [] {
      var n := |steps| - 1;
      var before, step := steps[..n], steps[n];
      AlertsFrom(cfg, w, before, k, t);
      StepAccount(cfg, Continued(cfg, w, before), step, k, if n > 0 then steps[n - 1].now else t);
    }
  }

  lemma StepAccount(cfg: Config, w: World, step: Step, k: Key, t: int)
    requires DeadlinesFixed(cfg, w.rows) && StepOk(w, step) && t <= step.now
    requires IsMissing(w.rows, k) ==> w.rows[k].deadline < t
    ensures var w' := After(cfg, w, step);
      && DeadlinesFixed(cfg, w'.rows)
      && AlertCount(w'.log, k) + MissingBit(w.rows, k)
           <= AlertCount(w.log, k) + (if IsLastMinute(cfg, step, k) then 1 else 0) + MissingBit(w'.rows, k)
      && AlertCount(w.log, k) <= AlertCount(w'.log, k)
      && (IsMissing(w'.rows, k) ==> w'.rows[k].deadline < step.now)
  {
    var w' := After(cfg, w, step);
    StepKeepsDeadlines(cfg, w, step);
    match step {
      case SweepStep(now, due, f) => SweepAccount(w, now, due, f, k);
      case HandleStep(m, now, id, f) =>
        HandleAccount(cfg, w, m, now, id, f, k);
        if IsMissing(w.rows, k) && !IsMissing(w'.rows, k) && now >= w.rows[k].deadline + MINUTE {
          ClosedAfterTheDeadlineDay(cfg, w.rows, m.arrival, now);
        }
    }
  }

  /** Alerts for a slot never exceed one more than its last-minute arrivals. */
  lemma AlertsAreRationed(cfg: Config, steps: seq<Step>, k: Key)
    requires ValidRun(cfg, steps) && ClockNeverRunsBack(steps)
    ensures var w := Run(cfg, steps);
      AlertCount(w.log, k) <= LastMinuteArrivals(cfg, steps, k) + MissingBit(w.rows, k)
  {
    if steps != [] {
      AlertsFrom(cfg, START, steps, k, steps[0].now);
    }
  }

  /** Two alerts for one slot need an arrival in the last minute of its deadline day. */
  lemma TwoAlertsNeedALastMinuteArrival(cfg: Config, steps: seq<Step>, k: Key)
    requires ValidRun(cfg, steps) && ClockNeverRunsBack(steps)
    requires AlertCount(Run(cfg, steps).log, k) >= 2
    ensures exists i :: 0 <= i < |steps| && IsLastMinute(cfg, steps[i], k)
  {
    AlertsAreRationed(cfg, steps, k);
    SomeLastMinute(cfg, steps, k);
  }

  lemma {:induction false} SomeLastMinute(cfg: Config, steps: seq<Step>, k: Key)
    requires LastMinuteArrivals(cfg, steps, k) > 0
    ensures exists i :: 0 <= i < |steps| && IsLastMinute(cfg, steps[i], k)
  {
    var before := steps[..|steps| - 1];
    if !IsLastMinute(cfg, steps[|steps| - 1], k) {
      SomeLastMinute(cfg, before, k);
      var i :| 0 <= i < |before| && IsLastMinute(cfg, before[i], k);
      assert before[i] == steps[i];
    }
  }

  // ---- alerts that a broken-off sweep did not send ----

  /** Steps that can follow `w` from time `t` on. */
  ghost predicate Follow(cfg: Config, w: World, steps: seq<Step>, t: int) {
    ValidFrom(cfg, w, steps) && ClockNeverRunsBack(steps) && forall i | 0 <= i < |steps| :: t <= steps[i].now
  }

  /** A slot that is MISSING is alerted in no continuation beyond what last-minute
      arrivals bring back: one alert each, and only after leaving MISSING. */
  lemma LostAlertsStayLost(cfg: Config, w: World, steps: seq<Step>, k: Key, t: int)
    requires DeadlinesFixed(cfg, w.rows) && Follow(cfg, w, steps, t)
    requires IsMissing(w.rows, k) && w.rows[k].deadline < t
    ensures var end := Continued(cfg, w, steps);
      AlertCount(end.log, k) + (if IsMissing(end.rows, k) then 0 else 1)
        <= AlertCount(w.log, k) + LastMinuteArrivals(cfg, steps, k)
  {
    AlertsFrom(cfg, w, steps, k, t);
  }

  /** The overdue slots a sweep leaves marked and not alerted: those before the failed
      write, or those from the failed publish on. */
  predicate LosesAlert(due: seq<Slot>, f: SweepFault, i: nat) {
    (f.AtMark? && i < f.n < |due|) || (f.AtAlert? && f.n <= i)
  }

  /** Exactly their alerts are lost: no continuation makes up for them, except as a
      last-minute arrival reopens the slot. */
  lemma InterruptedSweepLosesAlerts(
    cfg: Config, w: World, now: int, due: seq<Slot>, f: SweepFault, i: nat, steps: seq<Step>)
    requires DeadlinesFixed(cfg, w.rows) && IsDueList(w.rows, now, due) && i < |due|
    requires Follow(cfg, SweptWorld(w, now, due, f), steps, now)
    ensures var k, broken := due[i].key, SweptWorld(w, now, due, f);
      var end := Continued(cfg, broken, steps);
      && (LosesAlert(due, f, i) <==>
            IsMissing(broken.rows, k) && AlertCount(broken.log, k) == AlertCount(w.log, k))
      && (LosesAlert(due, f, i) ==>
            AlertCount(end.log, k) + (if IsMissing(end.rows, k) then 0 else 1)
              <= AlertCount(w.log, k) + LastMinuteArrivals(cfg, steps, k))
  {
    var k, broken := due[i].key, SweptWorld(w, now, due, f);
    SweepAlertsExactly(w, now, due, f, i);
    StepKeepsDeadlines(cfg, w, SweepStep(now, due, f));
    if LosesAlert(due, f, i) {
      SweepAccount(w, now, due, f, k);
      LostAlertsStayLost(cfg, broken, steps, k, now);
    }
  }

  ghost predicate AlertedAgain(cfg: Config, w: World, steps: seq<Step>, k: Key) {
    AlertCount(Continued(cfg, w, steps).log, k) > AlertCount(w.log, k)
  }

  /** So a slot whose alert was lost can still be alerted if and only if it is not yet
      midnight of its deadline day. */
  lemma AlertedAgainExactlyBeforeMidnight(cfg: Config, w: World, k: Key, t: int)
    requires DeadlinesFixed(cfg, w.rows) && IsMissing(w.rows, k) && !w.rows[k].Complete() && w.rows[k].deadline < t
    requires k.client in cfg.clients && cfg.clients[k.client].ExpectationFor(k.domain).Some?
    ensures (exists steps :: Follow(cfg, w, steps, t) && AlertedAgain(cfg, w, steps, k))
      <==> t < w.rows[k].deadline + MINUTE
  {
    forall steps | Follow(cfg, w, steps, t) && AlertedAgain(cfg, w, steps, k)
      ensures t < w.rows[k].deadline + MINUTE
    {
      LostAlertsStayLost(cfg, w, steps, k, t);
      SomeLastMinute(cfg, steps, k);
    }
    if t < w.rows[k].deadline + MINUTE {
      var steps := LastMinuteSweep(cfg, w, k, t);
    }
  }

  /** A file for the side the slot has already, or for either if it has none. */
  function Replacement(s: Slot, id: string): Message {
    Message(true, Arrival(id, s.key.client, s.key.domain, s.key.valueDate,
                          if s.side2 == "" then SIDE_INTERNAL_GL else SIDE_EXTERNAL_CLIENT))
  }

  /** On its deadline day a slot still takes an arrival for either side. */
  lemma AcceptedOnTheDeadlineDay(cfg: Config, rows: Rows, k: Key, t: int, a: Arrival)
    requires DeadlinesFixed(cfg, rows) && k in rows && rows[k].deadline <= t < rows[k].deadline + MINUTE
    requires k.client in cfg.clients && cfg.clients[k.client].ExpectationFor(k.domain).Some?
    requires a.SlotKey() == k
    ensures Located(cfg, rows, a, t) == Ok(rows[k])
  {
    var (vd, cal) := cfg.Dated(k.client, k.valueDate).value;
    AcceptanceSeenFromTheSlot(cfg, k.client, k.valueDate, t);
    cal.StepsToForward(vd, cfg.Window(k.client));
    DayOfDeadline(cfg.DeadlineDay(k.client, k.valueDate).value, t);
  }

  /** The file is accepted, leaves the slot incomplete and overdue, and the next sweep
      finds it. */
  lemma LastMinuteSweep(cfg: Config, w: World, k: Key, t: int) returns (steps: seq<Step>)
    requires DeadlinesFixed(cfg, w.rows) && IsMissing(w.rows, k) && !w.rows[k].Complete()
    requires w.rows[k].deadline < t < w.rows[k].deadline + MINUTE
    requires k.client in cfg.clients && cfg.clients[k.client].ExpectationFor(k.domain).Some?
    ensures Follow(cfg, w, steps, t) && AlertedAgain(cfg, w, steps, k)
  {
    var id := NewId(w.log);
    var first := HandleStep(Replacement(w.rows[k], "r"), t, id, HandlerFault.Never);
    var w1 := After(cfg, w, first);
    AcceptedOnTheDeadlineDay(cfg, w.rows, k, t, Replacement(w.rows[k], "r").arrival);
    ReopenedByReplacement(cfg, w, k, t, id);
    StepKeepsDeadlines(cfg, w, first);
    var due := SweepFinds(w1, k, t);
    TwoSteps(cfg, w, first, SweepStep(t, due, SweepFault.Never));
    steps := [first, SweepStep(t, due, SweepFault.Never)];
  }

  lemma SweepFinds(w: World, k: Key, t: int) returns (due: seq<Slot>)
    requires Keyed(w.rows) && k in w.rows && Due(w.rows[k], t)
    ensures IsDueList(w.rows, t, due)
    ensures AlertCount(SweptWorld(w, t, due, SweepFault.Never).log, k) == AlertCount(w.log, k) + 1
  {
    DueListExists(w.rows, t);
    due :| IsDueList(w.rows, t, due);
    assert w.rows[k] in due;
    var i :| 0 <= i < |due| && due[i] == w.rows[k];
    SweepAlertsExactly(w, t, due, SweepFault.Never, i);
  }

  lemma ReopenedByReplacement(cfg: Config, w: World, k: Key, t: int, id: string)
    requires Keyed(w.rows) && k in w.rows && !w.rows[k].Complete()
    requires Located(cfg, w.rows, Replacement(w.rows[k], "r").arrival, t) == Ok(w.rows[k])
    ensures var w1 := Handled(cfg, w, Replacement(w.rows[k], "r"), t, id, HandlerFault.Never);
      && w1.log == w.log
      && k in w1.rows && w1.rows[k].state == PARTIAL && w1.rows[k].deadline == w.rows[k].deadline
  {}

  lemma TwoSteps(cfg: Config, w: World, first: Step, second: Step)
    requires StepOk(w, first) && StepOk(After(cfg, w, first), second)
    ensures ValidFrom(cfg, w, [first, second])
    ensures Continued(cfg, w, [first, second]) == After(cfg, After(cfg, w, first), second)
  {
    assert [first, second][..1] == [first] && [first][..0] == [];
    assert ValidFrom(cfg, w, []) && Continued(cfg, w, []) == w;
    assert ValidFrom(cfg, w, [first]) && Continued(cfg, w, [first]) == After(cfg, w, first);
  }

  /** An id longer than every id issued. */
  lemma NewId(log: seq<Event>) returns (id: string)
    ensures id != "" && !Issued(log, id)
    ensures forall e | e in log && e.Assigned? :: |e.id| < |id|
  {
    if log == [] {
      id := "x";
    } else {
      var e := log[|log| - 1];
      id := NewId(log[..|log| - 1]);
      id := id + if e.Assigned? then e.id else "";
      assert log == log[..|log| - 1] + [e];
    }
  }
}
