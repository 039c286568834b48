/** The slot lifecycle (go/internal/slot/slot.go).

    Times are nanoseconds since the start of day 0 in UTC, dates are day numbers.
    The clock reading a call makes is its `now` parameter. */
module Slots {
  import opened Basics
  import opened Calendars

  const MINUTE := 60_000_000_000
  const DAY := 86_400_000_000_000
  const SIDE_INTERNAL_GL := "INTERNAL_GL"
  const SIDE_EXTERNAL_CLIENT := "EXTERNAL_CLIENT"

  datatype State = OPEN | PARTIAL | ASSIGNED | SUPERSEDED | MISSING

  datatype Key = Key(client: string, domain: string, valueDate: string)

  datatype Slot = Slot(
    key: Key, state: State, expectation: string, side1: string, side2: string,
    assignment: string, openedAt: int, deadline: int)
  {
    predicate Complete() {
      side1 != "" && side2 != ""
    }

    function MissingSide(): string {
      if side1 == "" then SIDE_INTERNAL_GL
      else if side2 == "" then SIDE_EXTERNAL_CLIENT
      else ""
    }
  }

  datatype Arrival = Arrival(id: string, client: string, domain: string, valueDate: string, side: string) {
    function SlotKey(): Key {
      Key(client, domain, valueDate)
    }
  }

  datatype Outcome = Outcome(slot: Slot, assign: bool, supersedes: string, reason: string)

  datatype Error =
    | BadDate
    | NoCalendar
    | OutsideWindow
    | UnknownClient
    | NoExpectation
    | UnknownSide
    | NoSlot
    | Unavailable

  // ---- configuration ----

  datatype Expectation = Expectation(id: string, domain: string)

  datatype Client = Client(calendar: string, lateWindowDays: int, expectations: seq<Expectation>) {
    function ExpectationFor(domain: string): Option<Expectation> {
      FirstFor(expectations, domain)
    }
  }

  function FirstFor(es: seq<Expectation>, domain: string): Option<Expectation> {
    if es == [] then None else if es[0].domain == domain then Some(es[0]) else FirstFor(es[1..], domain)
  }

  /** What the machine is built from: the registry, a YYYY-MM-DD parser, and the
      window used when a client sets none. */
  datatype Config = Config(
    clients: map<string, Client>, calendars: map<string, Calendar>,
    parseDate: string -> Option<int>, fallbackWindow: int)
  {
    function CalendarFor(client: string): Option<Calendar> {
      if client in clients && clients[client].calendar in calendars
      then Some(calendars[clients[client].calendar])
      else None
    }

    function Window(client: string): (w: int)
      ensures w > 0
    {
      if client in clients && clients[client].lateWindowDays > 0 then clients[client].lateWindowDays
      else if fallbackWindow <= 0 then 2
      else fallbackWindow
    }

    /** The value date and calendar of a slot, or why it has none. */
    function Dated(client: string, valueDate: string): Result<(int, Calendar), Error> {
      match parseDate(valueDate)
      case None => Err(BadDate)
      case Some(vd) =>
        match CalendarFor(client)
        case None => Err(NoCalendar)
        case Some(cal) => Ok((vd, cal))
    }

    function Accepts(client: string, valueDate: string, now: int): Result<bool, Error> {
      var (vd, cal) :- Dated(client, valueDate);
      var w := Window(client);
      Ok(cal.Add(now / DAY, 0 - w) <= vd <= cal.Add(now / DAY, w))
    }

    function DeadlineDay(client: string, valueDate: string): Result<int, Error> {
      var (vd, cal) :- Dated(client, valueDate);
      Ok(cal.Add(vd, Window(client)))
    }

    function Deadline(client: string, valueDate: string): Result<int, Error> {
      var day :- DeadlineDay(client, valueDate);
      Ok(day * DAY + (DAY - MINUTE))
    }
  }

  // ---- the table ----

  type Rows = map<Key, Slot>

  ghost predicate Keyed(rows: Rows) {
    forall k | k in rows :: rows[k].key == k
  }

  function Coalesce(incoming: string, stored: string): string {
    if incoming != "" then incoming else stored
  }

  /** ON CONFLICT DO UPDATE: state and deadline are replaced, sides and assignment
      only when the incoming value is not blank, the rest never. */
  function Merge(stored: Slot, s: Slot): Slot {
    stored.(
      state := s.state,
      side1 := Coalesce(s.side1, stored.side1),
      side2 := Coalesce(s.side2, stored.side2),
      assignment := Coalesce(s.assignment, stored.assignment),
      deadline := s.deadline)
  }

  function Upserted(rows: Rows, s: Slot): Rows {
    rows[s.key := if s.key in rows then Merge(rows[s.key], s) else s]
  }

  predicate Due(s: Slot, t: int) {
    s.deadline < t && s.state != ASSIGNED && s.state != MISSING
  }

  /** `due` lists the overdue rows, each once, in any order. */
  ghost predicate IsDueList(rows: Rows, t: int, due: seq<Slot>) {
    && (forall i, j | 0 <= i < j < |due| :: due[i].key != due[j].key)
    && (forall i | 0 <= i < |due| :: due[i].key in rows && rows[due[i].key] == due[i] && Due(due[i], t))
    && (forall k | k in rows && Due(rows[k], t) :: rows[k] in due)
  }

  /** One slot table; every statement is atomic. */
  class SqlStore {
    var rows: Rows

    constructor ()
      ensures rows == map[]
    {
      rows := map[];
    }

    method Get(k: Key) returns (s: Option<Slot>)
      ensures s == if k in rows then Some(rows[k]) else None
    {
      s := if k in rows then Some(rows[k]) else None;
    }

    method Upsert(s: Slot)
      modifies this
      ensures rows == Upserted(old(rows), s)
    {
      if s.key in rows {
        var r := rows[s.key];
        r := r.(state := s.state, deadline := s.deadline);
        if s.side1 != "" {
          r := r.(side1 := s.side1);
        }
        if s.side2 != "" {
          r := r.(side2 := s.side2);
        }
        if s.assignment != "" {
          r := r.(assignment := s.assignment);
        }
        rows := rows[s.key := r];
      } else {
        rows := rows[s.key := s];
      }
    }

    method DueBefore(t: int) returns (due: seq<Slot>)
      requires Keyed(rows)
      ensures IsDueList(rows, t, due)
    {
      due := [];
      var todo := rows.Keys;
      while todo != {}
        invariant todo <= rows.Keys
        invariant forall i | 0 <= i < |due| ::
            due[i].key in rows && due[i].key !in todo && rows[due[i].key] == due[i] && Due(due[i], t)
        invariant forall i, j | 0 <= i < j < |due| :: due[i].key != due[j].key
        invariant forall k | k in rows && k !in todo && Due(rows[k], t) :: rows[k] in due
        decreases todo
      {
        var k :| k in todo;
        todo := todo - {k};
        if Due(rows[k], t) {
          due := due + [rows[k]];
        }
      }
    }
  }

  // ---- applying an arrival ----

  function DescribeSide(existing: string, name: string): string {
    if existing == "" then "first " + name + " file for this slot"
    else "replacement " + name + " file for this slot"
  }

  /** The stored slot an arrival belongs to, or a fresh OPEN one. */
  function Located(cfg: Config, rows: Rows, a: Arrival, now: int): Result<Slot, Error> {
    var ok :- cfg.Accepts(a.client, a.valueDate, now);
    if !ok then Err(OutsideWindow)
    else if a.client !in cfg.clients then Err(UnknownClient)
    else
      match cfg.clients[a.client].ExpectationFor(a.domain)
      case None => Err(NoExpectation)
      case Some(e) =>
        if a.SlotKey() in rows then Ok(rows[a.SlotKey()])
        else
          var deadline :- cfg.Deadline(a.client, a.valueDate);
          Ok(Slot(a.SlotKey(), OPEN, e.id, "", "", "", now, deadline))
  }

  /** What putting the arrival on its side does to the slot. */
  function Placed(s: Slot, a: Arrival): Result<Outcome, Error> {
    if a.side != SIDE_INTERNAL_GL && a.side != SIDE_EXTERNAL_CLIENT then Err(UnknownSide)
    else
      var gl := a.side == SIDE_INTERNAL_GL;
      var t := if gl then s.(side1 := a.id) else s.(side2 := a.id);
      var note := if gl then DescribeSide(s.side1, "internal GL") else DescribeSide(s.side2, "external client");
      Ok(if t.Complete() && s.state == ASSIGNED then
           Outcome(t.(state := ASSIGNED), true, s.assignment, "correction supersedes a dispatched assignment")
         else if t.Complete() then Outcome(t.(state := ASSIGNED), true, "", note)
         else Outcome(t.(state := PARTIAL), false, "", note))
  }

  /** A table write that fails after everything before it went well. */
  function Attempted<T>(r: Result<T, Error>, down: bool): Result<T, Error> {
    if r.Ok? && down then Err(Unavailable) else r
  }

  function Applied(cfg: Config, rows: Rows, a: Arrival, now: int): Result<Outcome, Error> {
    var s :- Located(cfg, rows, a, now);
    Placed(s, a)
  }

  // ---- what an arrival leads to, read off the configuration ----

  /** The window of a client: its own if it is positive, else the machine's, else two days. */
  predicate IsWindow(cfg: Config, client: string, w: int) {
    var own := client in cfg.clients && cfg.clients[client].lateWindowDays > 0;
    && (own ==> w == cfg.clients[client].lateWindowDays)
    && (!own && cfg.fallbackWindow > 0 ==> w == cfg.fallbackWindow)
    && (!own && cfg.fallbackWindow <= 0 ==> w == 2)
  }

  predicate HasCalendar(cfg: Config, client: string) {
    client in cfg.clients && cfg.clients[client].calendar in cfg.calendars
  }

  /** The value date read, the client's calendar and its window. */
  datatype Terms = Terms(date: int, calendar: Calendar, window: int)

  ghost predicate AreTerms(cfg: Config, a: Arrival, t: Terms) {
    && cfg.parseDate(a.valueDate) == Some(t.date) && IsWindow(cfg, a.client, t.window)
    && HasCalendar(cfg, a.client) && t.calendar == cfg.calendars[cfg.clients[a.client].calendar]
  }

  predicate Near(t: Terms, today: int) {
    t.calendar.Add(today, 0 - t.window) <= t.date <= t.calendar.Add(today, t.window)
  }

  ghost predicate InTime(cfg: Config, a: Arrival, now: int) {
    exists t :: AreTerms(cfg, a, t) && Near(t, now / DAY)
  }

  /** The `i`-th expectation is the first for the domain. */
  ghost predicate IsExpected(es: seq<Expectation>, domain: string, i: int) {
    0 <= i < |es| && es[i].domain == domain && forall j | 0 <= j < i :: es[j].domain != domain
  }

  ghost predicate Covers(es: seq<Expectation>, domain: string) {
    exists i :: 0 <= i < |es| && es[i].domain == domain
  }

  /** The client expects files of the domain. */
  ghost predicate Expects(cfg: Config, a: Arrival) {
    a.client in cfg.clients && Covers(cfg.clients[a.client].expectations, a.domain)
  }

  predicate KnownSide(side: string) {
    side == SIDE_INTERNAL_GL || side == SIDE_EXTERNAL_CLIENT
  }

  /** Which arrivals are refused, and as what. */
  ghost predicate Refusals(cfg: Config, a: Arrival, now: int, r: Result<Outcome, Error>) {
    var dated, hasCalendar := cfg.parseDate(a.valueDate).Some?, HasCalendar(cfg, a.client);
    && (r == Err(BadDate) <==> !dated)
    && (r == Err(NoCalendar) <==> dated && !hasCalendar)
    && (r == Err(OutsideWindow) <==> dated && hasCalendar && !InTime(cfg, a, now))
    && (r == Err(NoExpectation) <==> InTime(cfg, a, now) && !Expects(cfg, a))
    && (r == Err(UnknownSide) <==> InTime(cfg, a, now) && Expects(cfg, a) && !KnownSide(a.side))
    && (r.Ok? <==> InTime(cfg, a, now) && Expects(cfg, a) && KnownSide(a.side))
  }

  /** A slot the arrival opens: against the first expectation of its domain, due at 23:59
      of the day a window after its value date. */
  ghost predicate Opens(cfg: Config, a: Arrival, now: int, s: Slot) {
    && s.key == Key(a.client, a.domain, a.valueDate) && s.openedAt == now && s.assignment == ""
    && a.client in cfg.clients
    && (exists i :: IsExpected(cfg.clients[a.client].expectations, a.domain, i)
          && s.expectation == cfg.clients[a.client].expectations[i].id)
    && exists t :: AreTerms(cfg, a, t) && s.deadline == (t.calendar.Add(t.date, t.window) + 1) * DAY - MINUTE
  }

  /** The arrival takes its side of the slot and leaves the other; the slot is complete
      exactly with both, and an assignment is due exactly then, replacing the one of a slot
      that was ASSIGNED. `before` is the stored row, if there is one. */
  ghost predicate Fills(a: Arrival, before: Option<Slot>, o: Outcome) {
    var was1, was2 := if before.Some? then before.value.side1 else "", if before.Some? then before.value.side2 else "";
    && o.slot.side1 == (if a.side == SIDE_INTERNAL_GL then a.id else was1)
    && o.slot.side2 == (if a.side == SIDE_EXTERNAL_CLIENT then a.id else was2)
    && (o.assign <==> o.slot.side1 != "" && o.slot.side2 != "")
    && o.slot.state == (if o.assign then ASSIGNED else PARTIAL)
    && o.supersedes ==
      (if o.assign && before.Some? && before.value.state == ASSIGNED then before.value.assignment else "")
  }

  predicate SameIdentity(s: Slot, t: Slot) {
    && s.key == t.key && s.expectation == t.expectation && s.assignment == t.assignment
    && s.openedAt == t.openedAt && s.deadline == t.deadline
  }

  /** What an accepted arrival makes of its slot, stored or opened. */
  ghost predicate Accepted(cfg: Config, rows: Rows, a: Arrival, now: int, o: Outcome) {
    var before := if a.SlotKey() in rows then Some(rows[a.SlotKey()]) else None;
    && Fills(a, before, o)
    && (before.None? ==> Opens(cfg, a, now, o.slot))
    && (before.Some? ==> SameIdentity(o.slot, before.value))
  }

  /** The row after the write: a blank id leaves the side as it was stored. */
  ghost predicate Written(rows: Rows, after: Rows, a: Arrival, o: Outcome) {
    && o.slot.key in after && after.Keys == rows.Keys + {o.slot.key}
    && (forall k | k in rows && k != o.slot.key :: after[k] == rows[k])
    && (a.id != "" || o.slot.key !in rows ==> after[o.slot.key] == o.slot)
    && (a.id == "" && o.slot.key in rows ==> after[o.slot.key] == rows[o.slot.key].(state := o.slot.state))
  }

  lemma {:induction false} FirstForIsFirst(es: seq<Expectation>, domain: string)
    ensures FirstFor(es, domain).None? <==> !Covers(es, domain)
    ensures FirstFor(es, domain).Some? ==> exists i :: IsExpected(es, domain, i) && FirstFor(es, domain).value == es[i]
  {
    if es != [] {
      if es[0].domain == domain {
        assert IsExpected(es, domain, 0);
      } else {
        var rest := es[1..];
        FirstForIsFirst(rest, domain);
        assert forall i | 0 <= i < |rest| :: rest[i] == es[i + 1];
        assert forall i | 0 < i < |es| :: es[i] == rest[i - 1];
        if FirstFor(rest, domain).Some? {
          var i :| IsExpected(rest, domain, i) && FirstFor(rest, domain).value == rest[i];
          assert IsExpected(es, domain, i + 1);
        }
      }
    }
  }

  lemma TermsAre(cfg: Config, a: Arrival, t: Terms)
    requires AreTerms(cfg, a, t)
    ensures cfg.Dated(a.client, a.valueDate) == Ok((t.date, t.calendar)) && cfg.Window(a.client) == t.window
  {}

  lemma HaveTerms(cfg: Config, a: Arrival)
    ensures var d := cfg.Dated(a.client, a.valueDate);
      d.Ok? ==> AreTerms(cfg, a, Terms(d.value.0, d.value.1, cfg.Window(a.client)))
  {}

  lemma AcceptsInTime(cfg: Config, a: Arrival, now: int)
    ensures InTime(cfg, a, now) <==> cfg.Accepts(a.client, a.valueDate, now) == Ok(true)
  {
    HaveTerms(cfg, a);
    var d := cfg.Dated(a.client, a.valueDate);
    if d.Ok? {
      var mine := Terms(d.value.0, d.value.1, cfg.Window(a.client));
      forall t | AreTerms(cfg, a, t) ensures t == mine {
        TermsAre(cfg, a, t);
      }
    }
  }

  /** Exactly which arrivals are refused, in terms of the configuration. */
  lemma RefusedExactlyWhen(cfg: Config, rows: Rows, a: Arrival, now: int)
    ensures Refusals(cfg, a, now, Applied(cfg, rows, a, now))
  {
    AcceptsInTime(cfg, a, now);
    if a.client in cfg.clients {
      FirstForIsFirst(cfg.clients[a.client].expectations, a.domain);
    }
  }

  lemma PlacedFills(s: Slot, a: Arrival, before: Option<Slot>)
    requires if before.Some? then s == before.value else s.side1 == "" && s.side2 == "" && s.state == OPEN
    requires KnownSide(a.side)
    ensures Placed(s, a).Ok? && Fills(a, before, Placed(s, a).value) && SameIdentity(Placed(s, a).value.slot, s)
  {}

  /** What an arrival that is not refused makes of its slot. */
  lemma AcceptedArrivalFills(cfg: Config, rows: Rows, a: Arrival, now: int)
    requires Applied(cfg, rows, a, now).Ok?
    ensures Accepted(cfg, rows, a, now, Applied(cfg, rows, a, now).value)
  {
    FirstForIsFirst(cfg.clients[a.client].expectations, a.domain);
    HaveTerms(cfg, a);
    var before := if a.SlotKey() in rows then Some(rows[a.SlotKey()]) else None;
    PlacedFills(Located(cfg, rows, a, now).value, a, before);
  }

  /** What the table holds after the write. */
  lemma AcceptedArrivalIsWritten(cfg: Config, rows: Rows, a: Arrival, now: int)
    requires Keyed(rows) && Applied(cfg, rows, a, now).Ok?
    ensures var o := Applied(cfg, rows, a, now).value;
      Written(rows, Upserted(rows, o.slot), a, o)
  {
    RefusedExactlyWhen(cfg, rows, a, now);
    AcceptedArrivalFills(cfg, rows, a, now);
    FilledIsWritten(rows, a, Applied(cfg, rows, a, now).value);
  }

  lemma FilledIsWritten(rows: Rows, a: Arrival, o: Outcome)
    requires Keyed(rows) && KnownSide(a.side)
    requires var before := if o.slot.key in rows then Some(rows[o.slot.key]) else None;
      Fills(a, before, o) && (before.Some? ==> SameIdentity(o.slot, before.value))
    ensures Written(rows, Upserted(rows, o.slot), a, o)
  {}

  class Machine {
    const cfg: Config
    const store: SqlStore

    constructor (cfg: Config, store: SqlStore)
      ensures this.cfg == cfg && this.store == store
    {
      this.cfg := cfg;
      this.store := store;
    }

    method Accepts(client: string, valueDate: string, now: int) returns (r: Result<bool, Error>)
      ensures r == cfg.Accepts(client, valueDate, now)
    {
      var dated := cfg.Dated(client, valueDate);
      if dated.Err? {
        return Err(dated.error);
      }
      var (vd, cal) := dated.value;
      var w := cfg.Window(client);
      var earliest := cal.AddBusinessDays(now / DAY, 0 - w);
      var latest := cal.AddBusinessDays(now / DAY, w);
      r := Ok(!(vd < earliest) && !(vd > latest));
    }

    method DeadlineFor(client: string, valueDate: string) returns (r: Result<int, Error>)
      ensures r == cfg.Deadline(client, valueDate)
    {
      var dated := cfg.Dated(client, valueDate);
      if dated.Err? {
        return Err(dated.error);
      }
      var (vd, cal) := dated.value;
      var day := cal.AddBusinessDays(vd, cfg.Window(client));
      r := Ok(day * DAY + (DAY - MINUTE));
    }

    /** `down`: the write at the end fails. A read that fails changes nothing either. */
    method Apply(a: Arrival, now: int, down: bool) returns (r: Result<Outcome, Error>)
      requires Keyed(store.rows)
      modifies store
      ensures r == Attempted(Applied(cfg, old(store.rows), a, now), down)
      ensures store.rows == if r.Ok? then Upserted(old(store.rows), r.value.slot) else old(store.rows)
      ensures r != Err(Unavailable) ==> Refusals(cfg, a, now, r)
      ensures r.Ok? ==> Accepted(cfg, old(store.rows), a, now, r.value)
    {
      RefusedExactlyWhen(cfg, store.rows, a, now);
      var ok := Accepts(a.client, a.valueDate, now);
      if ok.Err? {
        return Err(ok.error);
      }
      if !ok.value {
        return Err(OutsideWindow);
      }
      if a.client !in cfg.clients {
        return Err(UnknownClient);
      }
      var exp := cfg.clients[a.client].ExpectationFor(a.domain);
      if exp.None? {
        return Err(NoExpectation);
      }
      var key := a.SlotKey();
      var found := store.Get(key);
      var s;
      if found.None? {
        var deadline := DeadlineFor(a.client, a.valueDate);
        if deadline.Err? {
          return Err(deadline.error);
        }
        s := Slot(key, OPEN, exp.value.id, "", "", "", now, deadline.value);
      } else {
        s := found.value;
      }
      var replacing := s.state == ASSIGNED;
      var supersedes, assign, reason := "", false, "";
      if a.side == SIDE_INTERNAL_GL {
        reason := DescribeSide(s.side1, "internal GL");
        s := s.(side1 := a.id);
      } else if a.side == SIDE_EXTERNAL_CLIENT {
        reason := DescribeSide(s.side2, "external client");
        s := s.(side2 := a.id);
      } else {
        return Err(UnknownSide);
      }
      if s.Complete() && replacing {
        supersedes := s.assignment;
        assign := true;
        s := s.(state := ASSIGNED);
        reason := "correction supersedes a dispatched assignment";
      } else if s.Complete() {
        assign := true;
        s := s.(state := ASSIGNED);
      } else {
        s := s.(state := PARTIAL);
      }
      if down {
        return Err(Unavailable);
      }
      AcceptedArrivalFills(cfg, store.rows, a, now);
      r := Ok(Outcome(s, assign, supersedes, reason));
      store.Upsert(s);
    }

    method RecordAssignment(k: Key, id: string, down: bool) returns (r: Result<(), Error>)
      requires Keyed(store.rows)
      modifies store
      ensures r == Attempted(if k in old(store.rows) then Ok(()) else Err(NoSlot), down)
      ensures store.rows ==
        if r.Ok? then Upserted(old(store.rows), old(store.rows)[k].(assignment := id, state := ASSIGNED))
        else old(store.rows)
    {
      var found := store.Get(k);
      if found.None? {
        return Err(NoSlot);
      }
      var s := found.value;
      s := s.(assignment := id, state := ASSIGNED);
      if down {
        return Err(Unavailable);
      }
      store.Upsert(s);
      r := Ok(());
    }

    /** Marks every overdue slot MISSING and returns them as marked; a write that fails
        leaves the rows before it marked and returns none of them. */
    method Overdue(now: int, fault: SweepFault) returns (r: Result<seq<Slot>, Error>)
      requires Keyed(store.rows)
      modifies store
      ensures exists due ::
        && IsDueList(old(store.rows), now, due)
        && store.rows == SweptUpTo(old(store.rows), now, due, fault)
        && r == Attempted(Ok(Marked(due)), StopsMarking(due, fault))
    {
      if fault.AtRead? {
        DueListExists(store.rows, now);
        return Err(Unavailable);
      }
      var due := store.DueBefore(now);
      var out := [];
      ghost var before := store.rows;
      for i := 0 to |due|
        invariant out == Marked(due[..i])
        invariant store.rows == PartlySwept(before, due[..i])
        invariant fault.AtMark? ==> i <= fault.n
      {
        var s := due[i];
        if s.state == ASSIGNED || s.state == MISSING {
          continue;
        }
        s := s.(state := MISSING);
        if fault == AtMark(i) {
          return Err(Unavailable);
        }
        store.Upsert(s);
        MarkedOneMore(before, due, i, now);
        out := out + [s];
      }
      assert due[..|due|] == due;
      SweptWhole(before, now, due);
      r := Ok(out);
    }
  }

  // ---- what a sweep does ----

  function Marked(due: seq<Slot>): (out: seq<Slot>)
    ensures |out| == |due| && forall i | 0 <= i < |due| :: out[i] == due[i].(state := MISSING)
  {
    seq(|due|, i requires 0 <= i < |due| => due[i].(state := MISSING))
  }

  function Swept(rows: Rows, now: int): Rows {
    map k | k in rows :: if Due(rows[k], now) then rows[k].(state := MISSING) else rows[k]
  }

  /** A sweep marks exactly the slots past their deadline that are not assigned. */
  lemma SweepMarksTheLate(rows: Rows, now: int, k: Key)
    requires k in rows
    ensures Swept(rows, now).Keys == rows.Keys
    ensures var s := rows[k];
      Swept(rows, now)[k] ==
        if s.deadline < now && (s.state == OPEN || s.state == PARTIAL || s.state == SUPERSEDED)
        then s.(state := MISSING) else s
  {}

  function PartlySwept(rows: Rows, due: seq<Slot>): Rows {
    map k | k in rows :: if rows[k] in due then rows[k].(state := MISSING) else rows[k]
  }

  /** Where a sweep breaks off: reading the overdue rows, marking the n-th of them, or
      publishing the n-th alert. */
  datatype SweepFault = Never | AtRead | AtMark(n: nat) | AtAlert(n: nat)

  predicate StopsMarking(due: seq<Slot>, f: SweepFault) {
    f.AtRead? || (f.AtMark? && f.n < |due|)
  }

  function SweptUpTo(rows: Rows, now: int, due: seq<Slot>, f: SweepFault): Rows {
    if f.AtRead? then rows
    else if f.AtMark? && f.n < |due| then PartlySwept(rows, due[..f.n])
    else Swept(rows, now)
  }

  lemma MarkedOneMore(rows: Rows, due: seq<Slot>, i: nat, now: int)
    requires Keyed(rows) && IsDueList(rows, now, due) && i < |due|
    ensures PartlySwept(rows, due[..i + 1]) == Upserted(PartlySwept(rows, due[..i]), due[i].(state := MISSING))
    ensures Marked(due[..i + 1]) == Marked(due[..i]) + [due[i].(state := MISSING)]
  {
    var some, s := due[..i], due[i];
    assert due[..i + 1] == some + [s];
    assert rows[s.key] !in some;
    forall k | k in rows && k != s.key ensures rows[k] in some + [s] <==> rows[k] in some {
      assert rows[k] != s;
    }
  }

  lemma DueListExists(rows: Rows, t: int)
    requires Keyed(rows)
    ensures exists due :: IsDueList(rows, t, due)
  {
    var due := DueAmong(rows, t, rows.Keys);
    assert forall i | 0 <= i < |due| :: due[i] in due;
    assert IsDueList(rows, t, due);
  }

  lemma DueAmong(rows: Rows, t: int, keys: set<Key>) returns (due: seq<Slot>)
    requires Keyed(rows) && keys <= rows.Keys
    ensures forall i, j | 0 <= i < j < |due| :: due[i].key != due[j].key
    ensures forall s :: s in due <==> s.key in keys && rows[s.key] == s && Due(s, t)
    decreases keys
  {
    if keys == {} {
      due := [];
    } else {
      var k :| k in keys;
      due := DueAmong(rows, t, keys - {k});
      if Due(rows[k], t) {
        due := due + [rows[k]];
      }
    }
  }

  lemma SweptWhole(rows: Rows, now: int, due: seq<Slot>)
    requires IsDueList(rows, now, due)
    ensures PartlySwept(rows, due) == Swept(rows, now)
  {
    forall k | k in rows ensures rows[k] in due <==> Due(rows[k], now) {
      if rows[k] in due {
        var i :| 0 <= i < |due| && due[i] == rows[k];
      }
    }
  }

  // ---- acceptance and deadline are two sides of one adjunction ----

  /** Read from the slot's side: it accepts exactly from its value date less the window
      to its value date plus the window, and the second bound is its deadline day. */
  lemma AcceptanceSeenFromTheSlot(cfg: Config, client: string, valueDate: string, now: int)
    requires cfg.Dated(client, valueDate).Ok?
    ensures var (vd, cal) := cfg.Dated(client, valueDate).value;
      cfg.Accepts(client, valueDate, now)
        == Ok(cal.Add(vd, 0 - cfg.Window(client)) <= now / DAY <= cfg.DeadlineDay(client, valueDate).value)
  {
    var (vd, cal) := cfg.Dated(client, valueDate).value;
    var w: nat := cfg.Window(client);
    cal.Adjunction(vd, now / DAY, w);
    cal.Adjunction(now / DAY, vd, w);
  }

  /** A slot opened by Apply is due no earlier than 23:59 of the day it opened. */
  lemma OpenedSlotIsNotYetDue(cfg: Config, rows: Rows, a: Arrival, now: int)
    requires Applied(cfg, rows, a, now).Ok? && a.SlotKey() !in rows
    ensures Applied(cfg, rows, a, now).value.slot.deadline >= (now / DAY) * DAY + (DAY - MINUTE)
  {
    AcceptanceSeenFromTheSlot(cfg, a.client, a.valueDate, now);
  }

  /** Once the deadline day is over every arrival for the slot is refused, whatever
      state the slot is in: this, not a check for MISSING, is what closes it. */
  lemma ClosedAfterTheDeadlineDay(cfg: Config, rows: Rows, a: Arrival, now: int)
    requires cfg.Deadline(a.client, a.valueDate).Ok?
    requires now >= cfg.Deadline(a.client, a.valueDate).value + MINUTE
    ensures Applied(cfg, rows, a, now) == Err(OutsideWindow)
  {
    AcceptanceSeenFromTheSlot(cfg, a.client, a.valueDate, now);
    DayOfDeadline(cfg.DeadlineDay(a.client, a.valueDate).value, now);
  }

  lemma DayOfDeadline(day: int, now: int)
    ensures now >= day * DAY + (DAY - MINUTE) + MINUTE <==> now / DAY > day
  {}
}
