/** Which business day a file is about (python/src/inspector/valuedate.py) and how a file
    that spans several is split (main.py, classify). Dates are day numbers; how cells,
    filenames and headers are read is an arbitrary Reader. */
module ValueDates {
  import opened Basics
  import opened Calendars

  type Header = string

  datatype Row = Row(cells: map<Header, string>)

  datatype Method = CONTENT_EXPLICIT | CONTENT_INFERRED | FILENAME | ARRIVAL_MINUS_CALENDAR

  const CONF_CONTENT_EXPLICIT := 0.97
  const CONF_CONTENT_INFERRED := 0.85
  const CONF_FILENAME := 0.70
  const CONF_ARRIVAL := 0.55
  const ROLL_PENALTY := 0.10

  datatype Resolution = Resolution(
    resolved: Option<int>, how: Method, confidence: real, fromFilename: Option<int>, fromContent: seq<int>,
    fromArrival: int, mismatch: bool)

  /** `round3` is round(x, 3). */
  datatype Reader = Reader(
    parseDate: string -> Option<int>,
    valueColumn: seq<Header> -> Option<Header>,
    tradeColumn: seq<Header> -> Option<Header>,
    filenameDate: string -> Option<int>,
    round3: real -> real)
  {
    function Cell(row: Row, column: Header): string {
      if column in row.cells then row.cells[column] else ""
    }

    function DateIn(row: Row, column: Header): Option<int> {
      parseDate(Cell(row, column))
    }

    /** The dates a column carries, in row order, unreadable cells left out. */
    function DatesIn(rows: seq<Row>, column: Header): seq<int> {
      if rows == [] then []
      else
        var d := DateIn(rows[|rows| - 1], column);
        DatesIn(rows[..|rows| - 1], column) + if d.Some? then [d.value] else []
    }

    function ColumnDates(rows: seq<Row>, column: Option<Header>): seq<int> {
      if column.None? || column.value == "" then [] else DatesIn(rows, column.value)
    }

    method ReadColumn(rows: seq<Row>, column: Option<Header>) returns (dates: seq<int>)
      ensures dates == ColumnDates(rows, column)
    {
      dates := [];
      if column.None? || column.value == "" {
        return;
      }
      for i := 0 to |rows|
        invariant dates == DatesIn(rows[..i], column.value)
      {
        assert rows[..i + 1][..i] == rows[..i];
        var parsed := DateIn(rows[i], column.value);
        if parsed.Some? {
          dates := dates + [parsed.value];
        }
      }
      assert rows[..|rows|] == rows;
    }
  }

  // ---- the dominant date ----

  function Count(dates: seq<int>, d: int): nat {
    if dates == [] then 0 else Count(dates[..|dates| - 1], d) + if dates[|dates| - 1] == d then 1 else 0
  }

  /** The most frequent date, the one seen first on ties. */
  ghost predicate IsDominant(dates: seq<int>, i: nat) {
    && i < |dates|
    && (forall j | 0 <= j < |dates| :: Count(dates, dates[j]) <= Count(dates, dates[i]))
    && (forall j | 0 <= j < i :: Count(dates, dates[j]) < Count(dates, dates[i]))
  }

  /** Index of the dominant date among the first `n`. */
  function Leader(dates: seq<int>, n: nat): (i: nat)
    requires 0 < n <= |dates|
    ensures i < n
  {
    if n == 1 then 0
    else
      var best := Leader(dates, n - 1);
      if Count(dates, dates[n - 1]) > Count(dates, dates[best]) then n - 1 else best
  }

  lemma {:induction false} LeaderLeads(dates: seq<int>, n: nat)
    requires 0 < n <= |dates|
    ensures var i := Leader(dates, n);
      && (forall j | 0 <= j < n :: Count(dates, dates[j]) <= Count(dates, dates[i]))
      && (forall j | 0 <= j < i :: Count(dates, dates[j]) < Count(dates, dates[i]))
  {
    if n > 1 {
      LeaderLeads(dates, n - 1);
    }
  }

  function Dominant(dates: seq<int>): int
    requires dates != []
  {
    dates[Leader(dates, |dates|)]
  }

  lemma DominantIsUnique(dates: seq<int>, i: nat)
    requires i < |dates|
    ensures IsDominant(dates, i) <==> i == Leader(dates, |dates|)
  {
    LeaderLeads(dates, |dates|);
    var w := Leader(dates, |dates|);
    if IsDominant(dates, i) {
      assert Count(dates, dates[i]) == Count(dates, dates[w]);
    }
  }

  /** Counter(dates).most_common(1): a dictionary of counts, then its first maximum. */
  method MostCommon(dates: seq<int>) returns (winner: int)
    requires dates != []
    ensures winner == Dominant(dates)
  {
    var counts: map<int, nat> := map[];
    for i := 0 to |dates|
      invariant forall d :: (if d in counts then counts[d] else 0) == Count(dates[..i], d)
    {
      assert dates[..i + 1][..i] == dates[..i];
      var d := dates[i];
      counts := counts[d := (if d in counts then counts[d] else 0) + 1];
    }
    assert dates[..|dates|] == dates;
    forall j | 0 <= j < |dates| ensures dates[j] in counts && counts[dates[j]] == Count(dates, dates[j]) {
      Occurs(dates, j);
    }
    winner := dates[0];
    for i := 1 to |dates|
      invariant winner == dates[Leader(dates, i)]
    {
      if counts[dates[i]] > counts[winner] {
        winner := dates[i];
      }
    }
  }

  lemma {:induction false} Occurs(dates: seq<int>, j: nat)
    requires j < |dates|
    ensures Count(dates, dates[j]) > 0
  {
    if j < |dates| - 1 {
      Occurs(dates[..|dates| - 1], j);
    }
  }

  // ---- sorted(set(dates)) ----

  function Sorted(dates: seq<int>): seq<int> {
    if dates == [] then [] else Insert(Sorted(dates[..|dates| - 1]), dates[|dates| - 1])
  }

  function Insert(s: seq<int>, d: int): seq<int>
    decreases |s|
  {
    if s == [] || d < s[0] then [d] + s else if d == s[0] then s else [s[0]] + Insert(s[1..], d)
  }

  ghost predicate Ascends(s: seq<int>) {
    forall i, j | 0 <= i < j < |s| :: s[i] < s[j]
  }

  lemma {:induction false} InsertHolds(s: seq<int>, d: int)
    ensures forall x :: x in Insert(s, d) <==> x == d || x in s
    decreases |s|
  {
    if s != [] && s[0] < d {
      InsertHolds(s[1..], d);
      assert s == [s[0]] + s[1..];
    }
  }

  lemma HeadFirst(x: int, s: seq<int>)
    requires Ascends(s) && forall y | y in s :: x < y
    ensures Ascends([x] + s)
  {
    var r := [x] + s;
    forall i, j | 0 <= i < j < |r| ensures r[i] < r[j] {
      assert r[j] == s[j - 1] && s[j - 1] in s;
    }
  }

  lemma {:induction false} InsertAscends(s: seq<int>, d: int)
    requires Ascends(s)
    ensures Ascends(Insert(s, d))
    decreases |s|
  {
    if s != [] && s[0] < d {
      InsertAscends(s[1..], d);
      InsertHolds(s[1..], d);
      HeadFirst(s[0], Insert(s[1..], d));
    } else if s == [] || d < s[0] {
      HeadFirst(d, s);
    }
  }

  lemma {:induction false} SortedAscends(dates: seq<int>)
    ensures Ascends(Sorted(dates))
    ensures forall x :: x in Sorted(dates) <==> x in dates
  {
    if dates != [] {
      var init := dates[..|dates| - 1];
      SortedAscends(init);
      InsertAscends(Sorted(init), dates[|dates| - 1]);
      InsertHolds(Sorted(init), dates[|dates| - 1]);
      assert dates == init + [dates[|dates| - 1]];
    }
  }

  // ---- from candidate dates to a resolution ----

  function Penalised(base: real, spans: bool, rolled: bool): real {
    var c := if spans then base * 0.9 else base;
    if rolled then c - ROLL_PENALTY else c
  }

  function Clamped(c: real): real {
    if c > 1.0 then 1.0 else if c < 0.0 then 0.0 else c
  }

  function Finished(
    reader: Reader, calendar: Calendar, candidates: seq<int>, how: Method, base: real, filenameDate: Option<int>,
    arrivalDay: int): (r: Resolution)
    requires candidates != []
    ensures r.resolved.Some?
  {
    var w := Dominant(candidates);
    var resolved := calendar.Roll(w);
    Resolution(
      Some(resolved), how,
      reader.round3(Clamped(Penalised(base, |Sorted(candidates)| > 1, resolved != w))),
      filenameDate, Sorted(candidates), arrivalDay,
      filenameDate.Some? && filenameDate.value != resolved)
  }

  /** Python's Calendar.roll with its default convention. */
  method Rolled(calendar: Calendar, d: int) returns (r: int)
    ensures r == calendar.Roll(d)
  {
    if calendar.IsBusinessDay(d) {
      return d;
    }
    r := calendar.PreviousBusinessDay(d);
  }

  method Finish(
    reader: Reader, calendar: Calendar, candidates: seq<int>, how: Method, base: real, filenameDate: Option<int>,
    arrivalDay: int) returns (r: Resolution)
    requires candidates != []
    ensures r == Finished(reader, calendar, candidates, how, base, filenameDate, arrivalDay)
  {
    var distinct := Sorted(candidates);
    var winner := MostCommon(candidates);
    var confidence := base;
    if |distinct| > 1 {
      confidence := confidence * 0.9;
    }
    var rolled := Rolled(calendar, winner);
    if rolled != winner {
      confidence := confidence - ROLL_PENALTY;
      winner := rolled;
    }
    var mismatch := filenameDate.Some? && filenameDate.value != winner;
    r := Resolution(
      Some(winner), how, reader.round3(Clamped(confidence)), filenameDate, distinct, arrivalDay, mismatch);
  }

  function Shifted(calendar: Calendar, dates: seq<int>, n: int): (r: seq<int>)
    ensures |r| == |dates| && forall i | 0 <= i < |r| :: r[i] == calendar.Add(dates[i], n)
  {
    seq(|dates|, i requires 0 <= i < |dates| => calendar.Add(dates[i], n))
  }

  /** What the file says, best evidence first: its value-date column, its trade dates plus
      settlement, its name, and last the business day before it arrived. */
  function Resolved(
    reader: Reader, calendar: Calendar, headers: seq<Header>, rows: seq<Row>, filename: string, arrivalDay: int,
    offset: int): (r: Resolution)
    ensures r.resolved.Some?
  {
    var named := reader.filenameDate(filename);
    var explicit := reader.ColumnDates(rows, reader.valueColumn(headers));
    var traded := reader.ColumnDates(rows, reader.tradeColumn(headers));
    if explicit != [] then
      Finished(reader, calendar, explicit, CONTENT_EXPLICIT, CONF_CONTENT_EXPLICIT, named, arrivalDay)
    else if traded != [] then
      var inferred := Shifted(calendar, traded, offset);
      Finished(reader, calendar, inferred, CONTENT_INFERRED, CONF_CONTENT_INFERRED, named, arrivalDay)
    else if named.Some? then
      Finished(reader, calendar, [named.value], FILENAME, CONF_FILENAME, named, arrivalDay)
    else
      var fallback := calendar.Previous(arrivalDay);
      Finished(reader, calendar, [fallback], ARRIVAL_MINUS_CALENDAR, CONF_ARRIVAL, None, arrivalDay)
  }

  // ---- what a resolution is, in terms of the dates read ----

  /** `dates` are what the column's readable cells say, in row order. */
  ghost predicate Carries(reader: Reader, rows: seq<Row>, column: Header, dates: seq<int>) {
    exists ix :: ReadAt(reader, rows, column, dates, ix)
  }

  /** `ix` lists exactly the rows whose cell could be read, ascending. */
  ghost predicate ReadAt(reader: Reader, rows: seq<Row>, column: Header, dates: seq<int>, ix: seq<nat>) {
    && |ix| == |dates| && (forall j, k | 0 <= j < k < |ix| :: ix[j] < ix[k])
    && (forall k | 0 <= k < |ix| :: ix[k] < |rows| && reader.DateIn(rows[ix[k]], column) == Some(dates[k]))
    && (forall i: nat {:trigger i in ix} | i < |rows| && reader.DateIn(rows[i], column).Some? :: i in ix)
  }

  lemma ReadAtGrows(reader: Reader, rows: seq<Row>, row: Row, column: Header, dates: seq<int>, ix: seq<nat>)
    requires ReadAt(reader, rows, column, dates, ix)
    ensures var d := reader.DateIn(row, column);
      if d.Some? then ReadAt(reader, rows + [row], column, dates + [d.value], ix + [|rows|])
      else ReadAt(reader, rows + [row], column, dates, ix)
  {
    var all, more := rows + [row], ix + [|rows|];
    assert more[|ix|] == |rows| && all[|rows|] == row;
    forall i: nat | i < |all| && reader.DateIn(all[i], column).Some? ensures i in more {
      assert i < |rows| ==> i in ix;
    }
  }

  lemma CarriesGrows(reader: Reader, rows: seq<Row>, row: Row, column: Header, dates: seq<int>)
    requires Carries(reader, rows, column, dates)
    ensures var d := reader.DateIn(row, column);
      Carries(reader, rows + [row], column, dates + if d.Some? then [d.value] else [])
  {
    var ix :| ReadAt(reader, rows, column, dates, ix);
    ReadAtGrows(reader, rows, row, column, dates, ix);
    assert dates + [] == dates;
  }

  lemma CarriesOneMore(reader: Reader, rows: seq<Row>, row: Row, column: Header)
    requires Carries(reader, rows, column, reader.DatesIn(rows, column))
    ensures Carries(reader, rows + [row], column, reader.DatesIn(rows + [row], column))
  {
    assert (rows + [row])[..|rows|] == rows;
    CarriesGrows(reader, rows, row, column, reader.DatesIn(rows, column));
  }

  lemma NothingIsCarried(reader: Reader, column: Header)
    ensures Carries(reader, [], column, reader.DatesIn([], column))
  {
    assert ReadAt(reader, [], column, [], []);
  }

  lemma {:induction false} DatesAreCarried(reader: Reader, rows: seq<Row>, column: Header)
    ensures Carries(reader, rows, column, reader.DatesIn(rows, column))
  {
    if rows == [] {
      NothingIsCarried(reader, column);
    } else {
      var init := rows[..|rows| - 1];
      DatesAreCarried(reader, init, column);
      CarriesOneMore(reader, init, rows[|rows| - 1], column);
      assert rows == init + [rows[|rows| - 1]];
    }
  }

  /** What is read off a file is what its column carries, and nothing without a column. */
  lemma ColumnIsRead(reader: Reader, rows: seq<Row>, column: Option<Header>)
    ensures var dates := reader.ColumnDates(rows, column);
      if column == None || column == Some("") then dates == [] else Carries(reader, rows, column.value, dates)
  {
    if column.Some? {
      DatesAreCarried(reader, rows, column.value);
    }
  }

  function Places(dates: seq<int>, d: int): set<int> {
    set i | 0 <= i < |dates| && dates[i] == d
  }

  lemma {:induction false} CountIsHowMany(dates: seq<int>, d: int)
    ensures Count(dates, d) == |Places(dates, d)|
  {
    if dates != [] {
      var n := |dates| - 1;
      CountIsHowMany(dates[..n], d);
      assert n !in Places(dates[..n], d);
      assert Places(dates, d) == Places(dates[..n], d) + if dates[n] == d then {n} else {};
    }
  }

  /** The resolution is the latest open day on or before the date most candidates say, the
      first seen on ties; the confidence starts from `base` and pays for candidates that
      differ and for a date that is not a business day. */
  ghost predicate ResolvedFrom(reader: Reader, calendar: Calendar, candidates: seq<int>, base: real, r: Resolution) {
    && Ascends(r.fromContent) && (forall d :: d in r.fromContent <==> d in candidates)
    && exists i: nat :: IsDominant(candidates, i) && ResolvedOn(reader, calendar, candidates, candidates[i], base, r)
  }

  ghost predicate ResolvedOn(
    reader: Reader, calendar: Calendar, candidates: seq<int>, d: int, base: real, r: Resolution)
  {
    && r.resolved == Some(calendar.Roll(d))
    && var spread := if Differ(candidates) then base * 0.9 else base;
      r.confidence == reader.round3(Clamped(if calendar.IsBusinessDay(d) then spread else spread - 0.10))
  }

  ghost predicate Differ(dates: seq<int>) {
    exists i, j :: 0 <= i < j < |dates| && dates[i] != dates[j]
  }

  ghost predicate MovedOn(calendar: Calendar, dates: seq<int>, n: int, moved: seq<int>) {
    |moved| == |dates| && forall i | 0 <= i < |dates| :: moved[i] == calendar.Add(dates[i], n)
  }

  ghost predicate InferredFrom(reader: Reader, calendar: Calendar, traded: seq<int>, offset: int, r: Resolution) {
    exists moved :: MovedOn(calendar, traded, offset, moved) && ResolvedFrom(reader, calendar, moved, 0.85, r)
  }

  /** Which evidence decides: the value-date column, else the trade dates moved on by the
      settlement offset, else the filename, else the open day before the file arrived. */
  ghost predicate FollowsTheEvidence(
    reader: Reader, calendar: Calendar, explicit: seq<int>, traded: seq<int>, named: Option<int>, arrivalDay: int,
    offset: int, r: Resolution)
  {
    && (explicit != [] ==> r.how == CONTENT_EXPLICIT && ResolvedFrom(reader, calendar, explicit, 0.97, r))
    && (explicit == [] && traded != [] ==>
          r.how == CONTENT_INFERRED && InferredFrom(reader, calendar, traded, offset, r))
    && (explicit == [] && traded == [] && named.Some? ==>
          r.how == FILENAME && ResolvedFrom(reader, calendar, [named.value], 0.70, r))
    && (explicit == [] && traded == [] && named.None? ==>
          && r.how == ARRIVAL_MINUS_CALENDAR
          && ResolvedFrom(reader, calendar, [calendar.Previous(arrivalDay)], 0.55, r))
    && r.fromFilename == named && r.fromArrival == arrivalDay
    && r.resolved.Some? && (r.mismatch <==> named.Some? && named.value != r.resolved.value)
  }

  lemma SortedSpans(dates: seq<int>)
    ensures |Sorted(dates)| > 1 <==> Differ(dates)
  {
    var s := Sorted(dates);
    SortedAscends(dates);
    if |s| > 1 {
      assert s[0] in s && s[1] in s && s[0] < s[1];
      var i :| 0 <= i < |dates| && dates[i] == s[0];
      var j :| 0 <= j < |dates| && dates[j] == s[1];
      assert dates[if i < j then i else j] != dates[if i < j then j else i];
    }
    if Differ(dates) {
      var i, j :| 0 <= i < j < |dates| && dates[i] != dates[j];
      assert dates[i] in s && dates[j] in s;
    }
  }

  lemma FinishedIsFrom(
    reader: Reader, calendar: Calendar, candidates: seq<int>, how: Method, base: real, filenameDate: Option<int>,
    arrivalDay: int)
    requires candidates != []
    ensures var r := Finished(reader, calendar, candidates, how, base, filenameDate, arrivalDay);
      ResolvedFrom(reader, calendar, candidates, base, r)
  {
    var i := Leader(candidates, |candidates|);
    DominantIsUnique(candidates, i);
    SortedAscends(candidates);
    SortedSpans(candidates);
    var r := Finished(reader, calendar, candidates, how, base, filenameDate, arrivalDay);
    assert ResolvedOn(reader, calendar, candidates, candidates[i], base, r);
  }

  /** Every file, whatever it carries, is resolved from its best evidence. */
  lemma ResolvedFollowsTheEvidence(
    reader: Reader, calendar: Calendar, headers: seq<Header>, rows: seq<Row>, filename: string, arrivalDay: int,
    offset: int)
    ensures FollowsTheEvidence(reader, calendar, reader.ColumnDates(rows, reader.valueColumn(headers)),
      reader.ColumnDates(rows, reader.tradeColumn(headers)), reader.filenameDate(filename), arrivalDay, offset,
      Resolved(reader, calendar, headers, rows, filename, arrivalDay, offset))
  {
    var named := reader.filenameDate(filename);
    var explicit := reader.ColumnDates(rows, reader.valueColumn(headers));
    var traded := reader.ColumnDates(rows, reader.tradeColumn(headers));
    if explicit != [] {
      FinishedIsFrom(reader, calendar, explicit, CONTENT_EXPLICIT, 0.97, named, arrivalDay);
    } else if traded != [] {
      var moved := Shifted(calendar, traded, offset);
      assert MovedOn(calendar, traded, offset, moved);
      FinishedIsFrom(reader, calendar, moved, CONTENT_INFERRED, 0.85, named, arrivalDay);
    } else if named.Some? {
      FinishedIsFrom(reader, calendar, [named.value], FILENAME, 0.70, named, arrivalDay);
    } else {
      FinishedIsFrom(reader, calendar, [calendar.Previous(arrivalDay)], ARRIVAL_MINUS_CALENDAR, 0.55, None, arrivalDay);
    }
  }

  method Resolve(
    reader: Reader, calendar: Calendar, headers: seq<Header>, rows: seq<Row>, filename: string, arrivalDay: int,
    offset: int) returns (r: Resolution)
    ensures r == Resolved(reader, calendar, headers, rows, filename, arrivalDay, offset)
  {
    var named := reader.filenameDate(filename);
    var explicit := reader.ReadColumn(rows, reader.valueColumn(headers));
    if explicit != [] {
      r := Finish(reader, calendar, explicit, CONTENT_EXPLICIT, CONF_CONTENT_EXPLICIT, named, arrivalDay);
      return;
    }
    var traded := reader.ReadColumn(rows, reader.tradeColumn(headers));
    if traded != [] {
      var inferred := [];
      for i := 0 to |traded|
        invariant |inferred| == i && forall k | 0 <= k < i :: inferred[k] == calendar.Add(traded[k], offset)
      {
        var d := calendar.AddBusinessDays(traded[i], offset);
        inferred := inferred + [d];
      }
      assert inferred == Shifted(calendar, traded, offset);
      r := Finish(reader, calendar, inferred, CONTENT_INFERRED, CONF_CONTENT_INFERRED, named, arrivalDay);
      return;
    }
    if named.Some? {
      r := Finish(reader, calendar, [named.value], FILENAME, CONF_FILENAME, named, arrivalDay);
      return;
    }
    var fallback := calendar.PreviousBusinessDay(arrivalDay);
    r := Finish(reader, calendar, [fallback], ARRIVAL_MINUS_CALENDAR, CONF_ARRIVAL, None, arrivalDay);
  }

  // ---- splitting a file by value date ----

  type Groups = map<int, seq<Row>>

  /** The rows of one date, in source order. */
  function RowsOn(reader: Reader, rows: seq<Row>, column: Header, d: int): seq<Row> {
    if rows == [] then []
    else
      var last := rows[|rows| - 1];
      RowsOn(reader, rows[..|rows| - 1], column, d) + if reader.DateIn(last, column) == Some(d) then [last] else []
  }

  /** `ix` lists exactly the rows of date `d`, ascending, and `on` are those rows. */
  ghost predicate RowsAt(reader: Reader, rows: seq<Row>, column: Header, d: int, on: seq<Row>, ix: seq<nat>) {
    && |ix| == |on| && (forall j, k | 0 <= j < k < |ix| :: ix[j] < ix[k])
    && (forall k | 0 <= k < |ix| ::
          ix[k] < |rows| && on[k] == rows[ix[k]] && reader.DateIn(rows[ix[k]], column) == Some(d))
    && (forall i: nat {:trigger i in ix} | i < |rows| && reader.DateIn(rows[i], column) == Some(d) :: i in ix)
  }

  ghost predicate AreTheRows(reader: Reader, rows: seq<Row>, column: Header, d: int, on: seq<Row>) {
    exists ix :: RowsAt(reader, rows, column, d, on, ix)
  }

  lemma RowsAtGrows(
    reader: Reader, rows: seq<Row>, row: Row, column: Header, d: int, on: seq<Row>, ix: seq<nat>)
    requires RowsAt(reader, rows, column, d, on, ix)
    ensures if reader.DateIn(row, column) == Some(d)
      then RowsAt(reader, rows + [row], column, d, on + [row], ix + [|rows|])
      else RowsAt(reader, rows + [row], column, d, on, ix)
  {
    var all, more := rows + [row], ix + [|rows|];
    assert more[|ix|] == |rows| && all[|rows|] == row;
    forall i: nat | i < |all| && reader.DateIn(all[i], column) == Some(d) ensures i in more {
      assert i < |rows| ==> i in ix;
    }
  }

  lemma RowsOneMore(reader: Reader, rows: seq<Row>, row: Row, column: Header, d: int)
    requires AreTheRows(reader, rows, column, d, RowsOn(reader, rows, column, d))
    ensures AreTheRows(reader, rows + [row], column, d, RowsOn(reader, rows + [row], column, d))
  {
    var on := RowsOn(reader, rows, column, d);
    var ix :| RowsAt(reader, rows, column, d, on, ix);
    RowsAtGrows(reader, rows, row, column, d, on, ix);
    assert (rows + [row])[..|rows|] == rows && on + [] == on;
  }

  lemma NoRows(reader: Reader, column: Header, d: int)
    ensures AreTheRows(reader, [], column, d, RowsOn(reader, [], column, d))
  {
    assert RowsAt(reader, [], column, d, [], []);
  }

  /** The group of a date is exactly its rows, in source order. */
  lemma {:induction false} RowsOnAreTheRows(reader: Reader, rows: seq<Row>, column: Header, d: int)
    ensures AreTheRows(reader, rows, column, d, RowsOn(reader, rows, column, d))
  {
    if rows == [] {
      NoRows(reader, column, d);
    } else {
      var init := rows[..|rows| - 1];
      RowsOnAreTheRows(reader, init, column, d);
      RowsOneMore(reader, init, rows[|rows| - 1], column, d);
      assert rows == init + [rows[|rows| - 1]];
    }
  }

  /** One group per date that occurs, holding exactly that date's rows in source order. */
  ghost predicate IsSplit(reader: Reader, rows: seq<Row>, column: Header, groups: Groups) {
    forall d :: SplitOn(reader, rows, column, groups, d)
  }

  ghost predicate SplitOn(reader: Reader, rows: seq<Row>, column: Header, groups: Groups, d: int) {
    if d in groups then groups[d] == RowsOn(reader, rows, column, d) != [] else RowsOn(reader, rows, column, d) == []
  }

  method Split(reader: Reader, rows: seq<Row>, column: Header) returns (groups: Groups)
    ensures IsSplit(reader, rows, column, groups)
  {
    groups := map[];
    for i := 0 to |rows|
      invariant IsSplit(reader, rows[..i], column, groups)
    {
      var parsed := reader.DateIn(rows[i], column);
      ghost var before, next := groups, i + 1;
      if parsed.Some? {
        var d := parsed.value;
        groups := groups[d := (if d in groups then groups[d] else []) + [rows[i]]];
      }
      assert rows[..next][..i] == rows[..i];
      forall d ensures SplitOn(reader, rows[..next], column, groups, d) {
        assert SplitOn(reader, rows[..i], column, before, d);
      }
    }
    assert rows[..|rows|] == rows;
  }

  /** Nothing to split on, or only one date: no groups at all. */
  method SplitByValueDate(reader: Reader, headers: seq<Header>, rows: seq<Row>) returns (groups: Groups)
    ensures var column := reader.valueColumn(headers);
      if column.None? || column.value == "" then groups == map[]
      else exists all :: IsSplit(reader, rows, column.value, all) && groups == if |all| > 1 then all else map[]
  {
    var column := reader.valueColumn(headers);
    if column.None? || column.value == "" {
      return map[];
    }
    var all := Split(reader, rows, column.value);
    groups := if |all| > 1 then all else map[];
  }

  // ---- conservation ----

  function Dated(reader: Reader, rows: seq<Row>, column: Header): nat {
    |reader.DatesIn(rows, column)|
  }

  function SizesOver(reader: Reader, rows: seq<Row>, column: Header, dates: seq<int>): nat {
    if dates == [] then 0
    else SizesOver(reader, rows, column, dates[..|dates| - 1]) + |RowsOn(reader, rows, column, dates[|dates| - 1])|
  }

  lemma {:induction false} OneMoreRow(reader: Reader, rows: seq<Row>, row: Row, column: Header, dates: seq<int>)
    requires Ascends(dates)
    ensures var d := reader.DateIn(row, column);
      SizesOver(reader, rows + [row], column, dates) ==
      SizesOver(reader, rows, column, dates) + if d.Some? && d.value in dates then 1 else 0
  {
    if dates != [] {
      var init, last := dates[..|dates| - 1], dates[|dates| - 1];
      OneMoreRow(reader, rows, row, column, init);
      assert dates == init + [last] && last !in init;
      assert (rows + [row])[..|rows|] == rows;
    }
  }

  lemma {:induction false} NoRowsNoSizes(reader: Reader, column: Header, dates: seq<int>)
    ensures SizesOver(reader, [], column, dates) == 0
  {
    if dates != [] {
      NoRowsNoSizes(reader, column, dates[..|dates| - 1]);
    }
  }

  lemma DatedGrows(reader: Reader, rows: seq<Row>, row: Row, column: Header)
    ensures var d := reader.DateIn(row, column);
      reader.DatesIn(rows + [row], column) == reader.DatesIn(rows, column) + if d.Some? then [d.value] else []
  {
    assert (rows + [row])[..|rows|] == rows;
  }

  /** Every row with a readable date is in exactly one group: over all the dates that
      occur, the group sizes sum to the dated rows. */
  lemma {:induction false} GroupsConserveRows(reader: Reader, rows: seq<Row>, column: Header, dates: seq<int>)
    requires Ascends(dates) && forall d | d in reader.DatesIn(rows, column) :: d in dates
    ensures SizesOver(reader, rows, column, dates) == Dated(reader, rows, column)
  {
    if rows == [] {
      NoRowsNoSizes(reader, column, dates);
    } else {
      var init, last := rows[..|rows| - 1], rows[|rows| - 1];
      assert rows == init + [last];
      DatedGrows(reader, init, last, column);
      var ds, d := reader.DatesIn(rows, column), reader.DateIn(last, column);
      assert d.Some? ==> ds[|ds| - 1] == d.value && d.value in ds;
      GroupsConserveRows(reader, init, column, dates);
      OneMoreRow(reader, init, last, column, dates);
    }
  }

  // ---- the sub-batches of one file ----

  datatype SubBatch = SubBatch(rows: seq<Row>, resolution: Resolution, index: nat, total: nat)

  /** What a file is classified with, its rows aside. */
  datatype Context = Context(
    reader: Reader, calendar: Calendar, headers: seq<Header>, filename: string, arrivalDay: int)
  {
    function Column(): Option<Header> {
      var column := reader.valueColumn(headers);
      if column == Some("") then None else column
    }

    /** The dates a file is split on, ascending. */
    function Dates(rows: seq<Row>): seq<int> {
      Sorted(reader.ColumnDates(rows, Column()))
    }

    function Whole(rows: seq<Row>): Resolution {
      Resolved(reader, calendar, headers, rows, filename, arrivalDay, 1)
    }

    ghost predicate AreBatches(out: seq<SubBatch>, rows: seq<Row>, dates: seq<int>)
      requires Column().Some?
    {
      |out| <= |dates| && forall k | 0 <= k < |out| :: out[k] == Batch(rows, dates, k)
    }

    /** Batch `i` of a file that is split on `dates`: that date's rows, resolved as a file
        of their own. */
    function Batch(rows: seq<Row>, dates: seq<int>, i: nat): SubBatch
      requires i < |dates| && Column().Some?
    {
      var on := RowsOn(reader, rows, Column().value, dates[i]);
      SubBatch(on, Whole(on), i, |dates|)
    }

    lemma GroupIsBatch(rows: seq<Row>, groups: Groups, order: seq<int>, i: nat)
      requires Column().Some? && IsSplit(reader, rows, Column().value, groups)
      requires i < |order| == |groups| && forall d | d in order :: d in groups
      ensures order[i] in groups
      ensures SubBatch(groups[order[i]], Whole(groups[order[i]]), i, |groups|) == Batch(rows, order, i)
    {
      assert order[i] in order;
      assert SplitOn(reader, rows, Column().value, groups, order[i]);
    }

    lemma OrderIsDates(rows: seq<Row>, groups: Groups, order: seq<int>)
      requires Ascends(order) && forall d :: d in order <==> d in groups
      requires forall d :: d in groups <==> d in Dates(rows)
      ensures order == Dates(rows)
    {
      SortedAscends(reader.ColumnDates(rows, Column()));
      AscendingIsUnique(order, Dates(rows));
    }

    /** What classify makes of what the split found. */
    method Classify(rows: seq<Row>) returns (out: seq<SubBatch>)
      ensures |Dates(rows)| <= 1 ==> out == [SubBatch(rows, Whole(rows), 0, 1)]
      ensures |Dates(rows)| > 1 ==>
        Column().Some? && |out| == |Dates(rows)| && forall i | 0 <= i < |out| :: out[i] == Batch(rows, Dates(rows), i)
    {
      var groups := SplitByValueDate(reader, headers, rows);
      SplitDates(this, rows, groups);
      if groups == map[] {
        var r := Resolve(reader, calendar, headers, rows, filename, arrivalDay, 1);
        return [SubBatch(rows, r, 0, 1)];
      }
      var order := SortedKeys(groups);
      OrderIsDates(rows, groups, order);
      out := ResolveEach(rows, groups, order);
    }

    method ResolveEach(rows: seq<Row>, groups: Groups, order: seq<int>) returns (out: seq<SubBatch>)
      requires Column().Some? && IsSplit(reader, rows, Column().value, groups)
      requires |order| == |groups| && forall d | d in order :: d in groups
      ensures |out| == |order| && AreBatches(out, rows, order)
    {
      out := [];
      for i := 0 to |order|
        invariant |out| == i && AreBatches(out, rows, order)
      {
        GroupIsBatch(rows, groups, order, i);
        var subset := groups[order[i]];
        var r := Resolve(reader, calendar, headers, subset, filename, arrivalDay, 1);
        out := out + [SubBatch(subset, r, i, |groups|)];
      }
    }
  }

  /** The split found groups exactly when more than one date occurs, one for each. */
  lemma SplitDates(c: Context, rows: seq<Row>, groups: Groups)
    requires c.Column().None? ==> groups == map[]
    requires c.Column().Some? ==>
      exists all :: IsSplit(c.reader, rows, c.Column().value, all) && groups == if |all| > 1 then all else map[]
    ensures groups == map[] <==> |c.Dates(rows)| <= 1
    ensures groups != map[] ==> c.Column().Some? && IsSplit(c.reader, rows, c.Column().value, groups)
    ensures groups != map[] ==> forall d :: d in groups <==> d in c.Dates(rows)
  {
    if c.Column().Some? {
      var column := c.Column().value;
      var all :| IsSplit(c.reader, rows, column, all) && groups == if |all| > 1 then all else map[];
      var dates := c.Dates(rows);
      SortedAscends(c.reader.ColumnDates(rows, c.Column()));
      forall d ensures d in all <==> d in dates {
        assert SplitOn(c.reader, rows, column, all, d);
        RowsOnCarry(c.reader, rows, column, d);
      }
      assert all.Keys == Members(dates);
      AscendingCounts(dates);
    }
  }

  ghost function Members(s: seq<int>): set<int> {
    set d | d in s
  }

  lemma {:induction false} AscendingCounts(s: seq<int>)
    requires Ascends(s)
    ensures |Members(s)| == |s|
  {
    if s != [] {
      var init, last := s[..|s| - 1], s[|s| - 1];
      AscendingCounts(init);
      assert s == init + [last] && last !in init;
      assert Members(s) == Members(init) + {last};
    }
  }

  lemma {:induction false} AscendingIsUnique(s: seq<int>, t: seq<int>)
    requires Ascends(s) && Ascends(t) && forall d :: d in s <==> d in t
    ensures s == t
    decreases |s|
  {
    assert t != [] ==> t[0] in t;
    if s != [] {
      assert s[0] in s && s[0] in t && t[0] in s;
      assert s[0] == t[0];
      var s', t' := s[1..], t[1..];
      forall d ensures d in s' <==> d in t' {
        InTail(s, d);
        InTail(t, d);
      }
      AscendingIsUnique(s', t');
    }
  }

  lemma InTail(s: seq<int>, d: int)
    requires s != [] && Ascends(s)
    ensures d in s[1..] <==> d in s && d != s[0]
  {
    assert s == [s[0]] + s[1..];
  }

  lemma SomeMember(s: set<int>)
    ensures s != {} ==> exists d :: d in s
  {
    if forall d :: d !in s {
      assert s == {};
    }
  }

  method SortedKeys(groups: Groups) returns (dates: seq<int>)
    ensures Ascends(dates) && |dates| == |groups| && forall d :: d in dates <==> d in groups
  {
    dates := [];
    var todo: set<int> := groups.Keys;
    while todo != {}
      invariant todo <= groups.Keys && |dates| + |todo| == |groups.Keys|
      invariant Ascends(dates) && forall d :: d in dates <==> d in groups.Keys - todo
      decreases todo
    {
      SomeMember(todo);
      var d :| d in todo;
      todo := todo - {d};
      InsertAscends(dates, d);
      InsertHolds(dates, d);
      InsertIsLonger(dates, d);
      dates := Insert(dates, d);
    }
  }

  lemma {:induction false} InsertIsLonger(s: seq<int>, d: int)
    requires d !in s
    ensures |Insert(s, d)| == |s| + 1
    decreases |s|
  {
    if s != [] && s[0] < d {
      InsertIsLonger(s[1..], d);
    }
  }

  // ---- what the split and the resolutions guarantee ----

  lemma {:induction false} RowsOnCarry(reader: Reader, rows: seq<Row>, column: Header, d: int)
    ensures var on := RowsOn(reader, rows, column, d);
      && (forall i | 0 <= i < |on| :: reader.DateIn(on[i], column) == Some(d))
      && (on == [] <==> d !in reader.DatesIn(rows, column))
  {
    if rows != [] {
      RowsOnCarry(reader, rows[..|rows| - 1], column, d);
    }
  }

  lemma {:induction false} DatesOfOneDay(reader: Reader, rows: seq<Row>, column: Header, d: int)
    requires forall i | 0 <= i < |rows| :: reader.DateIn(rows[i], column) == Some(d)
    ensures |reader.DatesIn(rows, column)| == |rows|
    ensures forall i | 0 <= i < |rows| :: reader.DatesIn(rows, column)[i] == d
  {
    if rows != [] {
      DatesOfOneDay(reader, rows[..|rows| - 1], column, d);
    }
  }

  lemma {:induction false} SortedOfOneDay(dates: seq<int>, d: int)
    requires dates != [] && forall i | 0 <= i < |dates| :: dates[i] == d
    ensures Sorted(dates) == [d]
  {
    if |dates| > 1 {
      SortedOfOneDay(dates[..|dates| - 1], d);
    }
  }

  /** A sub-batch is the day its rows carry: explicit evidence, rolled onto the latest open
      day, and flagged exactly when the filename says another day. */
  lemma SubBatchIsItsDay(c: Context, rows: seq<Row>, i: nat)
    requires c.Column().Some? && i < |c.Dates(rows)|
    ensures var d, named := c.Dates(rows)[i], c.reader.filenameDate(c.filename);
      var r := c.Batch(rows, c.Dates(rows), i).resolution;
      && r.how == CONTENT_EXPLICIT && r.fromContent == [d] && r.resolved == Some(c.calendar.Roll(d))
      && (r.mismatch <==> named.Some? && named.value != c.calendar.Roll(d))
  {
    var column, d := c.Column(), c.Dates(rows)[i];
    var on := RowsOn(c.reader, rows, column.value, d);
    SortedAscends(c.reader.ColumnDates(rows, column));
    assert d in c.Dates(rows);
    RowsOnCarry(c.reader, rows, column.value, d);
    DatesOfOneDay(c.reader, on, column.value, d);
    var found := c.reader.ColumnDates(on, c.reader.valueColumn(c.headers));
    SortedOfOneDay(found, d);
    assert Dominant(found) == d;
  }

  /** The sub-batches lose no dated row and hold no other: their sizes sum to the number of
      rows whose date could be read. */
  lemma SubBatchesConserveRows(c: Context, rows: seq<Row>)
    requires c.Column().Some?
    ensures SizesOver(c.reader, rows, c.Column().value, c.Dates(rows)) == Dated(c.reader, rows, c.Column().value)
  {
    SortedAscends(c.reader.ColumnDates(rows, c.Column()));
    GroupsConserveRows(c.reader, rows, c.Column().value, c.Dates(rows));
  }

  ghost predicate OpensWithin(calendar: Calendar, d: int) {
    exists x :: d - STEP_CAP <= x <= d && calendar.IsBusinessDay(x)
  }

  /** Whatever the file says or fails to say: the resolution is a business day of a market
      that opens at least once in any STEP_CAP days, and it is flagged exactly when the
      filename carries another date. */
  lemma ResolutionIsABusinessDay(
    reader: Reader, calendar: Calendar, headers: seq<Header>, rows: seq<Row>, filename: string, arrivalDay: int,
    offset: int)
    requires forall d :: OpensWithin(calendar, d)
    ensures var r := Resolved(reader, calendar, headers, rows, filename, arrivalDay, offset);
      && calendar.IsBusinessDay(r.resolved.value)
      && (r.mismatch <==>
            reader.filenameDate(filename).Some? && reader.filenameDate(filename).value != r.resolved.value)
  {
    var r := Resolved(reader, calendar, headers, rows, filename, arrivalDay, offset);
    var explicit := reader.ColumnDates(rows, reader.valueColumn(headers));
    var traded := reader.ColumnDates(rows, reader.tradeColumn(headers));
    if explicit != [] {
      assert OpensWithin(calendar, Dominant(explicit));
    } else if traded != [] {
      assert OpensWithin(calendar, Dominant(Shifted(calendar, traded, offset)));
    } else if reader.filenameDate(filename).Some? {
      assert OpensWithin(calendar, Dominant([reader.filenameDate(filename).value]));
    } else {
      assert OpensWithin(calendar, Dominant([calendar.Previous(arrivalDay)]));
    }
  }

  /** Two sub-batches of one file claim the same slot if and only if the market is shut on
      every day after the first date up to the second, a Friday and its Saturday, and
      opened in the 30 days up to the second. */
  lemma SubBatchesShareASlot(calendar: Calendar, d: int, e: int)
    requires d < e
    ensures calendar.Roll(d) == calendar.Roll(e) <==>
      (forall x | d < x <= e :: !calendar.IsBusinessDay(x)) && OpensWithin(calendar, e)
  {
    var r, s := calendar.Roll(d), calendar.Roll(e);
    calendar.StepsLand(d);
    calendar.StepsLand(e);
    if OpensWithin(calendar, e) {
      assert calendar.IsBusinessDay(s);
      if forall x | d < x <= e :: !calendar.IsBusinessDay(x) {
        assert s <= d && r <= d;
        assert e - STEP_CAP <= s;
        assert !(r < s) && !(s < r);
      }
    } else {
      assert s == e - STEP_CAP;
    }
  }

  // ---- how sure a resolution is ----

  function BaseOf(how: Method): real {
    match how
    case CONTENT_EXPLICIT => CONF_CONTENT_EXPLICIT
    case CONTENT_INFERRED => CONF_CONTENT_INFERRED
    case FILENAME => CONF_FILENAME
    case ARRIVAL_MINUS_CALENDAR => CONF_ARRIVAL
  }

  predicate FromContents(how: Method) {
    how == CONTENT_EXPLICIT || how == CONTENT_INFERRED
  }

  /** `rolled`: the dominant date was not a business day. Only contents can span dates. */
  ghost predicate Graded(reader: Reader, r: Resolution, rolled: bool) {
    var spans := |r.fromContent| > 1;
    && (spans ==> FromContents(r.how))
    && r.confidence == reader.round3(Clamped(Penalised(BaseOf(r.how), spans, rolled)))
  }

  /** The confidence of any resolution is one of the grades its evidence allows. */
  lemma ResolvedIsGraded(
    reader: Reader, calendar: Calendar, headers: seq<Header>, rows: seq<Row>, filename: string, arrivalDay: int,
    offset: int)
    ensures exists rolled ::
      Graded(reader, Resolved(reader, calendar, headers, rows, filename, arrivalDay, offset), rolled)
  {
    var r := Resolved(reader, calendar, headers, rows, filename, arrivalDay, offset);
    var named := reader.filenameDate(filename);
    var explicit := reader.ColumnDates(rows, reader.valueColumn(headers));
    var traded := reader.ColumnDates(rows, reader.tradeColumn(headers));
    var candidates :=
      if explicit != [] then explicit
      else if traded != [] then Shifted(calendar, traded, offset)
      else if named.Some? then [named.value]
      else [calendar.Previous(arrivalDay)];
    if explicit == [] && traded == [] {
      SortedOfOneDay(candidates, candidates[0]);
    }
    assert Graded(reader, r, r.resolved.value != Dominant(candidates));
  }
}
