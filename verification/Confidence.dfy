/** Who a file belongs to (python/src/inspector/attribution.py), how much of it is mapped,
    and what becomes of it (confidence.py). Scores are exact rationals; the required
    fields, their weights and what counts as price evidence are parameters. */
module Confidence {
  import opened Basics
  import opened Mappings
  import opened Rounding
  import V = ValueDates

  // ---- attribution ----

  datatype Evidence = BothAgree | AccountOnly | FilenameOnly | Disagree | ManyClients | Nothing

  datatype Attribution = Attribution(client: Option<string>, confidence: real, conflict: bool)

  function ClientConfidence(e: Evidence): real {
    match e
    case BothAgree => 0.99
    case AccountOnly => 0.95
    case FilenameOnly => 0.80
    case Disagree => 0.45
    case ManyClients => 0.45
    case Nothing => 0.0
  }

  /** What the filename and the accounts found in the file, one client per account, add
      up to. */
  function EvidenceOf(byName: Option<string>, byAccount: seq<string>): Evidence {
    if byAccount != [] && exists i :: 0 <= i < |byAccount| && byAccount[i] != byAccount[0] then ManyClients
    else if byAccount != [] && byName.Some? then if byName.value == byAccount[0] then BothAgree else Disagree
    else if byAccount != [] then AccountOnly
    else if byName.Some? then FilenameOnly
    else Nothing
  }

  /** Everyone the file is said to belong to: the clients its accounts name, and its name's. */
  function Witnesses(byName: Option<string>, byAccount: seq<string>): seq<string> {
    byAccount + if byName.Some? then [byName.value] else []
  }

  ghost predicate Differ(s: seq<string>) {
    exists i, j :: 0 <= i < j < |s| && s[i] != s[j]
  }

  /** A conflict is two witnesses that differ. Accounts of several clients leave the file
      nobody's; otherwise the accounts are believed over the name. */
  ghost predicate Attributed(byName: Option<string>, byAccount: seq<string>, a: Attribution) {
    var all := Witnesses(byName, byAccount);
    && (a.conflict <==> Differ(all))
    && (a.client == None <==> all == [] || Differ(byAccount))
    && (a.client.Some? ==> a.client.value == all[0])
    && (Differ(all) ==> a.confidence == 0.45)
    && (!Differ(all) && byAccount != [] ==> a.confidence == if byName.Some? then 0.99 else 0.95)
    && (byAccount == [] ==> a.confidence == if byName.Some? then 0.80 else 0.0)
  }

  /** `EvidenceOf` sorts the cases as the witnesses do. */
  lemma EvidenceIs(byName: Option<string>, byAccount: seq<string>)
    ensures var e := EvidenceOf(byName, byAccount);
      && (e.ManyClients? <==> Differ(byAccount))
      && (e.ManyClients? || e.Disagree? <==> Differ(Witnesses(byName, byAccount)))
      && (e.BothAgree? ==> byName.Some? && byAccount != [] && byName.value == byAccount[0])
      && (e.AccountOnly? ==> byName.None? && byAccount != [])
      && (e.FilenameOnly? <==> byName.Some? && byAccount == [])
      && (e.Nothing? <==> Witnesses(byName, byAccount) == [])
  {
    var e, all := EvidenceOf(byName, byAccount), Witnesses(byName, byAccount);
    assert forall i | 0 <= i < |byAccount| :: all[i] == byAccount[i];
    if e.ManyClients? {
      var i :| 0 <= i < |byAccount| && byAccount[i] != byAccount[0];
      assert all[0] != all[i];
    } else if e.Disagree? {
      assert all[0] != all[|byAccount|];
    }
  }

  /** What is scanned for account identifiers: the filled cells, read for whole values and,
      when no column is an account column, for the parts that look like identifiers. */
  datatype Scan = Scan(known: map<string, string>, accountColumn: bool, parts: string -> seq<string>) {
    function Noted(found: seq<string>, x: string): seq<string> {
      if x in known && x !in found then found + [x] else found
    }

    function NotedAll(found: seq<string>, xs: seq<string>): seq<string> {
      if xs == [] then found else Noted(NotedAll(found, xs[..|xs| - 1]), xs[|xs| - 1])
    }

    /** A cell that is itself a newly seen identifier is not looked into. */
    function AfterCell(found: seq<string>, cell: string): seq<string> {
      if (cell in known && cell !in found) || accountColumn then Noted(found, cell)
      else NotedAll(found, parts(cell))
    }

    function FoundIn(cells: seq<string>): seq<string> {
      if cells == [] then [] else AfterCell(FoundIn(cells[..|cells| - 1]), cells[|cells| - 1])
    }

    method FindAccountIds(cells: seq<string>) returns (found: seq<string>)
      ensures found == FoundIn(cells)
    {
      found := [];
      for i := 0 to |cells|
        invariant found == FoundIn(cells[..i])
      {
        assert cells[..i + 1] == cells[..i] + [cells[i]];
        var value := cells[i];
        if value in known && value !in found {
          found := found + [value];
          continue;
        }
        if !accountColumn {
          var candidates := parts(value);
          ghost var before := found;
          for j := 0 to |candidates|
            invariant found == NotedAll(before, candidates[..j])
          {
            assert candidates[..j + 1] == candidates[..j] + [candidates[j]];
            if candidates[j] in known && candidates[j] !in found {
              found := found + [candidates[j]];
            }
          }
          assert candidates[..|candidates|] == candidates;
        }
      }
      assert cells[..|cells|] == cells;
    }

    ghost predicate MentionedIn(cell: string, x: string) {
      cell == x || (!accountColumn && x in parts(cell))
    }

    /** Known identifiers, each once. */
    ghost predicate AllKnown(found: seq<string>) {
      (forall x | x in found :: x in known) && forall i, j | 0 <= i < j < |found| :: found[i] != found[j]
    }

    lemma {:induction false} NotedAllIs(found: seq<string>, xs: seq<string>)
      requires AllKnown(found)
      ensures found <= NotedAll(found, xs) && AllKnown(NotedAll(found, xs))
      ensures forall x :: x in NotedAll(found, xs) <==> x in found || (x in xs && x in known)
    {
      if xs != [] {
        var init, last := xs[..|xs| - 1], xs[|xs| - 1];
        NotedAllIs(found, init);
        assert xs == init + [last];
      }
    }

    ghost predicate Brings(found: seq<string>, cell: string, x: string) {
      x in known && if cell in known && cell !in found then x == cell else MentionedIn(cell, x)
    }

    lemma AfterCellIs(found: seq<string>, cell: string)
      requires AllKnown(found)
      ensures found <= AfterCell(found, cell) && AllKnown(AfterCell(found, cell))
      ensures forall x :: x in AfterCell(found, cell) <==> x in found || Brings(found, cell, x)
    {
      NotedAllIs(found, parts(cell));
    }

    /** `x` is known and is cell `i` or a part of it; if cell `i` is an identifier that no
        earlier cell brought, only the whole cell counts. */
    ghost predicate Contributes(cells: seq<string>, i: nat, x: string) {
      i < |cells| && Brings(FoundIn(cells[..i]), cells[i], x)
    }

    ghost predicate Contributed(cells: seq<string>, x: string) {
      exists i: nat :: Contributes(cells, i, x)
    }

    /** The scan yields known identifiers, each once, in the order the cells bring them,
        and exactly those some cell brings. */
    lemma {:induction false} FoundExactly(cells: seq<string>, n: nat)
      requires n <= |cells|
      ensures AllKnown(FoundIn(cells)) && FoundIn(cells[..n]) <= FoundIn(cells)
      ensures forall x :: x in FoundIn(cells) <==> Contributed(cells, x)
    {
      if cells != [] {
        var k := |cells| - 1;
        var init := cells[..k];
        FoundExactly(init, if n < k then n else k);
        AfterCellIs(FoundIn(init), cells[k]);
        assert n <= k ==> init[..n] == cells[..n];
        assert cells[..|cells|] == cells && init[..k] == init;
        forall x ensures x in FoundIn(cells) <==> Contributed(cells, x) {
          ContributedBefore(cells, k, x);
        }
      }
    }

    lemma ContributedBefore(cells: seq<string>, k: nat, x: string)
      requires k + 1 == |cells|
      ensures Contributed(cells, x) <==> Contributed(cells[..k], x) || Brings(FoundIn(cells[..k]), cells[k], x)
    {
      forall i: nat | i < k ensures Contributes(cells, i, x) <==> Contributes(cells[..k], i, x) {
        assert cells[..k][..i] == cells[..i];
      }
      assert Contributes(cells, k, x) <==> Brings(FoundIn(cells[..k]), cells[k], x);
    }
  }

  method Attribute(byName: Option<string>, byAccount: seq<string>) returns (a: Attribution)
    ensures var e := EvidenceOf(byName, byAccount);
      && a.confidence == ClientConfidence(e)
      && (a.conflict <==> e.Disagree? || e.ManyClients?)
      && a.client ==
           if e.ManyClients? || e.Nothing? then None else if e.FilenameOnly? then byName else Some(byAccount[0])
    ensures Attributed(byName, byAccount, a)
  {
    EvidenceIs(byName, byAccount);
    var account := None;
    if byAccount != [] {
      account := Some(byAccount[0]);
      for i := 0 to |byAccount|
        invariant forall k | 0 <= k < i :: byAccount[k] == byAccount[0]
      {
        if byAccount[i] != byAccount[0] {
          return Attribution(None, 0.45, true);
        }
      }
    }
    if account.Some? && byName.Some? {
      if account == byName {
        return Attribution(account, 0.99, false);
      }
      return Attribution(account, 0.45, true);
    }
    if account.Some? {
      return Attribution(account, 0.95, false);
    }
    if byName.Some? {
      return Attribution(byName, 0.80, false);
    }
    a := Attribution(None, 0.0, false);
  }

  // ---- coverage ----

  /** The last column that holds a field speaks for it. */
  function HolderOf(ms: seq<Mapping>, f: Field): Option<Mapping> {
    if ms == [] then None
    else
      var last := ms[|ms| - 1];
      if Holds(last) && last.canonical.value == f then Some(last) else HolderOf(ms[..|ms| - 1], f)
  }

  function TotalWeight(required: seq<Field>, weight: Field -> real, n: nat): real
    requires n <= |required|
  {
    if n == 0 then 0.0 else TotalWeight(required, weight, n - 1) + weight(required[n - 1])
  }

  function Earned(ms: seq<Mapping>, required: seq<Field>, weight: Field -> real, n: nat): real
    requires n <= |required|
  {
    if n == 0 then 0.0
    else Earned(ms, required, weight, n - 1) + Credit(ms, weight, required[n - 1])
  }

  function Missing(ms: seq<Mapping>, required: seq<Field>, n: nat): seq<Field>
    requires n <= |required|
  {
    if n == 0 then []
    else Missing(ms, required, n - 1) + if HolderOf(ms, required[n - 1]).None? then [required[n - 1]] else []
  }

  function Coverage(ms: seq<Mapping>, required: seq<Field>, weight: Field -> real): real {
    var total := TotalWeight(required, weight, |required|);
    if required == [] || total == 0.0 then 1.0 else Earned(ms, required, weight, |required|) / total
  }

  method MappingCoverage(ms: seq<Mapping>, required: seq<Field>, weight: Field -> real, round4: real -> real)
    returns (coverage: real, missing: seq<Field>)
    ensures missing == Missing(ms, required, |required|)
    ensures coverage == if required == [] then 1.0 else round4(Coverage(ms, required, weight))
  {
    if required == [] {
      return 1.0, [];
    }
    var total, earned := 0.0, 0.0;
    missing := [];
    for i := 0 to |required|
      invariant total == TotalWeight(required, weight, i) && earned == Earned(ms, required, weight, i)
      invariant missing == Missing(ms, required, i)
    {
      var f := required[i];
      total := total + weight(f);
      var m := HolderOf(ms, f);
      if m.None? {
        missing := missing + [f];
        continue;
      }
      earned := earned + Times(weight(f), m.value.confidence);
    }
    coverage := round4(if total != 0.0 then earned / total else 1.0);
  }

  ghost predicate Sensible(ms: seq<Mapping>, weight: Field -> real) {
    (forall f :: weight(f) > 0.0) && forall i | 0 <= i < |ms| :: 0.0 <= ms[i].confidence <= 1.0
  }

  lemma {:induction false} HolderIsAColumn(ms: seq<Mapping>, f: Field)
    ensures HolderOf(ms, f).Some? ==> HolderOf(ms, f).value in ms
    ensures HolderOf(ms, f).Some? <==> exists i :: HoldsAt(ms, i, f)
  {
    if ms != [] {
      var n := |ms| - 1;
      HolderIsAColumn(ms[..n], f);
      if i :| HoldsAt(ms[..n], i, f) {
        assert HoldsAt(ms, i, f);
      }
      assert Holds(ms[n]) && ms[n].canonical.value == f ==> HoldsAt(ms, n, f);
      forall i | HoldsAt(ms, i, f) && i < n ensures HoldsAt(ms[..n], i, f) {}
    }
  }

  lemma {:induction false} MissingIsUnheld(ms: seq<Mapping>, required: seq<Field>, n: nat, f: Field)
    requires n <= |required|
    ensures f in Missing(ms, required, n) <==> (f in required[..n] && HolderOf(ms, f).None?)
  {
    if n > 0 {
      MissingIsUnheld(ms, required, n - 1, f);
      assert required[..n] == required[..n - 1] + [required[n - 1]];
    }
  }

  function Times(w: real, c: real): real {
    w * c
  }

  lemma Share(w: real, c: real)
    requires w > 0.0 && 0.0 <= c <= 1.0
    ensures 0.0 <= Times(w, c) <= w
  {}

  function Credit(ms: seq<Mapping>, weight: Field -> real, f: Field): real {
    var m := HolderOf(ms, f);
    if m.Some? then Times(weight(f), m.value.confidence) else 0.0
  }

  lemma CreditIsAShare(ms: seq<Mapping>, weight: Field -> real, f: Field)
    requires Sensible(ms, weight)
    ensures 0.0 <= Credit(ms, weight, f) <= weight(f)
  {
    HolderIsAColumn(ms, f);
    var m := HolderOf(ms, f);
    if m.Some? {
      var i :| 0 <= i < |ms| && ms[i] == m.value;
      assert weight(f) > 0.0 && 0.0 <= ms[i].confidence <= 1.0;
      Share(weight(f), m.value.confidence);
    }
  }

  lemma {:induction false} EarnedIsAShare(ms: seq<Mapping>, required: seq<Field>, weight: Field -> real, n: nat)
    requires n <= |required| && Sensible(ms, weight)
    ensures 0.0 <= Earned(ms, required, weight, n) <= TotalWeight(required, weight, n)
    ensures n > 0 ==> TotalWeight(required, weight, n) > 0.0
  {
    if n > 0 {
      EarnedIsAShare(ms, required, weight, n - 1);
      CreditIsAShare(ms, weight, required[n - 1]);
    }
  }

  lemma Quotient(a: real, b: real)
    requires 0.0 <= a <= b && b > 0.0
    ensures 0.0 <= a / b <= 1.0
  {}

  /** Coverage is a share of one, and a field is missing exactly when no column holds it. */
  lemma CoverageIsAShare(ms: seq<Mapping>, required: seq<Field>, weight: Field -> real)
    requires Sensible(ms, weight)
    ensures 0.0 <= Coverage(ms, required, weight) <= 1.0
    ensures forall f :: f in Missing(ms, required, |required|) <==> f in required && forall i :: !HoldsAt(ms, i, f)
  {
    EarnedIsAShare(ms, required, weight, |required|);
    if required != [] {
      Quotient(Earned(ms, required, weight, |required|), TotalWeight(required, weight, |required|));
    }
    forall f ensures f in Missing(ms, required, |required|) <==> f in required && forall i :: !HoldsAt(ms, i, f) {
      MissingExactly(ms, required, f);
    }
  }

  lemma MissingExactly(ms: seq<Mapping>, required: seq<Field>, f: Field)
    ensures f in Missing(ms, required, |required|) <==> f in required && forall i :: !HoldsAt(ms, i, f)
  {
    MissingIsUnheld(ms, required, |required|, f);
    HolderIsAColumn(ms, f);
    assert required[..|required|] == required;
  }

  ghost predicate LastHolder(ms: seq<Mapping>, f: Field, i: int) {
    HoldsAt(ms, i, f) && forall j | i < j :: !HoldsAt(ms, j, f)
  }

  /** Of several columns on one field the last one speaks for it. */
  lemma {:induction false} HolderIsTheLast(ms: seq<Mapping>, f: Field)
    ensures HolderOf(ms, f).Some? ==> exists i :: LastHolder(ms, f, i) && HolderOf(ms, f).value == ms[i]
  {
    if ms != [] {
      var n := |ms| - 1;
      if Holds(ms[n]) && ms[n].canonical.value == f {
        assert LastHolder(ms, f, n);
      } else {
        HolderIsTheLast(ms[..n], f);
        if HolderOf(ms, f).Some? {
          var i :| LastHolder(ms[..n], f, i) && HolderOf(ms, f).value == ms[..n][i];
          assert forall j | i < j :: HoldsAt(ms, j, f) ==> j == n || HoldsAt(ms[..n], j, f);
          assert LastHolder(ms, f, i);
        }
      }
    }
  }

  /** Every column that speaks for a field does so with confidence `c`. */
  ghost predicate SpeakAlike(ms: seq<Mapping>, c: real) {
    forall i | 0 <= i < |ms| && Holds(ms[i]) :: ms[i].confidence == c
  }

  lemma SpeaksAlike(ms: seq<Mapping>, weight: Field -> real, f: Field, c: real)
    requires SpeakAlike(ms, c)
    ensures Credit(ms, weight, f) == if HolderOf(ms, f).Some? then Times(weight(f), c) else 0.0
  {
    HolderIsTheLast(ms, f);
  }

  lemma Distribute(w: real, x: real, c: real)
    ensures Times(w + x, c) == Times(w, c) + Times(x, c)
  {}

  lemma {:induction false} EarnedIsWhatIsNotMissing(
    ms: seq<Mapping>, required: seq<Field>, weight: Field -> real, c: real, n: nat)
    requires n <= |required| && SpeakAlike(ms, c)
    ensures var missing := Missing(ms, required, n);
      Earned(ms, required, weight, n) ==
        Times(TotalWeight(required, weight, n) - TotalWeight(missing, weight, |missing|), c)
  {
    if n > 0 {
      var f, before := required[n - 1], Missing(ms, required, n - 1);
      var held := TotalWeight(required, weight, n - 1) - TotalWeight(before, weight, |before|);
      EarnedIsWhatIsNotMissing(ms, required, weight, c, n - 1);
      SpeaksAlike(ms, weight, f, c);
      if HolderOf(ms, f).Some? {
        assert Missing(ms, required, n) == before;
        Distribute(held, weight(f), c);
      } else {
        WeightGrows(before, weight, f);
      }
    }
  }

  lemma WeightGrows(fields: seq<Field>, weight: Field -> real, f: Field)
    ensures TotalWeight(fields + [f], weight, |fields| + 1) == TotalWeight(fields, weight, |fields|) + weight(f)
  {
    SamePrefix(fields, fields + [f], weight, |fields|);
  }

  lemma {:induction false} SamePrefix(a: seq<Field>, b: seq<Field>, weight: Field -> real, n: nat)
    requires n <= |a| && a <= b
    ensures TotalWeight(a, weight, n) == TotalWeight(b, weight, n)
  {
    if n > 0 {
      SamePrefix(a, b, weight, n - 1);
    }
  }

  /** Columns of one confidence cover that confidence of the weight that is not missing. */
  lemma CoverageLosesTheMissingWeight(ms: seq<Mapping>, required: seq<Field>, weight: Field -> real, c: real)
    requires SpeakAlike(ms, c) && TotalWeight(required, weight, |required|) != 0.0
    ensures var missing, total := Missing(ms, required, |required|), TotalWeight(required, weight, |required|);
      Times(Coverage(ms, required, weight), total) == Times(total - TotalWeight(missing, weight, |missing|), c)
  {
    EarnedIsWhatIsNotMissing(ms, required, weight, c, |required|);
  }

  // ---- routing ----

  datatype Disposition = REJECTED | QUARANTINED | DISPATCHED {
    function Rank(): nat {
      match this
      case REJECTED => 0
      case QUARANTINED => 1
      case DISPATCHED => 2
    }
  }

  const W_CLIENT := 0.35
  const W_VALUE_DATE := 0.35
  const W_MAPPING := 0.30

  datatype Thresholds = Thresholds(dispatch: real, quarantine: real)

  /** A threshold from the environment: unreadable or out of range means the default. */
  function ThresholdOr(given: Option<real>, standard: real): (t: real)
    ensures 0.0 <= standard <= 1.0 ==> 0.0 <= t <= 1.0
  {
    if given.Some? && 0.0 <= given.value <= 1.0 then given.value else standard
  }

  function Configured(dispatch: Option<real>, quarantine: Option<real>): Thresholds {
    Thresholds(ThresholdOr(dispatch, 0.85), ThresholdOr(quarantine, 0.60))
  }

  const DEFAULTS := Configured(None, None)

  /** No client or no date is disqualifying whatever the average says, and so is a missing
      required field. */
  function Route(t: Thresholds, overall: real, known: bool, missing: bool): Disposition {
    if !known then if overall >= t.quarantine / 2.0 then QUARANTINED else REJECTED
    else if missing then QUARANTINED
    else if overall >= t.dispatch then DISPATCHED
    else if overall >= t.quarantine then QUARANTINED
    else REJECTED
  }

  function Weighed(client: real, date: real, coverage: real): real {
    W_CLIENT * client + W_VALUE_DATE * date + W_MAPPING * coverage
  }

  datatype Reason =
    | NoClient
    | ClientConflict
    | NoDate
    | DateDisagreement
    | WeakDate
    | Unmapped(field: Field)
    | WeaklyMapped(field: Field)
    | PriceUnassigned(source: Header)

  datatype Score = Score(
    overall: real, client: real, date: real, coverage: real, disposition: Disposition, reasons: seq<Reason>,
    missing: seq<Field>)

  /** What scoring is done with. */
  datatype Scorer = Scorer(
    required: seq<Field>, weight: Field -> real, round4: real -> real, priceEvidence: Mapping -> bool,
    limits: Thresholds)
  {
    function CoverageOf(ms: seq<Mapping>): real {
      if required == [] then 1.0 else round4(Coverage(ms, required, weight))
    }

    function DateConfidence(date: V.Resolution): real {
      if date.resolved.Some? then date.confidence else 0.0
    }

    function OverallOf(a: Attribution, date: V.Resolution, ms: seq<Mapping>): real {
      round4(Weighed(a.confidence, DateConfidence(date), CoverageOf(ms)))
    }

    function DispositionOf(a: Attribution, date: V.Resolution, ms: seq<Mapping>): Disposition {
      Route(limits, OverallOf(a, date, ms), a.client.Some? && date.resolved.Some?,
            Missing(ms, required, |required|) != [])
    }

    predicate IsWeak(m: Mapping) {
      Holds(m) && m.canonical.value in required && m.confidence < 0.7
    }

    predicate IsAmbiguousPrice(m: Mapping) {
      IsOpen(m) && priceEvidence(m)
    }

    function FieldReasons(missing: seq<Field>, n: nat): seq<Reason>
      requires n <= |missing|
    {
      if n == 0 then [] else FieldReasons(missing, n - 1) + [Unmapped(missing[n - 1])]
    }

    function WeakReasons(ms: seq<Mapping>, n: nat): seq<Reason>
      requires n <= |ms|
    {
      if n == 0 then []
      else WeakReasons(ms, n - 1) + if IsWeak(ms[n - 1]) then [WeaklyMapped(ms[n - 1].canonical.value)] else []
    }

    function PriceReasons(ms: seq<Mapping>, n: nat): seq<Reason>
      requires n <= |ms|
    {
      if n == 0 then []
      else PriceReasons(ms, n - 1) + if IsAmbiguousPrice(ms[n - 1]) then [PriceUnassigned(ms[n - 1].source)] else []
    }

    function ClientReasons(a: Attribution): seq<Reason> {
      if a.client.None? then [NoClient] else if a.conflict then [ClientConflict] else []
    }

    function DateReasons(date: V.Resolution): seq<Reason> {
      if date.resolved.None? then [NoDate]
      else (if date.mismatch then [DateDisagreement] else []) + if date.confidence < 0.7 then [WeakDate] else []
    }

    /** Every concern there is, in the order they are noted. */
    function Concerns(a: Attribution, date: V.Resolution, ms: seq<Mapping>): seq<Reason> {
      var missing := Missing(ms, required, |required|);
      ClientReasons(a) + DateReasons(date) + FieldReasons(missing, |missing|)
      + WeakReasons(ms, |ms|) + PriceReasons(ms, |ms|)
    }

    function Kept(reasons: seq<Reason>): seq<Reason> {
      if reasons == [] then []
      else
        var last := reasons[|reasons| - 1];
        Kept(reasons[..|reasons| - 1]) + if last.DateDisagreement? then [last] else []
    }

    /** What is shown with the file: a dispatched file has no open questions. */
    function Shown(a: Attribution, date: V.Resolution, ms: seq<Mapping>): seq<Reason> {
      if DispositionOf(a, date, ms).DISPATCHED? then Kept(Concerns(a, date, ms)) else Concerns(a, date, ms)
    }

    method Compose(a: Attribution, date: V.Resolution, ms: seq<Mapping>) returns (s: Score)
      ensures s.overall == OverallOf(a, date, ms) && s.disposition == DispositionOf(a, date, ms)
      ensures s.client == a.confidence && s.date == DateConfidence(date) && s.coverage == CoverageOf(ms)
      ensures s.missing == Missing(ms, required, |required|)
      ensures s.reasons == Shown(a, date, ms)
    {
      var coverage, missing := MappingCoverage(ms, required, weight, round4);
      var dateConfidence := if date.resolved.Some? then date.confidence else 0.0;
      var overall := round4(Weighed(a.confidence, dateConfidence, coverage));
      var reasons := Gather(a, date, ms, missing);
      var disposition := Route(limits, overall, a.client.Some? && date.resolved.Some?, missing != []);
      if disposition == DISPATCHED {
        reasons := Kept(reasons);
      }
      s := Score(overall, a.confidence, dateConfidence, coverage, disposition, reasons, missing);
    }

    method Gather(a: Attribution, date: V.Resolution, ms: seq<Mapping>, missing: seq<Field>)
      returns (reasons: seq<Reason>)
      requires missing == Missing(ms, required, |required|)
      ensures reasons == Concerns(a, date, ms)
    {
      reasons := if a.client.None? then [NoClient] else if a.conflict then [ClientConflict] else [];
      var dated := DateConcerns(date);
      var more := FieldConcerns(missing, ms);
      reasons := reasons + dated + more;
    }

    method DateConcerns(date: V.Resolution) returns (reasons: seq<Reason>)
      ensures reasons == DateReasons(date)
    {
      if date.resolved.None? {
        return [NoDate];
      }
      reasons := [];
      if date.mismatch {
        reasons := reasons + [DateDisagreement];
      }
      if date.confidence < 0.7 {
        reasons := reasons + [WeakDate];
      }
    }

    method FieldConcerns(missing: seq<Field>, ms: seq<Mapping>) returns (reasons: seq<Reason>)
      ensures reasons == FieldReasons(missing, |missing|) + WeakReasons(ms, |ms|) + PriceReasons(ms, |ms|)
    {
      var fields, weak, prices := [], [], [];
      for i := 0 to |missing|
        invariant fields == FieldReasons(missing, i)
      {
        fields := fields + [Unmapped(missing[i])];
      }
      for i := 0 to |ms|
        invariant weak == WeakReasons(ms, i)
      {
        if IsWeak(ms[i]) {
          weak := weak + [WeaklyMapped(ms[i].canonical.value)];
        }
      }
      for i := 0 to |ms|
        invariant prices == PriceReasons(ms, i)
      {
        if IsAmbiguousPrice(ms[i]) {
          prices := prices + [PriceUnassigned(ms[i].source)];
        }
      }
      reasons := fields + weak + prices;
    }
  }

  // ---- better evidence never hurts ----

  ghost predicate Monotone(round: real -> real) {
    forall x, y | x <= y :: round(x) <= round(y)
  }

  /** The same columns holding the same fields, none with less confidence. */
  ghost predicate Raised(before: seq<Mapping>, after: seq<Mapping>) {
    && |after| == |before|
    && forall i | 0 <= i < |before| ::
         after[i].canonical == before[i].canonical && after[i].confidence >= before[i].confidence
  }

  lemma RouteIsMonotone(t: Thresholds, low: real, high: real, known: bool, missing: bool)
    requires low <= high
    ensures Route(t, low, known, missing).Rank() <= Route(t, high, known, missing).Rank()
  {}

  lemma {:induction false} HolderIsRaised(before: seq<Mapping>, after: seq<Mapping>, f: Field)
    requires Raised(before, after)
    ensures var m, n := HolderOf(before, f), HolderOf(after, f);
      m.Some? == n.Some? && (m.Some? ==> m.value.confidence <= n.value.confidence)
  {
    if before != [] {
      var k := |before| - 1;
      assert Raised(before[..k], after[..k]);
      HolderIsRaised(before[..k], after[..k], f);
    }
  }

  lemma ScaledUp(w: real, x: real, y: real)
    requires w >= 0.0 && x <= y
    ensures Times(w, x) <= Times(w, y)
  {}

  lemma CreditIsRaised(before: seq<Mapping>, after: seq<Mapping>, weight: Field -> real, f: Field)
    requires Raised(before, after) && weight(f) >= 0.0
    ensures Credit(before, weight, f) <= Credit(after, weight, f)
  {
    HolderIsRaised(before, after, f);
    if HolderOf(before, f).Some? {
      ScaledUp(weight(f), HolderOf(before, f).value.confidence, HolderOf(after, f).value.confidence);
    }
  }

  lemma {:induction false} EarnedIsRaised(
    before: seq<Mapping>, after: seq<Mapping>, required: seq<Field>, weight: Field -> real, n: nat)
    requires Raised(before, after) && n <= |required| && forall f :: weight(f) > 0.0
    ensures Earned(before, required, weight, n) <= Earned(after, required, weight, n)
    ensures Missing(before, required, n) == Missing(after, required, n)
    ensures TotalWeight(required, weight, n) >= 0.0
    ensures n > 0 ==> TotalWeight(required, weight, n) > 0.0
  {
    if n > 0 {
      EarnedIsRaised(before, after, required, weight, n - 1);
      CreditIsRaised(before, after, weight, required[n - 1]);
      HolderIsRaised(before, after, required[n - 1]);
    }
  }

  lemma Divided(a: real, b: real, total: real)
    requires a <= b && total > 0.0
    ensures a / total <= b / total
  {}

  lemma CoverageIsRaised(before: seq<Mapping>, after: seq<Mapping>, required: seq<Field>, weight: Field -> real)
    requires Raised(before, after) && forall f :: weight(f) > 0.0
    ensures Coverage(before, required, weight) <= Coverage(after, required, weight)
    ensures Missing(before, required, |required|) == Missing(after, required, |required|)
  {
    var n := |required|;
    EarnedIsRaised(before, after, required, weight, n);
    if n > 0 {
      var total := TotalWeight(required, weight, n);
      Divided(Earned(before, required, weight, n), Earned(after, required, weight, n), total);
    }
  }

  /** For all thresholds: raising the client's, the date's or any column's confidence, all
      else as it was, never worsens the disposition. */
  lemma RaisingConfidenceNeverHurts(
    s: Scorer, a: Attribution, b: Attribution, date: V.Resolution, later: V.Resolution, ms: seq<Mapping>,
    ns: seq<Mapping>)
    requires s.round4 == Round4 && forall f :: s.weight(f) > 0.0
    requires b.client == a.client && a.confidence <= b.confidence
    requires later.resolved == date.resolved && date.confidence <= later.confidence
    requires Raised(ms, ns)
    ensures s.DispositionOf(a, date, ms).Rank() <= s.DispositionOf(b, later, ns).Rank()
  {
    Round4RoundsTo4();
    CoverageIsRaised(ms, ns, s.required, s.weight);
    assert s.CoverageOf(ms) <= s.CoverageOf(ns);
    var low := Weighed(a.confidence, s.DateConfidence(date), s.CoverageOf(ms));
    var high := Weighed(b.confidence, s.DateConfidence(later), s.CoverageOf(ns));
    assert low <= high;
    RouteIsMonotone(
      s.limits, s.round4(low), s.round4(high), a.client.Some? && date.resolved.Some?,
      Missing(ms, s.required, |s.required|) != []);
  }

  /** Learning whose file it is, and with it perhaps the domain and its fields, worsens
      the disposition if and only if no field is missing and the score, at least half the
      quarantine threshold before, falls short of both thresholds after. */
  lemma KnowingTheClientCanWorsen(
    s: Scorer, a: Attribution, ms: seq<Mapping>, t: Scorer, b: Attribution, ns: seq<Mapping>, date: V.Resolution)
    requires a.client.None? && b.client.Some? && date.resolved.Some? && t.limits == s.limits
    ensures t.DispositionOf(b, date, ns).Rank() < s.DispositionOf(a, date, ms).Rank() <==>
      && Missing(ns, t.required, |t.required|) == []
      && s.OverallOf(a, date, ms) >= s.limits.quarantine / 2.0
      && t.OverallOf(b, date, ns) < s.limits.quarantine && t.OverallOf(b, date, ns) < s.limits.dispatch
  {}

  // ---- what can ever be dispatched at the default thresholds ----

  function Grid(n: int): real {
    n as real / 10000.0
  }

  /** All that is needed of round(x, 4). */
  ghost predicate RoundsTo4(round: real -> real) {
    Monotone(round) && forall n :: round(Grid(n)) == Grid(n)
  }

  lemma Round4RoundsTo4()
    ensures RoundsTo4(Round4)
  {
    forall x, y | x <= y ensures Round4(x) <= Round4(y) {
      RoundingIsMonotone(x, y);
    }
    forall n ensures Round4(Grid(n)) == Grid(n) {
      NearestFixesIntegers(n);
      assert Grid(n) * 10000.0 == n as real;
    }
  }

  function ClientGrade(e: Evidence): nat {
    match e
    case BothAgree => 990
    case AccountOnly => 950
    case FilenameOnly => 800
    case Disagree => 450
    case ManyClients => 450
    case Nothing => 0
  }

  function DateGrade(how: V.Method, spans: bool, rolled: bool): nat {
    var base :=
      match how
      case CONTENT_EXPLICIT => if spans then 873 else 970
      case CONTENT_INFERRED => if spans then 765 else 850
      case FILENAME => if spans then 630 else 700
      case ARRIVAL_MINUS_CALENDAR => if spans then 495 else 550;
    if rolled then base - 100 else base
  }

  lemma ClientGradeIs(e: Evidence)
    ensures ClientConfidence(e) == ClientGrade(e) as real / 1000.0
  {}

  lemma DateGradeIs(how: V.Method, spans: bool, rolled: bool)
    ensures V.Clamped(V.Penalised(V.BaseOf(how), spans, rolled)) == DateGrade(how, spans, rolled) as real / 1000.0
  {}

  lemma Round3KeepsThousandths(n: nat)
    ensures Round3(n as real / 1000.0) == n as real / 1000.0
  {
    NearestFixesIntegers(n);
    assert n as real / 1000.0 * 1000.0 == n as real;
  }

  /** What it takes: two witnesses, neither of them alone the name of the file, none of them
      the time it came; with only an account a filename date must be a business day, with
      only a filename the contents must name one date outright. */
  predicate EnoughEvidence(e: Evidence, how: V.Method, spans: bool, rolled: bool) {
    match e
    case BothAgree => how != V.ARRIVAL_MINUS_CALENDAR
    case AccountOnly => V.FromContents(how) || (how == V.FILENAME && !rolled)
    case FilenameOnly => how == V.CONTENT_EXPLICIT || (how == V.CONTENT_INFERRED && !spans && !rolled)
    case _ => false
  }

  lemma GradesThatSuffice(e: Evidence, how: V.Method, spans: bool, rolled: bool)
    requires spans ==> V.FromContents(how)
    ensures ClientGrade(e) + DateGrade(how, spans, rolled) >= 1572 <==> EnoughEvidence(e, how, spans, rolled)
  {}

  /** At best: the coverage that is still missing cannot make up for weak witnesses. */
  lemma DispatchableGrades(round4: real -> real, grades: nat, client: real, date: real, coverage: real)
    requires RoundsTo4(round4) && 0.0 <= coverage <= 1.0 && client + date == grades as real / 1000.0
    ensures round4(Weighed(client, date, coverage)) >= 0.85 ==> grades >= 1572
    ensures coverage == 1.0 && grades >= 1572 ==> round4(Weighed(client, date, coverage)) >= 0.85
  {
    var x := Weighed(client, date, coverage);
    assert x == 0.35 * (client + date) + 0.30 * coverage;
    if grades < 1572 {
      assert x <= Grid(8499) && round4(Grid(8499)) == Grid(8499);
    } else if coverage == 1.0 {
      assert Grid(8500) <= x && round4(Grid(8500)) == Grid(8500);
    }
  }

  ghost predicate RoundsTo3(round: real -> real) {
    forall n: nat :: round(Thousandths(n)) == Thousandths(n)
  }

  function Thousandths(n: nat): real {
    n as real / 1000.0
  }

  lemma Round3RoundsTo3()
    ensures RoundsTo3(Round3)
  {
    forall n: nat ensures Round3(Thousandths(n)) == Thousandths(n) {
      Round3KeepsThousandths(n);
    }
  }

  lemma CoverageOfIsAShare(s: Scorer, ms: seq<Mapping>)
    requires RoundsTo4(s.round4) && Sensible(ms, s.weight)
    ensures 0.0 <= s.CoverageOf(ms) <= 1.0
  {
    CoverageIsAShare(ms, s.required, s.weight);
    assert s.round4(Grid(0)) == Grid(0) && s.round4(Grid(10000)) == Grid(10000);
  }

  lemma DispatchGrades(
    s: Scorer, reader: V.Reader, e: Evidence, a: Attribution, date: V.Resolution, rolled: bool, ms: seq<Mapping>)
    requires s.limits == DEFAULTS && s.round4 == Round4 && Sensible(ms, s.weight)
    requires a.confidence == ClientConfidence(e)
    requires V.Graded(reader, date, rolled) && reader.round3 == Round3
    ensures s.DispositionOf(a, date, ms).DISPATCHED? ==> EnoughEvidence(e, date.how, |date.fromContent| > 1, rolled)
    ensures
      EnoughEvidence(e, date.how, |date.fromContent| > 1, rolled) && a.client.Some? && date.resolved.Some?
      && Missing(ms, s.required, |s.required|) == [] && s.CoverageOf(ms) == 1.0
      ==> s.DispositionOf(a, date, ms).DISPATCHED?
  {
    Round4RoundsTo4();
    Round3RoundsTo3();
    var spans := |date.fromContent| > 1;
    var grade := DateGrade(date.how, spans, rolled);
    ClientGradeIs(e);
    DateGradeIs(date.how, spans, rolled);
    assert reader.round3(Thousandths(grade)) == Thousandths(grade);
    GradesThatSuffice(e, date.how, spans, rolled);
    CoverageOfIsAShare(s, ms);
    DispatchableGrades(s.round4, ClientGrade(e) + grade, a.confidence, date.confidence, s.CoverageOf(ms));
  }

  /** Of a file's name and accounts: all witnesses say one client, and what dates it is
      strong enough for how many kinds of them there are. */
  ghost predicate Sufficient(
    byName: Option<string>, byAccount: seq<string>, how: V.Method, spans: bool, rolled: bool)
  {
    && !Differ(Witnesses(byName, byAccount))
    && (byName.Some? && byAccount != [] ==> how != V.ARRIVAL_MINUS_CALENDAR)
    && (byName.None? && byAccount != [] ==> V.FromContents(how) || (how == V.FILENAME && !rolled))
    && (byName.Some? && byAccount == [] ==>
          how == V.CONTENT_EXPLICIT || (how == V.CONTENT_INFERRED && !spans && !rolled))
    && (byName.Some? || byAccount != [])
  }

  lemma SufficientIs(byName: Option<string>, byAccount: seq<string>, how: V.Method, spans: bool, rolled: bool)
    ensures Sufficient(byName, byAccount, how, spans, rolled) <==>
      EnoughEvidence(EvidenceOf(byName, byAccount), how, spans, rolled)
  {
    EvidenceIs(byName, byAccount);
  }

  lemma AttributedGrades(byName: Option<string>, byAccount: seq<string>, a: Attribution)
    requires Attributed(byName, byAccount, a)
    ensures Attributes(EvidenceOf(byName, byAccount), a)
  {
    EvidenceIs(byName, byAccount);
  }

  /** At the default thresholds a file is dispatched only on sufficient evidence, however
      well its columns map: never when two witnesses differ, never on its arrival time,
      never on its filename alone. And sufficient evidence does dispatch it once every
      required field is mapped with full confidence. */
  lemma DispatchNeedsEnoughEvidence(
    s: Scorer, reader: V.Reader, byName: Option<string>, byAccount: seq<string>, a: Attribution, date: V.Resolution,
    rolled: bool, ms: seq<Mapping>)
    requires s.limits == DEFAULTS && s.round4 == Round4 && Sensible(ms, s.weight)
    requires Attributed(byName, byAccount, a)
    requires V.Graded(reader, date, rolled) && reader.round3 == Round3
    ensures Differ(Witnesses(byName, byAccount)) ==> !s.DispositionOf(a, date, ms).DISPATCHED?
    ensures s.DispositionOf(a, date, ms).DISPATCHED? ==>
      Sufficient(byName, byAccount, date.how, |date.fromContent| > 1, rolled)
    ensures
      Sufficient(byName, byAccount, date.how, |date.fromContent| > 1, rolled) && date.resolved.Some?
      && Missing(ms, s.required, |s.required|) == [] && s.CoverageOf(ms) == 1.0
      ==> s.DispositionOf(a, date, ms).DISPATCHED?
  {
    var e := EvidenceOf(byName, byAccount);
    AttributedGrades(byName, byAccount, a);
    DispatchGrades(s, reader, e, a, date, rolled, ms);
    SufficientIs(byName, byAccount, date.how, |date.fromContent| > 1, rolled);
  }

  // ---- when a held file says why ----

  lemma {:induction false} WeakReasonsNameTheWeak(s: Scorer, ms: seq<Mapping>, n: nat)
    requires n <= |ms|
    ensures s.WeakReasons(ms, n) == [] <==> forall i | 0 <= i < n :: !s.IsWeak(ms[i])
    ensures s.PriceReasons(ms, n) == [] <==> forall i | 0 <= i < n :: !s.IsAmbiguousPrice(ms[i])
  {
    if n > 0 {
      WeakReasonsNameTheWeak(s, ms, n - 1);
    }
  }

  // ---- what the reasons name ----

  lemma {:induction false} KeptOfBoth(s: Scorer, a: seq<Reason>, b: seq<Reason>)
    ensures s.Kept(a + b) == s.Kept(a) + s.Kept(b)
  {
    if b == [] {
      assert a + b == a;
    } else {
      var init := b[..|b| - 1];
      KeptOfBoth(s, a, init);
      assert (a + b)[..|a + b| - 1] == a + init;
    }
  }

  ghost predicate NoDisagreement(r: seq<Reason>) {
    forall i | 0 <= i < |r| :: !r[i].DateDisagreement?
  }

  lemma {:induction false} NothingKept(s: Scorer, r: seq<Reason>)
    requires NoDisagreement(r)
    ensures s.Kept(r) == []
  {
    if r != [] {
      NothingKept(s, r[..|r| - 1]);
    }
  }

  lemma {:induction false} FieldsDisagreeOnNoDate(s: Scorer, missing: seq<Field>, n: nat)
    requires n <= |missing|
    ensures NoDisagreement(s.FieldReasons(missing, n))
  {
    if n > 0 {
      FieldsDisagreeOnNoDate(s, missing, n - 1);
    }
  }

  lemma {:induction false} ColumnsDisagreeOnNoDate(s: Scorer, ms: seq<Mapping>, n: nat)
    requires n <= |ms|
    ensures NoDisagreement(s.WeakReasons(ms, n)) && NoDisagreement(s.PriceReasons(ms, n))
  {
    if n > 0 {
      ColumnsDisagreeOnNoDate(s, ms, n - 1);
    }
  }

  lemma KeptOfTheDate(s: Scorer, date: V.Resolution)
    requires date.resolved.Some?
    ensures s.Kept(s.DateReasons(date)) == if date.mismatch then [DateDisagreement] else []
  {
    var first := if date.mismatch then [DateDisagreement] else [];
    var second := if date.confidence < 0.7 then [WeakDate] else [];
    KeptOfBoth(s, first, second);
    NothingKept(s, second);
    assert date.mismatch ==> first[..0] == [] && s.Kept(first) == s.Kept([]) + [DateDisagreement];
  }

  lemma KeptOfTheSecond(
    s: Scorer, a: seq<Reason>, b: seq<Reason>, c: seq<Reason>, d: seq<Reason>, e: seq<Reason>)
    requires NoDisagreement(a) && NoDisagreement(c) && NoDisagreement(d) && NoDisagreement(e)
    ensures s.Kept(a + b + c + d + e) == s.Kept(b)
  {
    assert a + b + c + d + e == a + (b + (c + d + e));
    assert NoDisagreement(c + d + e);
    NothingKept(s, a);
    NothingKept(s, c + d + e);
    KeptOfBoth(s, a, b + (c + d + e));
    KeptOfBoth(s, b, c + d + e);
  }

  /** A dispatched file is shown with the disagreement of its dates and with nothing else. */
  lemma DispatchedShowsOnlyTheDates(s: Scorer, a: Attribution, date: V.Resolution, ms: seq<Mapping>)
    requires s.DispositionOf(a, date, ms).DISPATCHED?
    ensures s.Shown(a, date, ms) == if date.mismatch then [DateDisagreement] else []
  {
    var missing := Missing(ms, s.required, |s.required|);
    var client, dated, fields := s.ClientReasons(a), s.DateReasons(date), s.FieldReasons(missing, |missing|);
    var weak, prices := s.WeakReasons(ms, |ms|), s.PriceReasons(ms, |ms|);
    FieldsDisagreeOnNoDate(s, missing, |missing|);
    ColumnsDisagreeOnNoDate(s, ms, |ms|);
    KeptOfTheSecond(s, client, dated, fields, weak, prices);
    KeptOfTheDate(s, date);
  }

  ghost predicate WeaklyHeld(s: Scorer, ms: seq<Mapping>, f: Field, i: int) {
    HoldsAt(ms, i, f) && f in s.required && ms[i].confidence < 0.7
  }

  ghost predicate PriceAside(s: Scorer, ms: seq<Mapping>, h: Header, i: int) {
    0 <= i < |ms| && ms[i].source == h && ms[i].canonical.None? && s.priceEvidence(ms[i])
  }

  lemma {:induction false} FieldReasonsName(s: Scorer, missing: seq<Field>, n: nat, r: Reason)
    requires n <= |missing|
    ensures r in s.FieldReasons(missing, n) <==> r.Unmapped? && r.field in missing[..n]
  {
    if n > 0 {
      FieldReasonsName(s, missing, n - 1, r);
      assert missing[..n] == missing[..n - 1] + [missing[n - 1]];
    }
  }

  lemma {:induction false} WeakReasonsName(s: Scorer, ms: seq<Mapping>, n: nat, r: Reason)
    requires n <= |ms|
    ensures r in s.WeakReasons(ms, n) <==> r.WeaklyMapped? && exists i :: i < n && WeaklyHeld(s, ms, r.field, i)
  {
    if n > 0 {
      WeakReasonsName(s, ms, n - 1, r);
      assert s.IsWeak(ms[n - 1]) ==> WeaklyHeld(s, ms, ms[n - 1].canonical.value, n - 1);
    }
  }

  lemma {:induction false} PriceReasonsName(s: Scorer, ms: seq<Mapping>, n: nat, r: Reason)
    requires n <= |ms|
    ensures r in s.PriceReasons(ms, n) <==> r.PriceUnassigned? && exists i :: i < n && PriceAside(s, ms, r.source, i)
  {
    if n > 0 {
      PriceReasonsName(s, ms, n - 1, r);
      assert s.IsAmbiguousPrice(ms[n - 1]) ==> PriceAside(s, ms, ms[n - 1].source, n - 1);
    }
  }

  /** Why a reason is given, in terms of the file alone. */
  ghost predicate Calls(s: Scorer, a: Attribution, date: V.Resolution, ms: seq<Mapping>, r: Reason) {
    match r
    case NoClient => a.client.None?
    case ClientConflict => a.client.Some? && a.conflict
    case NoDate => date.resolved.None?
    case DateDisagreement => date.resolved.Some? && date.mismatch
    case WeakDate => date.resolved.Some? && date.confidence < 0.7
    case Unmapped(f) => f in s.required && forall i :: !HoldsAt(ms, i, f)
    case WeaklyMapped(f) => exists i :: WeaklyHeld(s, ms, f, i)
    case PriceUnassigned(h) => exists i :: PriceAside(s, ms, h, i)
  }

  lemma InFive(a: seq<Reason>, b: seq<Reason>, c: seq<Reason>, d: seq<Reason>, e: seq<Reason>, r: Reason)
    ensures r in a + b + c + d + e <==> r in a || r in b || r in c || r in d || r in e
  {}

  /** A concern is noted exactly when the file calls for it. */
  lemma ConcernsNameTheirCauses(s: Scorer, a: Attribution, date: V.Resolution, ms: seq<Mapping>, r: Reason)
    ensures r in s.Concerns(a, date, ms) <==> Calls(s, a, date, ms, r)
  {
    var missing := Missing(ms, s.required, |s.required|);
    assert missing[..|missing|] == missing;
    InFive(s.ClientReasons(a), s.DateReasons(date), s.FieldReasons(missing, |missing|), s.WeakReasons(ms, |ms|),
           s.PriceReasons(ms, |ms|), r);
    FieldReasonsName(s, missing, |missing|, r);
    WeakReasonsName(s, ms, |ms|, r);
    PriceReasonsName(s, ms, |ms|, r);
    if r.Unmapped? {
      MissingExactly(ms, s.required, r.field);
    }
  }

  /** Nothing about the file is uncertain by itself. */
  ghost predicate Unquestionable(s: Scorer, a: Attribution, date: V.Resolution, ms: seq<Mapping>) {
    && a.client.Some? && !a.conflict
    && date.resolved.Some? && !date.mismatch && date.confidence >= 0.7
    && (forall f | f in s.required :: exists i :: HoldsAt(ms, i, f))
    && (forall i | 0 <= i < |ms| :: !s.IsWeak(ms[i]) && !s.IsAmbiguousPrice(ms[i]))
  }

  lemma NoConcernExactlyWhenUnquestionable(s: Scorer, a: Attribution, date: V.Resolution, ms: seq<Mapping>)
    requires Sensible(ms, s.weight)
    ensures s.Concerns(a, date, ms) == [] <==> Unquestionable(s, a, date, ms)
    ensures Unquestionable(s, a, date, ms) ==> Missing(ms, s.required, |s.required|) == []
  {
    var missing := Missing(ms, s.required, |s.required|);
    WeakReasonsNameTheWeak(s, ms, |ms|);
    CoverageIsAShare(ms, s.required, s.weight);
    assert s.FieldReasons(missing, |missing|) == [] <==> missing == [];
    assert missing == [] <==> forall f | f in s.required :: exists i :: HoldsAt(ms, i, f) by {
      if missing != [] {
        assert missing[0] in missing;
      }
    }
  }

  ghost predicate HeldInSilence(s: Scorer, a: Attribution, date: V.Resolution, ms: seq<Mapping>) {
    !s.DispositionOf(a, date, ms).DISPATCHED? && s.Shown(a, date, ms) == []
  }

  /** A file is held without any reason if and only if no part of it is in question and
      only the score falls short. */
  lemma HeldInSilenceExactlyWhen(s: Scorer, a: Attribution, date: V.Resolution, ms: seq<Mapping>)
    requires Sensible(ms, s.weight)
    ensures HeldInSilence(s, a, date, ms) <==>
      Unquestionable(s, a, date, ms) && s.OverallOf(a, date, ms) < s.limits.dispatch
  {
    NoConcernExactlyWhenUnquestionable(s, a, date, ms);
  }

  /** At the defaults and full coverage those are the files known by their name alone,
      unless their contents name one date, outright or unpenalised. */
  lemma SilenceAtTheDefaults(
    s: Scorer, reader: V.Reader, byName: Option<string>, byAccount: seq<string>, a: Attribution, date: V.Resolution,
    rolled: bool, ms: seq<Mapping>)
    requires s.limits == DEFAULTS && s.round4 == Round4 && Sensible(ms, s.weight) && s.CoverageOf(ms) == 1.0
    requires Attributed(byName, byAccount, a) && V.Graded(reader, date, rolled) && reader.round3 == Round3
    requires Unquestionable(s, a, date, ms)
    ensures HeldInSilence(s, a, date, ms) <==>
      byAccount == [] && date.how != V.CONTENT_EXPLICIT
      && (date.how == V.CONTENT_INFERRED ==> |date.fromContent| > 1 || rolled)
  {
    NoConcernExactlyWhenUnquestionable(s, a, date, ms);
    DispatchNeedsEnoughEvidence(s, reader, byName, byAccount, a, date, rolled, ms);
    WeakDatesAreQuestionable(reader, date, rolled);
  }

  lemma WeakDatesAreQuestionable(reader: V.Reader, date: V.Resolution, rolled: bool)
    requires V.Graded(reader, date, rolled) && reader.round3 == Round3 && date.confidence >= 0.7
    ensures V.FromContents(date.how) || (date.how == V.FILENAME && !rolled)
  {
    var spans := |date.fromContent| > 1;
    Round3RoundsTo3();
    DateGradeIs(date.how, spans, rolled);
    var grade := DateGrade(date.how, spans, rolled);
    assert Round3(Thousandths(grade)) == Thousandths(grade);
  }

  /** What Attribute makes of the evidence. */
  predicate Attributes(e: Evidence, a: Attribution) {
    && a.confidence == ClientConfidence(e)
    && (a.conflict <==> e.Disagree? || e.ManyClients?)
    && (a.client.None? <==> e.ManyClients? || e.Nothing?)
  }

  /** In a domain without required fields, any columns without price evidence: a file
      named and dated by its filename only is quarantined without a reason. */
  lemma HeldWithoutAReason(s: Scorer, client: string, date: V.Resolution, ms: seq<Mapping>)
    requires s.limits == DEFAULTS && s.round4 == Round4 && s.required == []
    requires date.resolved.Some? && date.how == V.FILENAME && date.confidence == 0.70 && !date.mismatch
    requires forall i | 0 <= i < |ms| :: !s.IsAmbiguousPrice(ms[i])
    ensures var a := Attribution(Some(client), ClientConfidence(FilenameOnly), false);
      s.DispositionOf(a, date, ms).QUARANTINED? && s.Shown(a, date, ms) == []
  {
    Round4RoundsTo4();
    assert Round4(Grid(8250)) == Grid(8250);
    WeakReasonsNameTheWeak(s, ms, |ms|);
  }

  // ---- a witness: knowing the client costs the file its review ----

  /** Three columns the model proposed at 0.39 each. */
  function WeakCash(): seq<Mapping> {
    [Mapping("a", Some("account_id"), LLM, 0.39), Mapping("n", Some("net_amount"), LLM, 0.39),
     Mapping("c", Some("currency"), LLM, 0.39)]
  }

  const CASH_FIELDS := ["account_id", "currency", "net_amount"]

  function CashWeight(f: Field): real {
    if f == "net_amount" then 3.0 else if f == "account_id" || f == "currency" then 2.0 else 1.0
  }

  lemma CashCoverage()
    ensures Coverage(WeakCash(), CASH_FIELDS, CashWeight) == 0.39
    ensures Missing(WeakCash(), CASH_FIELDS, 3) == []
  {
    var ms := WeakCash();
    assert HolderOf(ms, "currency") == Some(ms[2]);
    assert ms[..2] == [ms[0], ms[1]] && ms[..2][..1] == [ms[0]];
    assert HolderOf(ms[..2], "net_amount") == Some(ms[1]);
    assert HolderOf(ms[..2][..1], "account_id") == Some(ms[0]);
    assert Earned(ms, CASH_FIELDS, CashWeight, 1) == 0.78;
    assert Earned(ms, CASH_FIELDS, CashWeight, 2) == 1.56;
    assert Earned(ms, CASH_FIELDS, CashWeight, 3) == 2.73;
    assert TotalWeight(CASH_FIELDS, CashWeight, 1) == 2.0;
    assert TotalWeight(CASH_FIELDS, CashWeight, 2) == 4.0;
    assert TotalWeight(CASH_FIELDS, CashWeight, 3) == 7.0;
  }

  /** Nobody's file, dated by its arrival, has no domain and so nothing to map, and is
      reviewed at 0.4925. Named by its filename a cash file, it scores 0.5895 and is
      rejected. */
  lemma ReviewLostByKnowingTheClient(s: Scorer, t: Scorer, client: string, date: V.Resolution)
    requires s.limits == DEFAULTS && s.round4 == Round4 && s.required == []
    requires t.limits == DEFAULTS && t.round4 == Round4 && t.required == CASH_FIELDS && t.weight == CashWeight
    requires date.resolved.Some? && date.how == V.ARRIVAL_MINUS_CALENDAR && date.confidence == 0.55
    ensures var a, b := Attribution(None, 0.0, false), Attribution(Some(client), ClientConfidence(FilenameOnly), false);
      && s.OverallOf(a, date, WeakCash()) == 0.4925 && s.DispositionOf(a, date, WeakCash()).QUARANTINED?
      && t.OverallOf(b, date, WeakCash()) == 0.5895 && t.DispositionOf(b, date, WeakCash()).REJECTED?
  {
    Round4RoundsTo4();
    CashCoverage();
    assert Round4(Grid(3900)) == Grid(3900);
    assert Round4(Grid(4925)) == Grid(4925);
    assert Round4(Grid(5895)) == Grid(5895);
  }
}
