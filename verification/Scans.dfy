/** Scanning a list of columns with one stage of the ladder
    (python/src/inspector/mapping/resolver.py). A stage is an arbitrary function from a
    header and the fields already claimed to a proposal. */
module Scans {
  import opened Basics
  import opened Mappings

  datatype Proposal = Proposal(field: Field, tier: Tier, confidence: real)

  type Proposer = (Header, set<Field>) -> Option<Proposal>

  /** Proposes only what nobody claims, and credits `tier` with it. */
  ghost predicate Fresh(p: Proposer, tier: Tier) {
    forall h, taken :: FreshAt(p, tier, h, taken)
  }

  ghost predicate FreshAt(p: Proposer, tier: Tier, h: Header, taken: set<Field>) {
    p(h, taken).Some? ==> p(h, taken).value.field !in taken && p(h, taken).value.tier == tier
  }

  /** Unmoved by more claims, as long as its own choice is not among them. */
  ghost predicate Stable(p: Proposer) {
    forall h, taken, more :: StableAt(p, h, taken, more)
  }

  ghost predicate StableAt(p: Proposer, h: Header, taken: set<Field>, more: set<Field>) {
    (p(h, taken).Some? ==> p(h, taken).value.field !in more) ==> p(h, taken + more) == p(h, taken)
  }

  /** The stage at column `i`: only an open column is looked at. */
  function Step(p: Proposer, ms: seq<Mapping>, i: nat): (r: seq<Mapping>)
    requires i < |ms|
    ensures |r| == |ms|
  {
    if !IsOpen(ms[i]) then ms
    else
      match p(ms[i].source, Claimed(ms))
      case None => ms
      case Some(x) => Settle(ms, i, x.field, x.tier, x.confidence)
  }

  /** The stage over the first `n` columns, in order. */
  function Scan(p: Proposer, ms: seq<Mapping>, n: nat): (r: seq<Mapping>)
    requires n <= |ms|
    ensures |r| == |ms|
  {
    if n == 0 then ms else Step(p, Scan(p, ms, n - 1), n - 1)
  }

  lemma StepIsSafe(p: Proposer, tier: Tier, ms: seq<Mapping>, i: nat, exempt: set<Field>)
    requires i < |ms| && Fresh(p, tier)
    ensures var r := Step(p, ms, i);
      && Keeps(ms, r)
      && (Exclusive(ms, exempt) ==> Exclusive(r, exempt))
      && Claimed(ms) <= Claimed(r)
      && (forall j | 0 <= j < |ms| && j != i :: r[j] == ms[j])
      && (r[i] != ms[i] ==> r[i].tier == tier && r[i].canonical.Some? && r[i].canonical.value !in Claimed(ms))
  {
    var x := p(ms[i].source, Claimed(ms));
    assert FreshAt(p, tier, ms[i].source, Claimed(ms));
    if IsOpen(ms[i]) && x.Some? {
      SettlingAnUnclaimedField(ms, i, x.value.field, x.value.tier, x.value.confidence, exempt);
    }
  }

  /** From the point where `k` columns are done to the point where `n` are. */
  lemma {:induction false} ScanBetween(p: Proposer, tier: Tier, ms: seq<Mapping>, k: nat, n: nat)
    requires k <= n <= |ms| && Fresh(p, tier)
    ensures var a, b := Scan(p, ms, k), Scan(p, ms, n);
      && Keeps(a, b)
      && forall j | 0 <= j < |ms| && (j < k || j >= n) :: b[j] == a[j]
  {
    if k < n {
      ScanBetween(p, tier, ms, k, n - 1);
      StepIsSafe(p, tier, Scan(p, ms, n - 1), n - 1, {});
      KeepsChains(Scan(p, ms, k), Scan(p, ms, n - 1), Scan(p, ms, n));
    }
  }

  lemma {:induction false} ClaimsOnlyGrow(p: Proposer, tier: Tier, ms: seq<Mapping>, k: nat, n: nat)
    requires k <= n <= |ms| && Fresh(p, tier)
    ensures Claimed(Scan(p, ms, k)) <= Claimed(Scan(p, ms, n))
  {
    if k < n {
      ClaimsOnlyGrow(p, tier, ms, k, n - 1);
      StepIsSafe(p, tier, Scan(p, ms, n - 1), n - 1, {});
    }
  }

  lemma {:induction false} ScanIsExclusive(p: Proposer, tier: Tier, ms: seq<Mapping>, n: nat, exempt: set<Field>)
    requires n <= |ms| && Fresh(p, tier) && Exclusive(ms, exempt)
    ensures Exclusive(Scan(p, ms, n), exempt)
  {
    if n > 0 {
      ScanIsExclusive(p, tier, ms, n - 1, exempt);
      StepIsSafe(p, tier, Scan(p, ms, n - 1), n - 1, exempt);
    }
  }

  lemma ScanIsSafe(p: Proposer, tier: Tier, ms: seq<Mapping>, exempt: set<Field>)
    requires Fresh(p, tier)
    ensures Keeps(ms, Scan(p, ms, |ms|)) && Claimed(ms) <= Claimed(Scan(p, ms, |ms|))
    ensures Exclusive(ms, exempt) ==> Exclusive(Scan(p, ms, |ms|), exempt)
  {
    ScanBetween(p, tier, ms, 0, |ms|);
    ClaimsOnlyGrow(p, tier, ms, 0, |ms|);
    if Exclusive(ms, exempt) {
      ScanIsExclusive(p, tier, ms, |ms|, exempt);
    }
  }

  /** Column `i` of a finished scan, in terms of the claims when its turn came. */
  lemma ScanAt(p: Proposer, tier: Tier, ms: seq<Mapping>, i: nat)
    requires i < |ms| && Fresh(p, tier)
    ensures var end, soFar := Scan(p, ms, |ms|), Scan(p, ms, i);
      && Claimed(ms) <= Claimed(soFar)
      && end[i] == Step(p, soFar, i)[i] && soFar[i] == ms[i]
  {
    ScanBetween(p, tier, ms, 0, i);
    ScanBetween(p, tier, ms, i + 1, |ms|);
    ClaimsOnlyGrow(p, tier, ms, 0, i);
  }

  /** The claims when column `i` has its turn: what the columns before it ended up with,
      and what the others held to begin with. */
  function ClaimsAt(ms: seq<Mapping>, end: seq<Mapping>, i: nat): set<Field>
    requires i < |ms| == |end|
  {
    Claimed(end[..i] + ms[i..])
  }

  /** A finished scan, column by column. */
  lemma ScanDecides(p: Proposer, tier: Tier, ms: seq<Mapping>, i: nat)
    requires i < |ms| && Fresh(p, tier)
    ensures var end := Scan(p, ms, |ms|);
      end[i] ==
        if !IsOpen(ms[i]) then ms[i]
        else
          var x := p(ms[i].source, ClaimsAt(ms, end, i));
          if x.None? then ms[i] else Mapping(ms[i].source, Some(x.value.field), x.value.tier, x.value.confidence)
  {
    var end, soFar := Scan(p, ms, |ms|), Scan(p, ms, i);
    ScanAt(p, tier, ms, i);
    SoFarIsSplit(p, tier, ms, i);
  }

  lemma {:induction false} SoFarIsSplit(p: Proposer, tier: Tier, ms: seq<Mapping>, i: nat)
    requires i <= |ms| && Fresh(p, tier)
    ensures Scan(p, ms, i) == Scan(p, ms, |ms|)[..i] + ms[i..]
  {
    var end, soFar := Scan(p, ms, |ms|), Scan(p, ms, i);
    ScanBetween(p, tier, ms, 0, i);
    ScanBetween(p, tier, ms, i, |ms|);
    forall j | 0 <= j < |ms| ensures soFar[j] == (end[..i] + ms[i..])[j] {}
  }

  /** A column the scan changed holds what its stage proposed, credited to its tier,
      and no column ahead of it, nor any claim made before, holds the same field. */
  lemma ChangedColumn(p: Proposer, tier: Tier, ms: seq<Mapping>, i: nat)
    requires i < |ms| && Fresh(p, tier)
    ensures var end := Scan(p, ms, |ms|);
      end[i] != ms[i] ==>
        && IsOpen(ms[i]) && end[i].source == ms[i].source && end[i].tier == tier && end[i].canonical.Some?
        && end[i].canonical.value !in Claimed(ms)
        && (Holds(end[i]) ==> forall j | 0 <= j < i :: end[j].canonical != end[i].canonical)
  {
    var soFar, end := Scan(p, ms, i), Scan(p, ms, |ms|);
    ScanAt(p, tier, ms, i);
    StepIsSafe(p, tier, soFar, i, {});
    ScanBetween(p, tier, ms, i, |ms|);
    if Holds(end[i]) && end[i] != ms[i] {
      forall j | 0 <= j < i ensures end[j].canonical != end[i].canonical {
        if Holds(soFar[j]) {
          HeldIsClaimed(soFar, j);
        }
      }
    }
  }

  // ---- replaying a scan beside extra claims ----

  /** `b` is `a` with the marked columns replaced by those of `replayed`, which add
      exactly `extra` to its claims. */
  ghost predicate InStep(
    a: seq<Mapping>, b: seq<Mapping>, replayed: seq<Mapping>, marks: seq<bool>, extra: set<Field>)
  {
    && |a| == |b| == |replayed| == |marks|
    && (forall i | 0 <= i < |a| :: b[i] == if marks[i] then replayed[i] else a[i])
    && Claimed(b) == Claimed(a) + extra
  }

  ghost predicate SettledWhereMarked(ms: seq<Mapping>, marks: seq<bool>) {
    |marks| == |ms| && forall i | 0 <= i < |ms| && marks[i] :: !IsOpen(ms[i])
  }

  ghost predicate Apart(ms: seq<Mapping>, extra: set<Field>) {
    Claimed(ms) !! extra
  }

  lemma FewerClaimsStayApart(a: seq<Mapping>, b: seq<Mapping>, extra: set<Field>)
    requires Claimed(a) <= Claimed(b) && Apart(b, extra)
    ensures Apart(a, extra)
  {}

  /** What the original scan does at column `k`: it leaves a marked column open and
      claims nothing of `extra`. */
  ghost predicate LeavesRoom(p: Proposer, ms: seq<Mapping>, marks: seq<bool>, extra: set<Field>, k: nat)
    requires k < |ms| == |marks|
  {
    && Apart(Scan(p, ms, k + 1), extra)
    && (marks[k] ==> Scan(p, ms, k + 1) == Scan(p, ms, k))
  }

  lemma StepsAlike(p: Proposer, tier: Tier, a: seq<Mapping>, b: seq<Mapping>, i: nat, extra: set<Field>)
    requires i < |a| == |b| && a[i] == b[i] && Fresh(p, tier) && Stable(p)
    requires Claimed(b) == Claimed(a) + extra && Claimed(Step(p, a, i)) !! extra && "" !in extra
    ensures Step(p, b, i)[i] == Step(p, a, i)[i]
    ensures Claimed(Step(p, b, i)) == Claimed(Step(p, a, i)) + extra
  {
    var x := p(a[i].source, Claimed(a));
    assert StableAt(p, a[i].source, Claimed(a), extra);
    if IsOpen(a[i]) && x.Some? {
      ClaimedAfterSettling(a, i, x.value.field, x.value.tier, x.value.confidence);
      ClaimedAfterSettling(b, i, x.value.field, x.value.tier, x.value.confidence);
    }
  }

  lemma StaysInStep(
    p: Proposer, tier: Tier, a: seq<Mapping>, b: seq<Mapping>, replayed: seq<Mapping>,
    marks: seq<bool>, extra: set<Field>, i: nat)
    requires InStep(a, b, replayed, marks, extra) && i < |a| && Fresh(p, tier) && Stable(p) && "" !in extra
    requires marks[i] ==> !IsOpen(replayed[i]) && Step(p, a, i) == a
    requires Claimed(Step(p, a, i)) !! extra
    ensures InStep(Step(p, a, i), Step(p, b, i), replayed, marks, extra)
  {
    if !marks[i] {
      StepsAlike(p, tier, a, b, i, extra);
      StepIsSafe(p, tier, a, i, {});
      StepIsSafe(p, tier, b, i, {});
    }
  }

  /** A stable stage runs over `replayed` exactly as it ran over `ms`: the extra claims
      are never the fields it chooses. */
  lemma {:induction false} ScanReplays(
    p: Proposer, tier: Tier, ms: seq<Mapping>, replayed: seq<Mapping>, marks: seq<bool>, extra: set<Field>, k: nat)
    requires k <= |ms| && Fresh(p, tier) && Stable(p) && "" !in extra
    requires InStep(ms, replayed, replayed, marks, extra) && SettledWhereMarked(replayed, marks)
    requires forall j: nat | j < k :: LeavesRoom(p, ms, marks, extra, j)
    ensures InStep(Scan(p, ms, k), Scan(p, replayed, k), replayed, marks, extra)
  {
    if k > 0 {
      ScanReplays(p, tier, ms, replayed, marks, extra, k - 1);
      assert LeavesRoom(p, ms, marks, extra, k - 1);
      StaysInStep(p, tier, Scan(p, ms, k - 1), Scan(p, replayed, k - 1), replayed, marks, extra, k - 1);
    }
  }

  /** A finished scan that left column `k` open never moved when it passed `k`. */
  lemma NeverSettledNeverMoved(p: Proposer, tier: Tier, ms: seq<Mapping>, end: seq<Mapping>, k: nat)
    requires k < |ms| == |end| && Fresh(p, tier) && end == Scan(p, ms, |ms|) && IsOpen(end[k])
    ensures Scan(p, ms, k + 1) == Scan(p, ms, k)
  {
    var soFar, next := Scan(p, ms, k), Scan(p, ms, k + 1);
    ScanBetween(p, tier, ms, k + 1, |ms|);
    assert next == Step(p, soFar, k) && next[k] == end[k];
  }

  lemma StillApart(p: Proposer, tier: Tier, ms: seq<Mapping>, end: seq<Mapping>, extra: set<Field>, k: nat)
    requires k < |ms| && Fresh(p, tier) && end == Scan(p, ms, |ms|) && Apart(end, extra)
    ensures Apart(Scan(p, ms, k + 1), extra)
  {
    ClaimsOnlyGrow(p, tier, ms, k + 1, |ms|);
    FewerClaimsStayApart(Scan(p, ms, k + 1), end, extra);
  }

  lemma UnmovedIfOpen(p: Proposer, tier: Tier, ms: seq<Mapping>, end: seq<Mapping>, marked: bool, k: nat)
    requires k < |ms| == |end| && Fresh(p, tier) && end == Scan(p, ms, |ms|) && (marked ==> IsOpen(end[k]))
    ensures marked ==> Scan(p, ms, k + 1) == Scan(p, ms, k)
  {
    if marked {
      NeverSettledNeverMoved(p, tier, ms, end, k);
    }
  }

  /** A finished scan that left column `k` open if marked, and `extra` unclaimed, left
      room when it passed `k`. */
  lemma LeftRoom(
    p: Proposer, tier: Tier, ms: seq<Mapping>, end: seq<Mapping>, marks: seq<bool>, extra: set<Field>, k: nat)
    requires k < |ms| == |end| == |marks| && Fresh(p, tier) && end == Scan(p, ms, |ms|)
    requires Apart(end, extra) && (marks[k] ==> IsOpen(end[k]))
    ensures LeavesRoom(p, ms, marks, extra, k)
  {
    StillApart(p, tier, ms, end, extra, k);
    UnmovedIfOpen(p, tier, ms, end, marks[k], k);
  }
}
