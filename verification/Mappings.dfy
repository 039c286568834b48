/** Column mappings and what every tier must respect about them
    (python/src/inspector/mapping/tier1.py, canonical.py). */
module Mappings {
  import opened Basics

  type Header = string
  type Field = string

  datatype Tier = ALIAS | LOCAL | LLM | HUMAN | UNRESOLVED

  datatype Mapping = Mapping(source: Header, canonical: Option<Field>, tier: Tier, confidence: real)

  const TRADE_PRICE := "trade_price"
  const SETTLEMENT_PRICE := "settlement_price"

  /** A field that counts as a claim; Python treats None and "" alike here. */
  predicate Holds(m: Mapping) {
    m.canonical.Some? && m.canonical.value != ""
  }

  predicate IsOpen(m: Mapping) {
    m.canonical.None?
  }

  /** The fields some column holds. */
  function Claimed(ms: seq<Mapping>): set<Field> {
    ClaimedBefore(ms, |ms|)
  }

  function ClaimedBefore(ms: seq<Mapping>, n: nat): set<Field>
    requires n <= |ms|
  {
    if n == 0 then {}
    else ClaimedBefore(ms, n - 1) + if Holds(ms[n - 1]) then {ms[n - 1].canonical.value} else {}
  }

  ghost predicate HoldsAt(ms: seq<Mapping>, i: int, f: Field) {
    0 <= i < |ms| && Holds(ms[i]) && ms[i].canonical.value == f
  }

  lemma {:induction false} ClaimedBeforeIsHeld(ms: seq<Mapping>, n: nat, f: Field)
    requires n <= |ms|
    ensures f in ClaimedBefore(ms, n) <==> exists i :: i < n && HoldsAt(ms, i, f)
  {
    if n > 0 {
      ClaimedBeforeIsHeld(ms, n - 1, f);
      assert f in ClaimedBefore(ms, n) <==> f in ClaimedBefore(ms, n - 1) || HoldsAt(ms, n - 1, f);
    }
  }

  lemma ClaimedIsHeld(ms: seq<Mapping>, f: Field)
    ensures f in Claimed(ms) <==> exists i :: HoldsAt(ms, i, f)
  {
    ClaimedBeforeIsHeld(ms, |ms|, f);
  }

  lemma HeldIsClaimed(ms: seq<Mapping>, i: nat)
    requires i < |ms| && Holds(ms[i])
    ensures ms[i].canonical.value in Claimed(ms)
  {
    ClaimedIsHeld(ms, ms[i].canonical.value);
    assert HoldsAt(ms, i, ms[i].canonical.value);
  }

  ghost predicate Distinct(headers: seq<Header>) {
    forall i, j | 0 <= i < j < |headers| :: headers[i] != headers[j]
  }

  /** One mapping per header, in header order. */
  ghost predicate OnePerHeader(headers: seq<Header>, ms: seq<Mapping>) {
    |ms| == |headers| && forall i | 0 <= i < |ms| :: ms[i].source == headers[i]
  }

  /** Tier 1 never credits the model. */
  ghost predicate NoModelTier(ms: seq<Mapping>) {
    forall i | 0 <= i < |ms| :: ms[i].tier != LLM
  }

  ghost predicate Share(ms: seq<Mapping>, i: nat, j: nat)
    requires i < |ms| && j < |ms|
  {
    Holds(ms[i]) && Holds(ms[j]) && ms[i].canonical == ms[j].canonical
  }

  /** No two columns hold the same field, fields in `exempt` aside. */
  ghost predicate Exclusive(ms: seq<Mapping>, exempt: set<Field>) {
    forall i, j | 0 <= i < j < |ms| && Share(ms, i, j) :: ms[i].canonical.value in exempt
  }

  /** Escalation is one-way: what is settled stays exactly as it is. */
  ghost predicate Keeps(before: seq<Mapping>, after: seq<Mapping>) {
    && |after| == |before|
    && forall i | 0 <= i < |before| ::
         after[i].source == before[i].source && (before[i].canonical.Some? ==> after[i] == before[i])
  }

  lemma KeepsChains(a: seq<Mapping>, b: seq<Mapping>, c: seq<Mapping>)
    requires Keeps(a, b) && Keeps(b, c)
    ensures Keeps(a, c)
  {}

  function Settle(ms: seq<Mapping>, i: nat, f: Field, tier: Tier, confidence: real): seq<Mapping>
    requires i < |ms|
  {
    ms[i := Mapping(ms[i].source, Some(f), tier, confidence)]
  }

  /** Giving an open column a field nobody claims disturbs nothing. */
  lemma SettlingAnUnclaimedField(ms: seq<Mapping>, i: nat, f: Field, tier: Tier, confidence: real, exempt: set<Field>)
    requires i < |ms| && IsOpen(ms[i]) && f !in Claimed(ms)
    ensures var ms' := Settle(ms, i, f, tier, confidence);
      && Keeps(ms, ms')
      && (Exclusive(ms, exempt) ==> Exclusive(ms', exempt))
      && Claimed(ms') == Claimed(ms) + if f != "" then {f} else {}
  {
    var ms' := Settle(ms, i, f, tier, confidence);
    forall j | 0 <= j < |ms| && Holds(ms[j]) ensures ms[j].canonical.value in Claimed(ms) {
      HeldIsClaimed(ms, j);
    }
    if Exclusive(ms, exempt) {
      forall a, b | 0 <= a < b < |ms'| && Share(ms', a, b) ensures ms'[a].canonical.value in exempt {
        assert Share(ms, a, b);
      }
    }
    ClaimedAfterSettling(ms, i, f, tier, confidence);
  }

  lemma ClaimedAfterSettling(ms: seq<Mapping>, i: nat, f: Field, tier: Tier, confidence: real)
    requires i < |ms| && IsOpen(ms[i])
    ensures Claimed(Settle(ms, i, f, tier, confidence)) == Claimed(ms) + if f != "" then {f} else {}
  {
    var ms' := Settle(ms, i, f, tier, confidence);
    forall g ensures g in Claimed(ms') <==> g in Claimed(ms) || (f != "" && g == f) {
      ClaimedIsHeld(ms, g);
      ClaimedIsHeld(ms', g);
      if j :| HoldsAt(ms, j, g) {
        assert HoldsAt(ms', j, g);
      }
      if f != "" && g == f {
        assert HoldsAt(ms', i, g);
      }
      if j :| HoldsAt(ms', j, g) {
        assert j != i ==> HoldsAt(ms, j, g);
      }
    }
  }
}
