/** The dictionary pass and the pricing of price columns
    (python/src/inspector/mapping/tier1.py). The alias index, the mappable fields, the
    header vocabulary, the sample-value tests, the variation ratio of the table's columns
    and the score given to structural evidence (StructuralConfidence in the code) are
    arbitrary functions. */
module Tier1 {
  import opened Basics
  import opened Mappings
  import opened Rounding

  const INSTRUMENT_ID := "instrument_id"

  datatype Vocabulary = Vocabulary(
    overrides: Header -> Option<Field>,
    alias: Header -> Option<Field>,
    mappable: Field -> bool,
    looksLikePrice: Header -> bool,
    namesSettlement: Header -> bool,
    namesTrade: Header -> bool,
    settlementPreference: Header -> real,
    tradePreference: Header -> real,
    ratio: (Header, Option<Header>) -> real,
    confidence: real -> real)
  {
    /** A client override, unless it is blank. */
    predicate Overridden(h: Header) {
      Named(overrides(h))
    }

    predicate SaysSettlement(h: Header) {
      namesSettlement(h) && !namesTrade(h)
    }

    predicate SaysTrade(h: Header) {
      namesTrade(h) && !namesSettlement(h)
    }

    predicate SaysNeither(h: Header) {
      namesSettlement(h) == namesTrade(h)
    }
  }

  predicate Named(x: Option<Field>) {
    x.Some? && x.value != ""
  }

  function Unresolved(h: Header): Mapping {
    Mapping(h, None, UNRESOLVED, 0.0)
  }

  // ---- the dictionary pass ----

  /** What the pass says of one header given the fields claimed before it; None sets a
      price column aside. */
  function Verdict(v: Vocabulary, h: Header, claimed: set<Field>): Option<Mapping> {
    var hit := v.alias(h);
    if v.Overridden(h) then Some(Mapping(h, v.overrides(h), HUMAN, 1.0))
    else if hit == Some(TRADE_PRICE) || hit == Some(SETTLEMENT_PRICE) then None
    else if Named(hit) && v.mappable(hit.value) && hit.value !in claimed then Some(Mapping(h, hit, ALIAS, 1.0))
    else if Named(hit) && hit.value in claimed then Some(Unresolved(h))
    else if v.looksLikePrice(h) then None
    else Some(Unresolved(h))
  }

  function ClaimedFirst(v: Vocabulary, headers: seq<Header>, n: nat): set<Field>
    requires n <= |headers|
  {
    if n == 0 then {}
    else
      var claimed := ClaimedFirst(v, headers, n - 1);
      var m := Verdict(v, headers[n - 1], claimed);
      claimed + if m.Some? && Holds(m.value) then {m.value.canonical.value} else {}
  }

  function VerdictAt(v: Vocabulary, headers: seq<Header>, i: nat): (m: Option<Mapping>)
    requires i < |headers|
    ensures m.Some? ==> m.value.source == headers[i]
  {
    Verdict(v, headers[i], ClaimedFirst(v, headers, i))
  }

  function Settled(v: Vocabulary, headers: seq<Header>, n: nat): seq<Mapping>
    requires n <= |headers|
  {
    if n == 0 then []
    else
      var m := VerdictAt(v, headers, n - 1);
      Settled(v, headers, n - 1) + if m.Some? then [m.value] else []
  }

  function Deferred(v: Vocabulary, headers: seq<Header>, n: nat): seq<Header>
    requires n <= |headers|
  {
    if n == 0 then []
    else Deferred(v, headers, n - 1) + if VerdictAt(v, headers, n - 1).None? then [headers[n - 1]] else []
  }

  // ---- which price column gets which role ----

  function Filter(hs: seq<Header>, p: Header -> bool): seq<Header> {
    if hs == [] then []
    else Filter(hs[..|hs| - 1], p) + if p(hs[|hs| - 1]) then [hs[|hs| - 1]] else []
  }

  lemma FilterOfTwo(hs: seq<Header>, p: Header -> bool)
    requires |hs| == 2
    ensures Filter(hs, p) == (if p(hs[0]) then [hs[0]] else []) + if p(hs[1]) then [hs[1]] else []
  {
    assert hs[..1] == [hs[0]] && [hs[0]][..0] == [];
    assert Filter([hs[0]], p) == Filter([], p) + if p(hs[0]) then [hs[0]] else [];
  }

  predicate Under(x: real, cut: Option<real>) {
    cut.Some? ==> x < cut.value
  }

  /** The header with the greatest key among those under the cut, the earliest on ties. */
  function Greatest(hs: seq<Header>, key: Header -> real, cut: Option<real>): Option<Header> {
    if hs == [] then None
    else
      var last := hs[|hs| - 1];
      var best := Greatest(hs[..|hs| - 1], key, cut);
      if Under(key(last), cut) && (best.None? || key(last) > key(best.value)) then Some(last) else best
  }

  lemma {:induction false} GreatestIsGreatest(hs: seq<Header>, key: Header -> real, cut: Option<real>)
    ensures var g := Greatest(hs, key, cut);
      && (g.Some? ==> g.value in hs && Under(key(g.value), cut))
      && (forall h | h in hs && Under(key(h), cut) :: g.Some? && key(h) <= key(g.value))
  {
    if hs != [] {
      var init := hs[..|hs| - 1];
      GreatestIsGreatest(init, key, cut);
      assert hs == init + [hs[|hs| - 1]];
    }
  }

  lemma GreatestOfTwo(hs: seq<Header>, key: Header -> real, top: Header, cut: Option<real>)
    requires |hs| == 2 && top in hs && Under(key(top), cut)
    requires forall h | h in hs && h != top :: key(h) < key(top)
    ensures Greatest(hs, key, cut) == Some(top)
  {
    GreatestIsGreatest(hs, key, cut);
  }

  /** The columns a price role is decided among, and the table column that groups rows
      by instrument, if one was mapped. */
  datatype Prices = Prices(v: Vocabulary, deferred: seq<Header>, group: Option<Header>) {
    function ForSettlement(): seq<Header> {
      Filter(deferred, v.SaysSettlement)
    }

    function ForTrade(): seq<Header> {
      Filter(deferred, v.SaysTrade)
    }

    function Undecided(): seq<Header> {
      Filter(deferred, v.SaysNeither)
    }

    function Ratio(h: Header): real {
      v.ratio(h, group)
    }

    function SettlementByName(): Option<Header> {
      Greatest(ForSettlement(), v.settlementPreference, None)
    }

    function TradeByName(): Option<Header> {
      Greatest(ForTrade(), v.tradePreference, None)
    }

    /** The most varying undecided column, if it varies enough and no header says trade. */
    function TradeByStructure(): Option<Header> {
      var h := Greatest(Undecided(), Ratio, None);
      if TradeByName().None? && h.Some? && Ratio(h.value) >= 0.5 then h else None
    }

    /** Of the undecided columns that hardly vary, the one that varies most. */
    function SettlementByStructure(): Option<Header> {
      if SettlementByName().None? then Greatest(Undecided(), Ratio, Some(0.5)) else None
    }

    function Role(h: Header): Mapping {
      if v.SaysSettlement(h) then
        NamedRole(ForSettlement(), v.settlementPreference, SETTLEMENT_PRICE, h)
      else if v.SaysTrade(h) then
        NamedRole(ForTrade(), v.tradePreference, TRADE_PRICE, h)
      else if TradeByStructure() == Some(h) then
        Mapping(h, Some(TRADE_PRICE), LOCAL, v.confidence(Ratio(h)))
      else if SettlementByStructure() == Some(h) then
        Mapping(h, Some(SETTLEMENT_PRICE), LOCAL, v.confidence(1.0 - Ratio(h)))
      else Unresolved(h)
    }

    /** Each price role goes to at most one column. */
    lemma RolesAreExclusive(g: Header, h: Header)
      requires Holds(Role(g)) && Role(g).canonical == Role(h).canonical
      ensures g == h
    {}

    /** Structure gives trade_price to a column that varies most of all, and settlement_price
        to one that varies most of those under one half. */
    lemma StructuralWinners(h: Header, g: Header)
      requires Role(h).tier == LOCAL && g in Undecided()
      ensures h in Undecided()
      ensures Role(h).canonical == Some(TRADE_PRICE) ==> Ratio(h) >= 0.5 && Ratio(g) <= Ratio(h)
      ensures Role(h).canonical == Some(SETTLEMENT_PRICE) ==>
        Ratio(h) < 0.5 && (Ratio(g) < 0.5 ==> Ratio(g) <= Ratio(h))
    {
      GreatestIsGreatest(Undecided(), Ratio, None);
      GreatestIsGreatest(Undecided(), Ratio, Some(0.5));
    }

    ghost predicate HardlyVaries(h: Header) {
      h in Undecided() && Ratio(h) < 0.5
    }

    /** Structure gives settlement_price to a column that varies least of those that hardly
        vary if and only if all of them vary alike. */
    lemma SettlementVariesLeastExactlyWhen(h: Header)
      requires Role(h).tier == LOCAL && Role(h).canonical == Some(SETTLEMENT_PRICE)
      ensures (forall g | HardlyVaries(g) :: Ratio(h) <= Ratio(g)) <==>
        (forall g, k | HardlyVaries(g) && HardlyVaries(k) :: Ratio(g) == Ratio(k))
    {
      GreatestIsGreatest(Undecided(), Ratio, Some(0.5));
      assert HardlyVaries(h);
      forall g | HardlyVaries(g) ensures Ratio(g) <= Ratio(h) {
        StructuralWinners(h, g);
      }
    }

    lemma NobodyNamed()
      requires |deferred| == 2 && v.SaysNeither(deferred[0]) && v.SaysNeither(deferred[1])
      ensures Undecided() == deferred && SettlementByName() == None && TradeByName() == None
    {
      FilterOfTwo(deferred, v.SaysNeither);
      FilterOfTwo(deferred, v.SaysSettlement);
      FilterOfTwo(deferred, v.SaysTrade);
    }

    /** Two undecided columns, one constant and one that varies a little: the constant one,
        which behaves as a settlement price does, is left unassigned. */
    lemma ConstantColumnLoses(constant: Header, varying: Header)
      requires constant != varying && (deferred == [constant, varying] || deferred == [varying, constant])
      requires v.SaysNeither(constant) && v.SaysNeither(varying)
      requires Ratio(constant) == 0.0 < Ratio(varying) < 0.5
      ensures Role(constant) == Unresolved(constant)
      ensures Role(varying).canonical == Some(SETTLEMENT_PRICE)
    {
      NobodyNamed();
      GreatestOfTwo(deferred, Ratio, varying, None);
      GreatestOfTwo(deferred, Ratio, varying, Some(0.5));
      assert TradeByStructure() == None && SettlementByStructure() == Some(varying);
    }

    lemma RoleIsAPriceOrNothing(h: Header)
      ensures var m := Role(h);
        && m.source == h && m.tier != LLM
        && (m.canonical == None || m.canonical == Some(SETTLEMENT_PRICE) || m.canonical == Some(TRADE_PRICE))
    {}
  }

  /** Structural evidence is good but not certain: capped below what a header earns. */
  function StructuralConfidence(strength: real): real {
    var raw := 0.55 + 0.35 * strength;
    Round3(if raw <= 0.90 then raw else 0.90)
  }

  /** Structure earns 0.55, and up to 0.35 more with its strength, to three decimals. */
  lemma StructureEarns(strength: real)
    ensures strength >= 1.0 ==> StructuralConfidence(strength) == 0.90
    ensures strength <= 1.0 ==>
      -0.0005 <= StructuralConfidence(strength) - (0.55 + 0.35 * strength) <= 0.0005
  {
    Round3Respects(0.90, 900);
    NearestIsNearest((0.55 + 0.35 * strength) * 1000.0, 0);
  }

  lemma StructureNeverOutranksAName(weak: real, strong: real)
    requires 0.0 <= weak <= strong
    ensures 0.55 <= StructuralConfidence(weak) <= StructuralConfidence(strong) <= 0.90
  {
    var cap := (x: real) => if 0.55 + 0.35 * x <= 0.90 then 0.55 + 0.35 * x else 0.90;
    Round3Respects(cap(weak), 550);
    Round3Respects(cap(strong), 900);
    RoundingIsMonotone(cap(weak), cap(strong));
  }

  // ---- the code's own route: stable sorts and a scan ----

  /** list.sort(reverse=True): descending, equal keys in their original order. */
  function Sorted(hs: seq<Header>, key: Header -> real): seq<Header> {
    if hs == [] then [] else Insert(Sorted(hs[..|hs| - 1], key), hs[|hs| - 1], key)
  }

  function Insert(s: seq<Header>, x: Header, key: Header -> real): (r: seq<Header>)
    ensures |r| == |s| + 1
    decreases |s|
  {
    if s == [] then [x]
    else if key(s[0]) >= key(x) then [s[0]] + Insert(s[1..], x, key)
    else [x] + s
  }

  ghost predicate Descends(s: seq<Header>, key: Header -> real) {
    forall i, j | 0 <= i < j < |s| :: key(s[i]) >= key(s[j])
  }

  lemma {:induction false} InsertKeepsOrder(s: seq<Header>, x: Header, key: Header -> real)
    requires Descends(s, key)
    ensures Descends(Insert(s, x, key), key)
    ensures forall h :: h in Insert(s, x, key) <==> h == x || h in s
    decreases |s|
  {
    if s != [] && key(s[0]) >= key(x) {
      InsertKeepsOrder(s[1..], x, key);
      var r := Insert(s, x, key);
      assert s == [s[0]] + s[1..];
      forall i, j | 0 <= i < j < |r| ensures key(r[i]) >= key(r[j]) {
        if i == 0 {
          assert r[j] in Insert(s[1..], x, key);
        }
      }
    } else {
      assert Insert(s, x, key) == [x] + s;
    }
  }

  lemma {:induction false} SortedIsSorted(hs: seq<Header>, key: Header -> real)
    ensures Descends(Sorted(hs, key), key) && |Sorted(hs, key)| == |hs|
    ensures forall h :: h in Sorted(hs, key) <==> h in hs
  {
    if hs != [] {
      var init := hs[..|hs| - 1];
      SortedIsSorted(init, key);
      InsertKeepsOrder(Sorted(init, key), hs[|hs| - 1], key);
      assert hs == init + [hs[|hs| - 1]];
    }
  }

  lemma {:induction false} InsertKeepsDistinct(s: seq<Header>, x: Header, key: Header -> real)
    requires Distinct(s) && x !in s
    ensures Distinct(Insert(s, x, key))
    ensures forall h :: h in Insert(s, x, key) <==> h == x || h in s
    decreases |s|
  {
    if s != [] && key(s[0]) >= key(x) {
      InsertKeepsDistinct(s[1..], x, key);
      assert s == [s[0]] + s[1..];
      assert s[0] !in Insert(s[1..], x, key);
    }
  }

  lemma {:induction false} SortedIsDistinct(hs: seq<Header>, key: Header -> real)
    requires Distinct(hs)
    ensures Distinct(Sorted(hs, key))
  {
    if hs != [] {
      var init := hs[..|hs| - 1];
      SortedIsDistinct(init, key);
      SortedIsSorted(init, key);
      InsertKeepsDistinct(Sorted(init, key), hs[|hs| - 1], key);
    }
  }

  function FirstUnder(s: seq<Header>, key: Header -> real, cut: Option<real>): Option<Header>
    decreases |s|
  {
    if s == [] then None else if Under(key(s[0]), cut) then Some(s[0]) else FirstUnder(s[1..], key, cut)
  }

  lemma {:induction false} FirstUnderAfterInsert(s: seq<Header>, x: Header, key: Header -> real, cut: Option<real>)
    requires Descends(s, key)
    ensures var best := FirstUnder(s, key, cut);
      FirstUnder(Insert(s, x, key), key, cut) ==
        if Under(key(x), cut) && (best.None? || key(x) > key(best.value)) then Some(x) else best
    decreases |s|
  {
    if s != [] && key(s[0]) >= key(x) {
      FirstUnderAfterInsert(s[1..], x, key, cut);
      assert Insert(s, x, key)[1..] == Insert(s[1..], x, key);
      FirstUnderIsBounded(s[1..], key, cut, key(s[0]));
    } else {
      assert Insert(s, x, key)[1..] == s;
      if s != [] {
        FirstUnderIsBounded(s, key, cut, key(s[0]));
      }
    }
  }

  lemma {:induction false} FirstUnderIsBounded(s: seq<Header>, key: Header -> real, cut: Option<real>, top: real)
    requires forall i | 0 <= i < |s| :: key(s[i]) <= top
    ensures FirstUnder(s, key, cut).Some? ==> key(FirstUnder(s, key, cut).value) <= top
    decreases |s|
  {
    if s != [] {
      FirstUnderIsBounded(s[1..], key, cut, top);
    }
  }

  /** Sorting and taking the first under the cut finds the greatest under the cut. */
  lemma {:induction false} SortFindsGreatest(hs: seq<Header>, key: Header -> real, cut: Option<real>)
    ensures FirstUnder(Sorted(hs, key), key, cut) == Greatest(hs, key, cut)
  {
    if hs != [] {
      var init := hs[..|hs| - 1];
      SortFindsGreatest(init, key, cut);
      SortedIsSorted(init, key);
      FirstUnderAfterInsert(Sorted(init, key), hs[|hs| - 1], key, cut);
    }
  }

  // ---- the whole table ----

  function FirstHolding(ms: seq<Mapping>, f: Field): Option<Header>
    decreases |ms|
  {
    if ms == [] then None else if ms[0].canonical == Some(f) then Some(ms[0].source) else FirstHolding(ms[1..], f)
  }

  function PricesOf(v: Vocabulary, headers: seq<Header>): Prices {
    PricesAmong(v, Deferred(v, headers, |headers|), Settled(v, headers, |headers|))
  }

  function PricesAmong(v: Vocabulary, deferred: seq<Header>, settled: seq<Mapping>): Prices {
    var column := FirstHolding(settled, INSTRUMENT_ID);
    Prices(v, deferred, if column == Some("") then None else column)
  }

  function Tier1At(v: Vocabulary, headers: seq<Header>, i: nat): (m: Mapping)
    requires i < |headers|
    ensures m.source == headers[i]
  {
    var m := VerdictAt(v, headers, i);
    if m.Some? then m.value else PricesOf(v, headers).Role(headers[i])
  }

  function FirstTier(v: Vocabulary, headers: seq<Header>): (ms: seq<Mapping>)
    ensures OnePerHeader(headers, ms)
  {
    seq(|headers|, i requires 0 <= i < |headers| => Tier1At(v, headers, i))
  }

  lemma {:induction false} EarlierVerdictsAreClaimed(v: Vocabulary, headers: seq<Header>, i: nat, n: nat)
    requires i < n <= |headers|
    ensures var m := VerdictAt(v, headers, i);
      m.Some? && Holds(m.value) ==> m.value.canonical.value in ClaimedFirst(v, headers, n)
  {
    if i < n - 1 {
      EarlierVerdictsAreClaimed(v, headers, i, n - 1);
    }
  }

  lemma VerdictKinds(v: Vocabulary, h: Header, claimed: set<Field>)
    requires Verdict(v, h, claimed).Some? && Holds(Verdict(v, h, claimed).value) && !v.Overridden(h)
    ensures var f := Verdict(v, h, claimed).value.canonical.value;
      f !in claimed && f != TRADE_PRICE && f != SETTLEMENT_PRICE
  {}

  /** Two columns end up with the same field only if a client override put one there. */
  lemma SharingNeedsAnOverride(v: Vocabulary, headers: seq<Header>, i: nat, j: nat)
    requires i < j < |headers| && headers[i] != headers[j]
    requires Holds(Tier1At(v, headers, i)) && Tier1At(v, headers, i).canonical == Tier1At(v, headers, j).canonical
    ensures v.Overridden(headers[i]) || v.Overridden(headers[j])
  {
    var a, b := VerdictAt(v, headers, i), VerdictAt(v, headers, j);
    var p := PricesOf(v, headers);
    if !v.Overridden(headers[i]) && !v.Overridden(headers[j]) {
      p.RoleIsAPriceOrNothing(headers[i]);
      p.RoleIsAPriceOrNothing(headers[j]);
      if a.Some? {
        VerdictKinds(v, headers[i], ClaimedFirst(v, headers, i));
        EarlierVerdictsAreClaimed(v, headers, i, j);
      }
      if b.Some? {
        VerdictKinds(v, headers[j], ClaimedFirst(v, headers, j));
      }
      if a.None? && b.None? {
        p.RolesAreExclusive(headers[i], headers[j]);
      }
    }
  }

  function OverrideTargets(v: Vocabulary, headers: seq<Header>): set<Field> {
    set h | h in headers && v.Overridden(h) :: v.overrides(h).value
  }

  lemma FirstTierIsExclusive(v: Vocabulary, headers: seq<Header>)
    requires Distinct(headers)
    ensures Exclusive(FirstTier(v, headers), OverrideTargets(v, headers))
  {
    var ms := FirstTier(v, headers);
    forall i, j | 0 <= i < j < |ms| && Share(ms, i, j)
      ensures ms[i].canonical.value in OverrideTargets(v, headers)
    {
      SharingNeedsAnOverride(v, headers, i, j);
      OverriddenHoldsItsTarget(v, headers, i);
      OverriddenHoldsItsTarget(v, headers, j);
    }
  }

  lemma OverriddenHoldsItsTarget(v: Vocabulary, headers: seq<Header>, i: nat)
    requires i < |headers|
    ensures v.Overridden(headers[i]) ==>
      && Tier1At(v, headers, i).canonical == v.overrides(headers[i])
      && v.overrides(headers[i]).value in OverrideTargets(v, headers)
  {}

  lemma NeverFromTheModel(v: Vocabulary, headers: seq<Header>, i: nat)
    requires i < |headers|
    ensures Tier1At(v, headers, i).tier != LLM
  {
    PricesOf(v, headers).RoleIsAPriceOrNothing(headers[i]);
  }

  /** What the ladder starts from. */
  lemma Tier1IsSafe(v: Vocabulary, headers: seq<Header>)
    requires Distinct(headers)
    ensures var ms := FirstTier(v, headers);
      OnePerHeader(headers, ms) && NoModelTier(ms) && Exclusive(ms, OverrideTargets(v, headers))
  {
    FirstTierIsExclusive(v, headers);
    forall i: nat | i < |headers| ensures FirstTier(v, headers)[i].tier != LLM {
      NeverFromTheModel(v, headers, i);
    }
  }

  // ---- the loops ----

  ghost predicate VerdictSome(v: Vocabulary, headers: seq<Header>, i: int, m: Mapping) {
    0 <= i < |headers| && VerdictAt(v, headers, i) == Some(m)
  }

  lemma {:induction false} SettledHolds(v: Vocabulary, headers: seq<Header>, n: nat, m: Mapping)
    requires n <= |headers|
    ensures m in Settled(v, headers, n) <==> exists i :: i < n && VerdictSome(v, headers, i, m)
  {
    if n > 0 {
      SettledHolds(v, headers, n - 1, m);
      assert m in Settled(v, headers, n) <==> m in Settled(v, headers, n - 1) || VerdictSome(v, headers, n - 1, m);
    }
  }

  ghost predicate SetAside(v: Vocabulary, headers: seq<Header>, i: int, h: Header) {
    0 <= i < |headers| && headers[i] == h && VerdictAt(v, headers, i).None?
  }

  lemma {:induction false} DeferredHolds(v: Vocabulary, headers: seq<Header>, n: nat, h: Header)
    requires n <= |headers|
    ensures h in Deferred(v, headers, n) <==> exists i :: i < n && SetAside(v, headers, i, h)
  {
    if n > 0 {
      DeferredHolds(v, headers, n - 1, h);
      assert h in Deferred(v, headers, n) <==> h in Deferred(v, headers, n - 1) || SetAside(v, headers, n - 1, h);
    }
  }

  lemma {:induction false} FilterHolds(hs: seq<Header>, p: Header -> bool)
    ensures forall h :: h in Filter(hs, p) <==> h in hs && p(h)
  {
    if hs != [] {
      FilterHolds(hs[..|hs| - 1], p);
      assert hs == hs[..|hs| - 1] + [hs[|hs| - 1]];
    }
  }

  /** `rs` is what the columns `hs` were given. */
  ghost predicate Assigns(role: Header -> Mapping, hs: seq<Header>, rs: seq<Mapping>) {
    && (forall m | m in rs :: m.source in hs && m == role(m.source))
    && (forall h | h in hs :: role(h) in rs)
  }

  lemma AssignsAdd(role: Header -> Mapping, a: seq<Header>, ra: seq<Mapping>, b: seq<Header>, rb: seq<Mapping>)
    requires Assigns(role, a, ra) && Assigns(role, b, rb)
    ensures Assigns(role, a + b, ra + rb)
  {}

  lemma AssignsOne(role: Header -> Mapping, hs: seq<Header>, rs: seq<Mapping>, i: nat)
    requires i < |hs| && Assigns(role, hs[..i], rs) && role(hs[i]).source == hs[i]
    ensures Assigns(role, hs[..i + 1], rs + [role(hs[i])])
  {
    AssignsAdd(role, hs[..i], rs, [hs[i]], [role(hs[i])]);
    assert hs[..i + 1] == hs[..i] + [hs[i]];
  }

  lemma SameAssigned(role: Header -> Mapping, a: seq<Header>, b: seq<Header>, rs: seq<Mapping>)
    requires Assigns(role, a, rs) && forall h :: h in a <==> h in b
    ensures Assigns(role, b, rs)
  {}

  function NamedRole(candidates: seq<Header>, preference: Header -> real, f: Field, h: Header): Mapping {
    if Greatest(candidates, preference, None) == Some(h) then Mapping(h, Some(f), ALIAS, 0.98) else Unresolved(h)
  }

  /** One pass of the header vocabulary: the strongest candidate takes the field. */
  method ByName(candidates: seq<Header>, preference: Header -> real, f: Field, ghost role: Header -> Mapping)
    returns (results: seq<Mapping>, taken: bool)
    requires Distinct(candidates)
    requires forall h | h in candidates :: role(h) == NamedRole(candidates, preference, f, h)
    ensures Assigns(role, candidates, results)
    ensures taken <==> Greatest(candidates, preference, None).Some?
  {
    GreatestIsGreatest(candidates, preference, None);
    if candidates == [] {
      return [], false;
    }
    assert candidates[0] in candidates;
    SortedIsSorted(candidates, preference);
    SortedIsDistinct(candidates, preference);
    SortFindsGreatest(candidates, preference, None);
    var sorted := Sorted(candidates, preference);
    var winner := sorted[0];
    results, taken := [Mapping(winner, Some(f), ALIAS, 0.98)], true;
    for i := 1 to |sorted|
      invariant Assigns(role, sorted[..i], results)
    {
      AssignsOne(role, sorted, results, i);
      results := results + [Unresolved(sorted[i])];
    }
    assert sorted[..|sorted|] == sorted;
    SameAssigned(role, sorted, candidates, results);
  }

  lemma {:induction false} FirstUnderAt(s: seq<Header>, key: Header -> real, cut: Option<real>, i: nat)
    requires i < |s| && Distinct(s) && Under(key(s[i]), cut)
    ensures FirstUnder(s, key, cut) == Some(s[i]) <==> forall k | 0 <= k < i :: !Under(key(s[k]), cut)
    decreases |s|
  {
    if i > 0 {
      if Under(key(s[0]), cut) {
        assert s[0] != s[i];
      } else {
        FirstUnderAt(s[1..], key, cut, i - 1);
        assert forall k | 0 <= k < i - 1 :: s[1..][k] == s[k + 1];
      }
    }
  }

  ghost predicate SomeUnder(s: seq<Header>, key: Header -> real, cut: real, n: nat) {
    exists k :: 0 <= k < n && k < |s| && key(s[k]) < cut
  }

  lemma SomeUnderGrows(s: seq<Header>, key: Header -> real, cut: real, i: nat)
    requires i < |s|
    ensures SomeUnder(s, key, cut, i + 1) <==> SomeUnder(s, key, cut, i) || key(s[i]) < cut
  {}

  /** What structure gives a column when some roles are already taken. */
  function StructuralRole(
    h: Header, ratio: real, confidence: real -> real, tradeTaken: bool, settlementTaken: bool): Mapping
  {
    if !tradeTaken && ratio >= 0.5 then Mapping(h, Some(TRADE_PRICE), LOCAL, confidence(ratio))
    else if !settlementTaken && ratio < 0.5 then Mapping(h, Some(SETTLEMENT_PRICE), LOCAL, confidence(1.0 - ratio))
    else Unresolved(h)
  }

  /** The role of the `i`-th column in order of falling ratio follows from what is taken
      by then: by name, or by a column before it. */
  ghost predicate RoleInOrder(
    sorted: seq<Header>, ratio: Header -> real, confidence: real -> real, tradeNamed: bool, settlementNamed: bool,
    role: Header -> Mapping, i: nat)
    requires i < |sorted|
  {
    role(sorted[i]) == StructuralRole(sorted[i], ratio(sorted[i]), confidence,
      tradeNamed || (i > 0 && ratio(sorted[0]) >= 0.5),
      settlementNamed || SomeUnder(sorted, ratio, 0.5, i))
  }

  /** Where the greatest ratio, and the greatest under one half, stand in falling order. */
  lemma GreatestInOrder(hs: seq<Header>, ratio: Header -> real, i: nat)
    requires Distinct(hs) && i < |Sorted(hs, ratio)|
    ensures var sorted := Sorted(hs, ratio);
      && sorted[i] in hs && ratio(sorted[i]) <= ratio(sorted[0])
      && Greatest(hs, ratio, None) == Some(sorted[0])
      && (sorted[i] == sorted[0] ==> i == 0)
      && (ratio(sorted[i]) < 0.5 ==>
            (Greatest(hs, ratio, Some(0.5)) == Some(sorted[i]) <==> !SomeUnder(sorted, ratio, 0.5, i)))
      && (ratio(sorted[i]) >= 0.5 ==> Greatest(hs, ratio, Some(0.5)) != Some(sorted[i]))
  {
    var sorted := Sorted(hs, ratio);
    SortedIsSorted(hs, ratio);
    SortedIsDistinct(hs, ratio);
    SortFindsGreatest(hs, ratio, None);
    SortFindsGreatest(hs, ratio, Some(0.5));
    if ratio(sorted[i]) < 0.5 {
      FirstUnderAt(sorted, ratio, Some(0.5), i);
    } else {
      GreatestIsGreatest(hs, ratio, Some(0.5));
    }
  }

  lemma UndecidedRole(p: Prices, h: Header)
    requires h in p.Undecided()
    ensures p.Role(h) ==
      if p.TradeByStructure() == Some(h) then Mapping(h, Some(TRADE_PRICE), LOCAL, p.v.confidence(p.Ratio(h)))
      else if p.SettlementByStructure() == Some(h) then
        Mapping(h, Some(SETTLEMENT_PRICE), LOCAL, p.v.confidence(1.0 - p.Ratio(h)))
      else Unresolved(h)
  {
    FilterHolds(p.deferred, p.v.SaysNeither);
  }

  /** Who wins by structure, in terms of the falling order. */
  lemma WinnersInOrder(p: Prices, undecided: seq<Header>, ratio: Header -> real, i: nat)
    requires undecided == p.Undecided() && ratio == p.Ratio
    requires Distinct(undecided) && i < |Sorted(undecided, ratio)|
    ensures var sorted := Sorted(undecided, ratio);
      && sorted[i] in undecided
      && (p.TradeByStructure() == Some(sorted[i]) <==>
            ratio(sorted[i]) >= 0.5 && p.TradeByName().None? && !(i > 0 && ratio(sorted[0]) >= 0.5))
      && (p.SettlementByStructure() == Some(sorted[i]) <==>
            ratio(sorted[i]) < 0.5 && p.SettlementByName().None? && !SomeUnder(sorted, ratio, 0.5, i))
  {
    GreatestInOrder(undecided, ratio, i);
  }

  lemma RolesFollowTheOrder(p: Prices, undecided: seq<Header>, ratio: Header -> real, i: nat)
    requires undecided == p.Undecided() && ratio == p.Ratio
    requires Distinct(undecided) && i < |Sorted(undecided, ratio)|
    ensures RoleInOrder(Sorted(undecided, ratio), ratio, p.v.confidence,
      p.TradeByName().Some?, p.SettlementByName().Some?, p.Role, i)
  {
    var sorted := Sorted(undecided, ratio);
    var h, role := sorted[i], p.Role;
    var tradeTaken := p.TradeByName().Some? || (i > 0 && ratio(sorted[0]) >= 0.5);
    var settlementTaken := p.SettlementByName().Some? || SomeUnder(sorted, ratio, 0.5, i);
    assert role(h) == StructuralRole(h, ratio(h), p.v.confidence, tradeTaken, settlementTaken) by {
      WinnersInOrder(p, undecided, ratio, i);
      UndecidedRole(p, h);
    }
  }

  method TakeRole(h: Header, ratio: real, confidence: real -> real, tradeTaken: bool, settlementTaken: bool)
    returns (m: Mapping, trade: bool, settlement: bool)
    ensures m == StructuralRole(h, ratio, confidence, tradeTaken, settlementTaken)
    ensures trade == (tradeTaken || ratio >= 0.5) && settlement == (settlementTaken || ratio < 0.5)
  {
    trade, settlement := tradeTaken, settlementTaken;
    if !tradeTaken && ratio >= 0.5 {
      m := Mapping(h, Some(TRADE_PRICE), LOCAL, confidence(ratio));
      trade := true;
    } else if !settlementTaken && ratio < 0.5 {
      m := Mapping(h, Some(SETTLEMENT_PRICE), LOCAL, confidence(1.0 - ratio));
      settlement := true;
    } else {
      m := Unresolved(h);
    }
  }

  method ByStructure(
    undecided: seq<Header>, ratio: Header -> real, confidence: real -> real, tradeNamed: bool, settlementNamed: bool,
    ghost role: Header -> Mapping)
    returns (results: seq<Mapping>)
    requires forall i: nat | i < |Sorted(undecided, ratio)| ::
      RoleInOrder(Sorted(undecided, ratio), ratio, confidence, tradeNamed, settlementNamed, role, i)
    ensures Assigns(role, undecided, results)
  {
    var scored := Sorted(undecided, ratio);
    SortedIsSorted(undecided, ratio);
    var tradeTaken, settlementTaken := tradeNamed, settlementNamed;
    results := [];
    for i := 0 to |scored|
      invariant tradeTaken <==> tradeNamed || (i > 0 && ratio(scored[0]) >= 0.5)
      invariant settlementTaken <==> settlementNamed || SomeUnder(scored, ratio, 0.5, i)
      invariant Assigns(role, scored[..i], results)
    {
      var h := scored[i];
      var m, trade, settlement := TakeRole(h, ratio(h), confidence, tradeTaken, settlementTaken);
      assert m == role(h) by {
        assert RoleInOrder(scored, ratio, confidence, tradeNamed, settlementNamed, role, i);
      }
      AssignsOne(role, scored, results, i);
      SomeUnderGrows(scored, ratio, 0.5, i);
      results := results + [m];
      tradeTaken, settlementTaken := trade, settlement;
    }
    assert scored[..|scored|] == scored;
    SameAssigned(role, scored, undecided, results);
  }

  method ResolvePrices(v: Vocabulary, headers: seq<Header>, settled: seq<Mapping>) returns (results: seq<Mapping>)
    requires Distinct(headers)
    ensures Assigns(PricesAmong(v, headers, settled).Role, headers, results)
  {
    if headers == [] {
      return [];
    }
    var p := PricesAmong(v, headers, settled);
    var settlement, trade, undecided := [], [], [];
    for i := 0 to |headers|
      invariant settlement == Filter(headers[..i], v.SaysSettlement)
      invariant trade == Filter(headers[..i], v.SaysTrade)
      invariant undecided == Filter(headers[..i], v.SaysNeither)
    {
      var h := headers[i];
      assert headers[..i + 1][..i] == headers[..i];
      if v.namesSettlement(h) && !v.namesTrade(h) {
        settlement := settlement + [h];
      } else if v.namesTrade(h) && !v.namesSettlement(h) {
        trade := trade + [h];
      } else {
        undecided := undecided + [h];
      }
    }
    assert headers[..|headers|] == headers;
    PricesSplit(p);
    var byName, settlementNamed := ByName(settlement, v.settlementPreference, SETTLEMENT_PRICE, p.Role);
    var more, tradeNamed := ByName(trade, v.tradePreference, TRADE_PRICE, p.Role);
    forall i: nat | i < |Sorted(undecided, p.Ratio)|
      ensures RoleInOrder(Sorted(undecided, p.Ratio), p.Ratio, v.confidence, tradeNamed, settlementNamed, p.Role, i)
    {
      RolesFollowTheOrder(p, undecided, p.Ratio, i);
    }
    var rest := ByStructure(undecided, p.Ratio, v.confidence, tradeNamed, settlementNamed, p.Role);
    AssignsAdd(p.Role, settlement, byName, trade, more);
    AssignsAdd(p.Role, settlement + trade, byName + more, undecided, rest);
    SameAssigned(p.Role, settlement + trade + undecided, headers, byName + more + rest);
    results := byName + more + rest;
  }

  lemma {:induction false} FilterKeepsDistinct(hs: seq<Header>, p: Header -> bool)
    requires Distinct(hs)
    ensures Distinct(Filter(hs, p))
  {
    if hs != [] {
      FilterKeepsDistinct(hs[..|hs| - 1], p);
      FilterHolds(hs[..|hs| - 1], p);
    }
  }

  lemma PricesSplit(p: Prices)
    requires Distinct(p.deferred)
    ensures Distinct(p.ForSettlement()) && Distinct(p.ForTrade()) && Distinct(p.Undecided())
    ensures forall h :: h in p.ForSettlement() + p.ForTrade() + p.Undecided() <==> h in p.deferred
    ensures forall h | h in p.ForSettlement() :: p.v.SaysSettlement(h)
    ensures forall h | h in p.ForTrade() :: p.v.SaysTrade(h)
  {
    FilterKeepsDistinct(p.deferred, p.v.SaysSettlement);
    FilterKeepsDistinct(p.deferred, p.v.SaysTrade);
    FilterKeepsDistinct(p.deferred, p.v.SaysNeither);
    FilterHolds(p.deferred, p.v.SaysSettlement);
    FilterHolds(p.deferred, p.v.SaysTrade);
    FilterHolds(p.deferred, p.v.SaysNeither);
  }

  /** Every header has its mapping in `all`, and no header has two. */
  ghost predicate Covers(all: seq<Mapping>, want: seq<Mapping>) {
    && (forall m | m in all :: m in want)
    && (forall m | m in want :: m in all)
  }

  lemma Tier1Covers(v: Vocabulary, headers: seq<Header>, prices: seq<Mapping>)
    requires Assigns(PricesOf(v, headers).Role, Deferred(v, headers, |headers|), prices)
    ensures Covers(Settled(v, headers, |headers|) + prices, FirstTier(v, headers))
  {
    var n, p, want := |headers|, PricesOf(v, headers), FirstTier(v, headers);
    forall m | m in Settled(v, headers, n) ensures m in want {
      SettledHolds(v, headers, n, m);
      var i :| i < n && VerdictSome(v, headers, i, m);
      assert want[i] == m;
    }
    forall m | m in prices ensures m in want {
      DeferredHolds(v, headers, n, m.source);
      var i :| i < n && SetAside(v, headers, i, m.source);
      assert want[i] == p.Role(m.source);
    }
    forall m | m in want ensures m in Settled(v, headers, n) + prices {
      var i :| 0 <= i < n && want[i] == m;
      SettledHolds(v, headers, n, m);
      DeferredHolds(v, headers, n, headers[i]);
      if VerdictAt(v, headers, i).Some? {
        assert VerdictSome(v, headers, i, m);
      } else {
        assert SetAside(v, headers, i, headers[i]);
      }
    }
  }

  method InSourceOrder(headers: seq<Header>, all: seq<Mapping>, ghost want: seq<Mapping>) returns (ms: seq<Mapping>)
    requires Distinct(headers) && OnePerHeader(headers, want) && Covers(all, want)
    ensures ms == want
  {
    var bySource: map<Header, Mapping> := map[];
    for i := 0 to |all|
      invariant forall h | h in bySource :: bySource[h] in want && bySource[h].source == h
      invariant forall k | 0 <= k < i :: all[k].source in bySource
    {
      bySource := bySource[all[i].source := all[i]];
    }
    ms := [];
    for i := 0 to |headers|
      invariant ms == want[..i]
    {
      assert want[i] in all;
      if headers[i] in bySource {
        OneMappingPerSource(headers, want, i, bySource[headers[i]]);
        ms := ms + [bySource[headers[i]]];
      }
    }
  }

  lemma OneMappingPerSource(headers: seq<Header>, want: seq<Mapping>, i: nat, m: Mapping)
    requires Distinct(headers) && OnePerHeader(headers, want) && i < |headers|
    requires m in want && m.source == headers[i]
    ensures m == want[i]
  {}

  method MapTable(v: Vocabulary, headers: seq<Header>) returns (ms: seq<Mapping>)
    requires Distinct(headers)
    ensures ms == FirstTier(v, headers)
  {
    var mappings, claimed: set<Field>, deferred := [], {}, [];
    for i := 0 to |headers|
      invariant mappings == Settled(v, headers, i)
      invariant claimed == ClaimedFirst(v, headers, i)
      invariant deferred == Deferred(v, headers, i)
    {
      var h := headers[i];
      var given := v.overrides(h);
      if Named(given) {
        mappings := mappings + [Mapping(h, given, HUMAN, 1.0)];
        claimed := claimed + {given.value};
        continue;
      }
      var hit := v.alias(h);
      if hit == Some(TRADE_PRICE) || hit == Some(SETTLEMENT_PRICE) {
        deferred := deferred + [h];
        continue;
      }
      if Named(hit) && v.mappable(hit.value) && hit.value !in claimed {
        mappings := mappings + [Mapping(h, hit, ALIAS, 1.0)];
        claimed := claimed + {hit.value};
        continue;
      }
      if Named(hit) && hit.value in claimed {
        mappings := mappings + [Unresolved(h)];
        continue;
      }
      if v.looksLikePrice(h) {
        deferred := deferred + [h];
        continue;
      }
      mappings := mappings + [Unresolved(h)];
    }
    DeferredIsDistinct(v, headers, |headers|);
    var prices := ResolvePrices(v, deferred, mappings);
    Tier1Covers(v, headers, prices);
    ms := InSourceOrder(headers, mappings + prices, FirstTier(v, headers));
  }

  lemma {:induction false} DeferredIsDistinct(v: Vocabulary, headers: seq<Header>, n: nat)
    requires Distinct(headers) && n <= |headers|
    ensures Distinct(Deferred(v, headers, n))
  {
    if n > 0 {
      DeferredIsDistinct(v, headers, n - 1);
      DeferredHolds(v, headers, n - 1, headers[n - 1]);
    }
  }
}
