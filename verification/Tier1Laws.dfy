/** What the first tier decides for each column, in terms of the vocabulary, the headers and
    the table of results alone (python/src/inspector/mapping/tier1.py, map_table and
    _resolve_prices). */
module Tier1Laws {
  import opened Basics
  import opened Mappings
  import opened Tier1

  predicate IsPrice(f: Field) {
    f == TRADE_PRICE || f == SETTLEMENT_PRICE
  }

  /** An earlier column ended up on the field. */
  ghost predicate HeldBefore(ms: seq<Mapping>, i: nat, f: Field) {
    exists j :: 0 <= j < i && j < |ms| && ms[j].canonical == Some(f)
  }

  /** The dictionary knows a field for the column that no earlier column has. */
  ghost predicate DictionaryMaps(v: Vocabulary, headers: seq<Header>, ms: seq<Mapping>, i: nat)
    requires i < |headers|
  {
    var hit := v.alias(headers[i]);
    && !v.Overridden(headers[i]) && hit.Some? && hit.value != "" && !IsPrice(hit.value)
    && v.mappable(hit.value) && !HeldBefore(ms, i, hit.value)
  }

  /** The dictionary has nothing to say about the column. */
  ghost predicate DictionaryPasses(v: Vocabulary, headers: seq<Header>, ms: seq<Mapping>, i: nat)
    requires i < |headers|
  {
    var hit := v.alias(headers[i]);
    hit.None? || hit.value == "" || (!v.mappable(hit.value) && !HeldBefore(ms, i, hit.value))
  }

  ghost predicate GoesToPrices(v: Vocabulary, headers: seq<Header>, ms: seq<Mapping>, i: nat)
    requires i < |headers|
  {
    var hit := v.alias(headers[i]);
    && !v.Overridden(headers[i])
    && ((hit.Some? && IsPrice(hit.value)) || (DictionaryPasses(v, headers, ms, i) && v.looksLikePrice(headers[i])))
  }

  /** The dictionary pass put the column on the field. */
  ghost predicate PutBy(v: Vocabulary, headers: seq<Header>, i: nat, f: Field)
    requires i < |headers|
  {
    VerdictAt(v, headers, i).Some? && VerdictAt(v, headers, i).value.canonical == Some(f)
  }

  /** The columns on a field are those the dictionary pass put there. */
  ghost predicate PutWhereHeld(v: Vocabulary, headers: seq<Header>, ms: seq<Mapping>, f: Field) {
    && |ms| == |headers|
    && forall i: nat | i < |headers| :: ms[i].canonical == Some(f) <==> PutBy(v, headers, i, f)
  }

  /** Only the dictionary pass settles columns on fields that are no prices. */
  lemma OnlyTheDictionaryPuts(v: Vocabulary, headers: seq<Header>, ms: seq<Mapping>, f: Field)
    requires ms == FirstTier(v, headers) && !IsPrice(f)
    ensures PutWhereHeld(v, headers, ms, f)
  {
    forall i: nat | i < |headers| ensures ms[i].canonical == Some(f) <==> PutBy(v, headers, i, f) {
      RoleTiers(PricesOf(v, headers), headers[i]);
    }
  }

  lemma {:induction false} ClaimedIsHeldBefore(v: Vocabulary, headers: seq<Header>, ms: seq<Mapping>, i: nat, f: Field)
    requires i <= |headers| && PutWhereHeld(v, headers, ms, f) && f != ""
    ensures f in ClaimedFirst(v, headers, i) <==> HeldBefore(ms, i, f)
  {
    if i > 0 {
      var n: nat := i - 1;
      ClaimedIsHeldBefore(v, headers, ms, n, f);
      ClaimedOneMore(v, headers, n, f);
      HeldOneMore(ms, n, f);
      assert ms[n].canonical == Some(f) <==> PutBy(v, headers, n, f);
    }
  }

  lemma ClaimedOneMore(v: Vocabulary, headers: seq<Header>, i: nat, f: Field)
    requires i < |headers| && f != ""
    ensures f in ClaimedFirst(v, headers, i + 1) <==> f in ClaimedFirst(v, headers, i) || PutBy(v, headers, i, f)
  {}

  lemma HeldOneMore(ms: seq<Mapping>, i: nat, f: Field)
    requires i < |ms|
    ensures HeldBefore(ms, i + 1, f) <==> HeldBefore(ms, i, f) || ms[i].canonical == Some(f)
  {}

  lemma SetAsideGoesToPrices(v: Vocabulary, headers: seq<Header>, ms: seq<Mapping>, i: nat)
    requires i < |headers| && ms == FirstTier(v, headers)
    ensures VerdictAt(v, headers, i).None? <==> GoesToPrices(v, headers, ms, i)
  {
    var hit := v.alias(headers[i]);
    if hit.Some? && hit.value != "" && !IsPrice(hit.value) {
      OnlyTheDictionaryPuts(v, headers, ms, hit.value);
      ClaimedIsHeldBefore(v, headers, ms, i, hit.value);
    }
  }

  /** Every column of the first tier: a client override, the price pass, the dictionary, or
      nothing, and which of them is read off the vocabulary and the columns before it. */
  lemma FirstTierDecides(v: Vocabulary, headers: seq<Header>, ms: seq<Mapping>, i: nat)
    requires i < |headers| && ms == FirstTier(v, headers)
    ensures var h := headers[i];
      ms[i] ==
        if v.Overridden(h) then Mapping(h, v.overrides(h), HUMAN, 1.0)
        else if GoesToPrices(v, headers, ms, i) then PricesOf(v, headers).Role(h)
        else if DictionaryMaps(v, headers, ms, i) then Mapping(h, v.alias(h), ALIAS, 1.0)
        else Mapping(h, None, UNRESOLVED, 0.0)
    ensures ms[i].tier == HUMAN <==> v.Overridden(headers[i])
    ensures (exists f :: !IsPrice(f) && ms[i] == Mapping(headers[i], Some(f), ALIAS, 1.0))
      <==> DictionaryMaps(v, headers, ms, i)
  {
    var hit := v.alias(headers[i]);
    SetAsideGoesToPrices(v, headers, ms, i);
    RoleTiers(PricesOf(v, headers), headers[i]);
    if hit.Some? && hit.value != "" && !IsPrice(hit.value) {
      OnlyTheDictionaryPuts(v, headers, ms, hit.value);
      ClaimedIsHeldBefore(v, headers, ms, i, hit.value);
    }
  }

  lemma RoleTiers(p: Prices, h: Header)
    ensures p.Role(h).tier != HUMAN && (p.Role(h).canonical.Some? ==> IsPrice(p.Role(h).canonical.value))
  {
    p.RoleIsAPriceOrNothing(h);
  }

  // ---- the price columns ----

  /** Column `i` is the first of the greatest key among those `among` and under the cut. */
  ghost predicate IsBest(hs: seq<Header>, among: Header -> bool, key: Header -> real, cut: Option<real>, i: int) {
    && 0 <= i < |hs| && among(hs[i]) && Under(key(hs[i]), cut)
    && forall j | 0 <= j < |hs| && among(hs[j]) && Under(key(hs[j]), cut) :: Yields(key(hs[j]), key(hs[i]), j < i)
  }

  predicate Yields(x: real, best: real, earlier: bool) {
    if earlier then x < best else x <= best
  }

  ghost predicate NoneAmong(hs: seq<Header>, among: Header -> bool, key: Header -> real, cut: Option<real>) {
    forall j | 0 <= j < |hs| && among(hs[j]) :: !Under(key(hs[j]), cut)
  }

  ghost predicate Wins(hs: seq<Header>, among: Header -> bool, key: Header -> real, cut: Option<real>, h: Header) {
    exists i :: IsBest(hs, among, key, cut, i) && hs[i] == h
  }

  /** What the greatest, if any, is. */
  ghost predicate GivesTheBest(
    hs: seq<Header>, among: Header -> bool, key: Header -> real, cut: Option<real>, g: Option<Header>)
  {
    if g.None? then NoneAmong(hs, among, key, cut) else Wins(hs, among, key, cut, g.value)
  }

  lemma BestGrows(
    hs: seq<Header>, last: Header, among: Header -> bool, key: Header -> real, cut: Option<real>, g: Option<Header>)
    requires GivesTheBest(hs, among, key, cut, g)
    ensures var beats := among(last) && Under(key(last), cut) && (g.None? || key(last) > key(g.value));
      GivesTheBest(hs + [last], among, key, cut, if beats then Some(last) else g)
  {
    var all := hs + [last];
    assert all[|hs|] == last;
    if among(last) && Under(key(last), cut) && (g.None? || key(last) > key(g.value)) {
      assert IsBest(all, among, key, cut, |hs|) by {
        if g.Some? {
          var i :| IsBest(hs, among, key, cut, i) && hs[i] == g.value;
        }
      }
    } else if g.Some? {
      var i :| IsBest(hs, among, key, cut, i) && hs[i] == g.value;
      assert IsBest(all, among, key, cut, i) && all[i] == g.value;
    }
  }

  lemma GreatestGrows(hs: seq<Header>, last: Header, key: Header -> real, cut: Option<real>)
    ensures Greatest(hs + [last], key, cut) ==
      var g := Greatest(hs, key, cut);
      if Under(key(last), cut) && (g.None? || key(last) > key(g.value)) then Some(last) else g
  {
    assert (hs + [last])[..|hs|] == hs;
  }

  lemma FilterGrows(hs: seq<Header>, last: Header, among: Header -> bool)
    ensures Filter(hs + [last], among) == if among(last) then Filter(hs, among) + [last] else Filter(hs, among)
  {
    assert (hs + [last])[..|hs|] == hs;
  }

  lemma {:induction false} GreatestIsBest(
    hs: seq<Header>, among: Header -> bool, key: Header -> real, cut: Option<real>)
    ensures GivesTheBest(hs, among, key, cut, Greatest(Filter(hs, among), key, cut))
  {
    if hs != [] {
      var init, last := hs[..|hs| - 1], hs[|hs| - 1];
      GreatestIsBest(init, among, key, cut);
      assert hs == init + [last];
      FilterGrows(init, last, among);
      GreatestGrows(Filter(init, among), last, key, cut);
      BestGrows(init, last, among, key, cut, Greatest(Filter(init, among), key, cut));
    }
  }

  lemma BestIsUnique(hs: seq<Header>, among: Header -> bool, key: Header -> real, cut: Option<real>, i: int, j: int)
    requires IsBest(hs, among, key, cut, i) && IsBest(hs, among, key, cut, j)
    ensures i == j
  {
    assert Yields(key(hs[j]), key(hs[i]), j < i) && Yields(key(hs[i]), key(hs[j]), i < j);
  }

  lemma GreatestWins(hs: seq<Header>, among: Header -> bool, key: Header -> real, cut: Option<real>, h: Header)
    ensures Greatest(Filter(hs, among), key, cut) == Some(h) <==> Wins(hs, among, key, cut, h)
    ensures Greatest(Filter(hs, among), key, cut).None? <==> NoneAmong(hs, among, key, cut)
  {
    var g := Greatest(Filter(hs, among), key, cut);
    GreatestIsBest(hs, among, key, cut);
    if g.Some? {
      var i :| IsBest(hs, among, key, cut, i) && hs[i] == g.value;
      if Wins(hs, among, key, cut, h) {
        var j :| IsBest(hs, among, key, cut, j) && hs[j] == h;
        BestIsUnique(hs, among, key, cut, i, j);
      }
    }
  }

  ghost predicate SomeSays(hs: seq<Header>, says: Header -> bool) {
    exists i :: 0 <= i < |hs| && says(hs[i])
  }

  /** A header that names one role gets it if it is preferred over all that do, the first on
      ties, and nothing otherwise. Of the others the one that varies most is the trade
      price if it varies in at least half and no header names a trade price, and the one
      that varies most of those in fewer is the settlement price if no header names one. */
  lemma PricesDecide(p: Prices, h: Header)
    ensures p.Role(h) ==
      if p.v.namesSettlement(h) && !p.v.namesTrade(h) then
        if Wins(p.deferred, p.v.SaysSettlement, p.v.settlementPreference, None, h)
        then Mapping(h, Some(SETTLEMENT_PRICE), ALIAS, 0.98) else Mapping(h, None, UNRESOLVED, 0.0)
      else if p.v.namesTrade(h) && !p.v.namesSettlement(h) then
        if Wins(p.deferred, p.v.SaysTrade, p.v.tradePreference, None, h)
        then Mapping(h, Some(TRADE_PRICE), ALIAS, 0.98) else Mapping(h, None, UNRESOLVED, 0.0)
      else if !SomeSays(p.deferred, p.v.SaysTrade) && p.Ratio(h) >= 0.5
        && Wins(p.deferred, p.v.SaysNeither, p.Ratio, None, h)
      then Mapping(h, Some(TRADE_PRICE), LOCAL, p.v.confidence(p.Ratio(h)))
      else if !SomeSays(p.deferred, p.v.SaysSettlement) && Wins(p.deferred, p.v.SaysNeither, p.Ratio, Some(0.5), h)
      then Mapping(h, Some(SETTLEMENT_PRICE), LOCAL, p.v.confidence(1.0 - p.Ratio(h)))
      else Mapping(h, None, UNRESOLVED, 0.0)
  {
    GreatestWins(p.deferred, p.v.SaysSettlement, p.v.settlementPreference, None, h);
    GreatestWins(p.deferred, p.v.SaysTrade, p.v.tradePreference, None, h);
    GreatestWins(p.deferred, p.v.SaysNeither, p.Ratio, None, h);
    GreatestWins(p.deferred, p.v.SaysNeither, p.Ratio, Some(0.5), h);
    NobodySays(p.deferred, p.v.SaysSettlement, p.v.settlementPreference);
    NobodySays(p.deferred, p.v.SaysTrade, p.v.tradePreference);
  }

  lemma NobodySays(hs: seq<Header>, says: Header -> bool, key: Header -> real)
    ensures NoneAmong(hs, says, key, None) <==> !SomeSays(hs, says)
  {}

  // ---- which columns the price pass gets ----

  /** `ix` lists the columns that go to the price pass, in order, and `hs` their headers. */
  ghost predicate ListsPrices(
    v: Vocabulary, headers: seq<Header>, ms: seq<Mapping>, n: nat, ix: seq<nat>, hs: seq<Header>)
    requires n <= |headers|
  {
    && |hs| == |ix| && (forall k | 0 <= k < |ix| :: ix[k] < n && hs[k] == headers[ix[k]])
    && (forall j, k | 0 <= j < k < |ix| :: ix[j] < ix[k])
    && (forall i: nat | i < n :: i in ix <==> GoesToPrices(v, headers, ms, i))
  }

  /** The dictionary pass sets aside exactly the columns that go to the price pass. */
  ghost predicate SetsAside(v: Vocabulary, headers: seq<Header>, ms: seq<Mapping>) {
    forall i: nat | i < |headers| :: VerdictAt(v, headers, i).None? <==> GoesToPrices(v, headers, ms, i)
  }

  lemma ListGrows(v: Vocabulary, headers: seq<Header>, ms: seq<Mapping>, n: nat, ix: seq<nat>, hs: seq<Header>)
    requires n < |headers| && ListsPrices(v, headers, ms, n, ix, hs)
    ensures if GoesToPrices(v, headers, ms, n) then ListsPrices(v, headers, ms, n + 1, ix + [n], hs + [headers[n]])
      else ListsPrices(v, headers, ms, n + 1, ix, hs)
  {
    assert (ix + [n])[|ix|] == n;
    forall i: nat | i < n + 1 ensures i in ix + [n] <==> i in ix || i == n {}
  }

  lemma DeferredGrows(v: Vocabulary, headers: seq<Header>, n: nat)
    requires n < |headers|
    ensures Deferred(v, headers, n + 1) ==
      if VerdictAt(v, headers, n).None? then Deferred(v, headers, n) + [headers[n]] else Deferred(v, headers, n)
  {}

  lemma {:induction false} DeferredAreListed(v: Vocabulary, headers: seq<Header>, ms: seq<Mapping>, n: nat)
    returns (ix: seq<nat>)
    requires n <= |headers| && SetsAside(v, headers, ms)
    ensures ListsPrices(v, headers, ms, n, ix, Deferred(v, headers, n))
  {
    ix := [];
    if n > 0 {
      var m: nat := n - 1;
      ix := DeferredAreListed(v, headers, ms, m);
      DeferredGrows(v, headers, m);
      ListGrows(v, headers, ms, m, ix, Deferred(v, headers, m));
      assert VerdictAt(v, headers, m).None? <==> GoesToPrices(v, headers, ms, m);
      if GoesToPrices(v, headers, ms, m) {
        ix := ix + [m];
      }
    }
  }

  /** The first column on a field. */
  ghost predicate IsFirstOn(ms: seq<Mapping>, i: int, f: Field) {
    0 <= i < |ms| && ms[i].canonical == Some(f) && !HeldBefore(ms, i, f)
  }

  lemma FirstHoldingSplits(a: seq<Mapping>, m: Mapping, f: Field)
    ensures FirstHolding(a + [m], f) ==
      if FirstHolding(a, f).Some? then FirstHolding(a, f) else if m.canonical == Some(f) then Some(m.source) else None
    decreases |a|
  {
    if a == [] {
      assert a + [m] == [m] && [m][1..] == [];
    } else {
      assert (a + [m])[1..] == a[1..] + [m];
      FirstHoldingSplits(a[1..], m, f);
    }
  }

  /** The first of the first `n` columns on the field, if any. */
  ghost predicate GivesTheFirst(headers: seq<Header>, ms: seq<Mapping>, n: nat, f: Field, g: Option<Header>) {
    if g.None? then !HeldBefore(ms, n, f)
    else exists i :: IsFirstOn(ms, i, f) && i < n && i < |headers| && g.value == headers[i]
  }

  lemma FirstGrows(headers: seq<Header>, ms: seq<Mapping>, n: nat, f: Field, g: Option<Header>)
    requires n < |headers| == |ms| && GivesTheFirst(headers, ms, n, f, g)
    ensures GivesTheFirst(headers, ms, n + 1, f,
      if g.Some? then g else if ms[n].canonical == Some(f) then Some(headers[n]) else None)
  {
    HeldOneMore(ms, n, f);
    if g.None? && ms[n].canonical == Some(f) {
      assert IsFirstOn(ms, n, f);
    }
  }

  lemma SettledGrows(v: Vocabulary, headers: seq<Header>, n: nat, f: Field)
    requires n < |headers|
    ensures FirstHolding(Settled(v, headers, n + 1), f) ==
      var g := FirstHolding(Settled(v, headers, n), f);
      if g.Some? then g else if PutBy(v, headers, n, f) then Some(headers[n]) else None
  {
    var m := VerdictAt(v, headers, n);
    if m.Some? {
      FirstHoldingSplits(Settled(v, headers, n), m.value, f);
    } else {
      assert Settled(v, headers, n + 1) == Settled(v, headers, n);
    }
  }

  lemma {:induction false} SettledFirst(v: Vocabulary, headers: seq<Header>, ms: seq<Mapping>, n: nat, f: Field)
    requires n <= |headers| && PutWhereHeld(v, headers, ms, f)
    ensures GivesTheFirst(headers, ms, n, f, FirstHolding(Settled(v, headers, n), f))
  {
    if n > 0 {
      var m: nat := n - 1;
      SettledFirst(v, headers, ms, m, f);
      SettledGrows(v, headers, m, f);
      FirstGrows(headers, ms, m, f, FirstHolding(Settled(v, headers, m), f));
      assert ms[m].canonical == Some(f) <==> PutBy(v, headers, m, f);
    }
  }

  lemma FirstOnIsUnique(ms: seq<Mapping>, i: int, j: int, f: Field)
    requires IsFirstOn(ms, i, f) && IsFirstOn(ms, j, f)
    ensures i == j
  {
    assert !HeldBefore(ms, i, f) && !HeldBefore(ms, j, f);
  }

  /** `h` heads the first column on the field. */
  ghost predicate HeadsTheFirst(headers: seq<Header>, ms: seq<Mapping>, f: Field, h: Header) {
    exists i :: IsFirstOn(ms, i, f) && i < |headers| && headers[i] == h
  }

  lemma FirstIsTheOne(headers: seq<Header>, ms: seq<Mapping>, f: Field, g: Option<Header>, h: Header)
    requires |headers| == |ms| && GivesTheFirst(headers, ms, |ms|, f, g)
    ensures g == Some(h) <==> HeadsTheFirst(headers, ms, f, h)
  {
    if HeadsTheFirst(headers, ms, f, h) {
      var j :| IsFirstOn(ms, j, f) && headers[j] == h;
      assert HeldBefore(ms, |ms|, f);
      var i :| IsFirstOn(ms, i, f) && g.value == headers[i];
      FirstOnIsUnique(ms, i, j, f);
    }
  }

  /** The price pass of a table: it gets exactly the columns that go to it, in table order,
      and groups rows by the first column on an instrument id, unless its header is blank. */
  lemma PricePassIs(v: Vocabulary, headers: seq<Header>, ms: seq<Mapping>)
    requires ms == FirstTier(v, headers)
    ensures PricesOf(v, headers).v == v
    ensures exists ix :: ListsPrices(v, headers, ms, |headers|, ix, PricesOf(v, headers).deferred)
    ensures forall g :: PricesOf(v, headers).group == Some(g) <==>
      g != "" && HeadsTheFirst(headers, ms, INSTRUMENT_ID, g)
  {
    forall i: nat | i < |headers| ensures VerdictAt(v, headers, i).None? <==> GoesToPrices(v, headers, ms, i) {
      SetAsideGoesToPrices(v, headers, ms, i);
    }
    var ix := DeferredAreListed(v, headers, ms, |headers|);
    OnlyTheDictionaryPuts(v, headers, ms, INSTRUMENT_ID);
    SettledFirst(v, headers, ms, |headers|, INSTRUMENT_ID);
    forall g
      ensures PricesOf(v, headers).group == Some(g) <==> g != "" && HeadsTheFirst(headers, ms, INSTRUMENT_ID, g)
    {
      FirstIsTheOne(headers, ms, INSTRUMENT_ID, FirstHolding(Settled(v, headers, |headers|), INSTRUMENT_ID), g);
    }
  }
}
