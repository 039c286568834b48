/** The resolver as it runs: one list of mappings updated in place, a cache shared with
    later files (python/src/inspector/mapping/resolver.py, tier3.py). */
module Resolver {
  import opened Basics
  import opened Mappings
  import opened Scans
  import opened Tier1
  import opened Tier2
  import opened Ladder

  datatype CacheKey = CacheKey(fingerprint: string, client: string)

  class TemplateCache {
    var store: map<CacheKey, Learned>
    var hits: nat
    var misses: nat

    constructor ()
      ensures store == map[] && hits == 0 && misses == 0
    {
      store, hits, misses := map[], 0, 0;
    }

    ghost function Entry(k: CacheKey): Option<Learned>
      reads this
    {
      if k in store then Some(store[k]) else None
    }

    method Get(k: CacheKey) returns (r: Option<Learned>)
      modifies this
      ensures store == old(store) && r == old(Entry(k))
      ensures hits == old(hits) + (if r.Some? then 1 else 0) && misses == old(misses) + (if r.None? then 1 else 0)
    {
      if k !in store {
        misses := misses + 1;
        return None;
      }
      hits := hits + 1;
      r := Some(store[k]);
    }

    method Put(k: CacheKey, learned: Learned)
      modifies this
      ensures store == old(store)[k := learned] && hits == old(hits) && misses == old(misses)
    {
      store := store[k := learned];
    }
  }

  datatype Outcome = Outcome(
    mappings: seq<Mapping>, tier2Used: nat, tier3Used: nat, cacheHit: bool, degraded: bool, promotable: Option<Learned>)

  // ---- loops over the open columns only ----

  method OpenColumns(ms: array<Mapping>) returns (ix: seq<nat>)
    ensures IsUnresolved(ms[..], ix)
  {
    ix := [];
    for i := 0 to ms.Length
      invariant IsUnresolved(ms[..i], ix)
    {
      if IsOpen(ms[i]) {
        ix := ix + [i];
      }
      assert ms[..i + 1] == ms[..i] + [ms[i]];
    }
    assert ms[..ms.Length] == ms[..];
  }

  /** Column at which the loop stands before its `j`-th round. */
  function Mark(ms: seq<Mapping>, ix: seq<nat>, j: nat): nat
    requires j <= |ix|
  {
    if j < |ix| then ix[j] else |ms|
  }

  lemma {:induction false} SettledColumnsPass(p: Proposer, tier: Tier, ms: seq<Mapping>, a: nat, b: nat)
    requires a <= b <= |ms| && Fresh(p, tier) && forall k | a <= k < b :: !IsOpen(ms[k])
    ensures Scan(p, ms, b) == Scan(p, ms, a)
  {
    if a < b {
      SettledColumnsPass(p, tier, ms, a, b - 1);
      ScanBetween(p, tier, ms, 0, b - 1);
    }
  }

  /** Skipping to the next open column skips nothing a scan would have changed. */
  lemma NextRound(p: Proposer, tier: Tier, ms: seq<Mapping>, ix: seq<nat>, j: nat)
    requires Fresh(p, tier) && IsUnresolved(ms, ix) && j < |ix|
    ensures Scan(p, ms, Mark(ms, ix, j + 1)) == Step(p, Scan(p, ms, ix[j]), ix[j])
    ensures Scan(p, ms, ix[j])[ix[j]] == ms[ix[j]]
  {
    var next := Mark(ms, ix, j + 1);
    forall k | ix[j] < k < next ensures !IsOpen(ms[k]) {
      assert forall l | 0 <= l < |ix| :: ix[l] != k;
    }
    SettledColumnsPass(p, tier, ms, ix[j] + 1, next);
    ScanBetween(p, tier, ms, 0, ix[j]);
  }

  lemma FirstRound(p: Proposer, tier: Tier, ms: seq<Mapping>, ix: seq<nat>)
    requires Fresh(p, tier) && IsUnresolved(ms, ix)
    ensures Scan(p, ms, Mark(ms, ix, 0)) == ms
  {
    forall k | 0 <= k < Mark(ms, ix, 0) ensures !IsOpen(ms[k]) {
      assert forall l | 0 <= l < |ix| :: ix[l] != k;
    }
    SettledColumnsPass(p, tier, ms, 0, Mark(ms, ix, 0));
  }

  lemma {:induction false} SettlingCounts(before: seq<Mapping>, ms: seq<Mapping>, i: nat, m: Mapping)
    requires |before| == |ms| && i < |ms| && IsOpen(before[i]) && IsOpen(ms[i]) && !IsOpen(m)
    ensures NewlySettled(before, ms[i := m]) == NewlySettled(before, ms) + 1
  {
    var n := |ms| - 1;
    if i == n {
      assert ms[i := m][..n] == ms[..n];
    } else {
      assert ms[i := m][..n] == ms[..n][i := m];
      SettlingCounts(before[..n], ms[..n], i, m);
    }
  }

  lemma {:induction false} NothingSettledYet(ms: seq<Mapping>)
    ensures NewlySettled(ms, ms) == 0
  {
    if ms != [] {
      NothingSettledYet(ms[..|ms| - 1]);
    }
  }

  class TieredResolver {
    const vocabulary: Vocabulary
    const matcher: Matcher
    const adjudicator: Option<Adjudicator>
    const cache: TemplateCache
    ghost var requests: seq<Request>

    constructor (vocabulary: Vocabulary, matcher: Matcher, adjudicator: Option<Adjudicator>, cache: TemplateCache)
      ensures this.vocabulary == vocabulary && this.matcher == matcher && this.adjudicator == adjudicator
      ensures this.cache == cache && requests == []
    {
      this.vocabulary, this.matcher, this.adjudicator, this.cache := vocabulary, matcher, adjudicator, cache;
      requests := [];
    }

    /** `_apply`: the taken set is carried along instead of being recomputed. */
    method ApplyCached(ms: array<Mapping>, learned: Learned)
      modifies ms
      ensures ms[..] == Scan(FromCache(learned), old(ms[..]), ms.Length)
    {
      ghost var start := ms[..];
      var p := FromCache(learned);
      CacheIsFresh(learned);
      var taken := Claimed(ms[..]);
      for i := 0 to ms.Length
        invariant ms[..] == Scan(p, start, i) && taken == Claimed(ms[..])
      {
        ghost var before := ms[..];
        if !IsOpen(ms[i]) {
          continue;
        }
        var h := ms[i].source;
        if h in learned && learned[h] != "" && learned[h] !in taken {
          ClaimedAfterSettling(before, i, learned[h], LLM, 0.80);
          ms[i] := ms[i].(canonical := Some(learned[h]), tier := LLM, confidence := 0.80);
          taken := taken + {learned[h]};
          assert ms[..] == Settle(before, i, learned[h], LLM, 0.80);
        }
      }
    }

    method RunTier2(ms: array<Mapping>, unresolved: seq<nat>) returns (used: nat)
      requires IsUnresolved(ms[..], unresolved)
      modifies ms
      ensures ms[..] == Scan(FromMatcher(matcher), old(ms[..]), ms.Length)
      ensures used == NewlySettled(old(ms[..]), ms[..])
    {
      ghost var start := ms[..];
      ghost var p := FromMatcher(matcher);
      MatcherIsFresh(matcher);
      FirstRound(p, LOCAL, start, unresolved);
      NothingSettledYet(start);
      used := 0;
      for j := 0 to |unresolved|
        invariant ms[..] == Scan(p, start, Mark(start, unresolved, j))
        invariant used == NewlySettled(start, ms[..])
      {
        var i := unresolved[j];
        ghost var before := ms[..];
        NextRound(p, LOCAL, start, unresolved, j);
        var taken := Claimed(ms[..]);
        var m := matcher.Match(ms[i].source, taken);
        if m.field.None? {
          continue;
        }
        ms[i] := ms[i].(canonical := m.field, tier := LOCAL, confidence := m.confidence);
        assert ms[..] == Settle(before, i, m.field.value, LOCAL, m.confidence);
        SettlingCounts(start, before, i, ms[i]);
        used := used + 1;
      }
    }

    method RunTier3(ms: array<Mapping>, unresolved: seq<nat>, key: CacheKey)
      returns (used: nat, promotable: Option<Learned>)
      requires IsUnresolved(ms[..], unresolved) && adjudicator.Some?
      modifies ms, cache, `requests
      ensures var start := old(ms[..]);
        var request := Request(OpenHeaders(start), ResolvedFields(start));
        && ms[..] == Scan(FromAnswers(AsMap(adjudicator.value(request))), start, ms.Length)
        && used == NewlySettled(start, ms[..])
        && requests == old(requests) + [request] && AsksAbout(start, unresolved, request)
        && AnswersDecide(adjudicator.value(request), start, ms[..])
      ensures promotable == if used > 0 && Keyed(key) then Some(LearnedFrom(ms[..])) else None
      ensures cache.store == if promotable.Some? then old(cache.store)[key := promotable.value] else old(cache.store)
    {
      ghost var start := ms[..];
      var request := Ask(ms, unresolved);
      var answers := AsMap(adjudicator.value(request));
      requests := requests + [request];
      TheRequestNamesWhatIsOpen(start, unresolved);
      AnswerStageDecides(adjudicator.value(request), start);
      used := SettleAnswers(ms, unresolved, answers);
      promotable := None;
      if used > 0 && Keyed(key) {
        var learned := LearnedFrom(ms[..]);
        cache.Put(key, learned);
        promotable := Some(learned);
      }
    }

    /** The headers still open, and the dictionary of what is settled. */
    method Ask(ms: array<Mapping>, unresolved: seq<nat>) returns (r: Request)
      requires IsUnresolved(ms[..], unresolved)
      ensures r == Request(OpenHeaders(ms[..]), ResolvedFields(ms[..]))
    {
      var resolved: map<Header, Field>, headers: seq<Header> := map[], [];
      for i := 0 to ms.Length
        invariant resolved == ResolvedFields(ms[..i])
      {
        assert ms[..i + 1][..i] == ms[..i];
        if ms[i].canonical.Some? {
          resolved := resolved[ms[i].source := ms[i].canonical.value];
        }
      }
      assert ms[..ms.Length] == ms[..];
      for j := 0 to |unresolved|
        invariant |headers| == j && forall k | 0 <= k < j :: headers[k] == ms[unresolved[k]].source
      {
        headers := headers + [ms[unresolved[j]].source];
      }
      OpenHeadersAreNamed(ms[..], unresolved);
      assert headers == OpenHeaders(ms[..]);
      r := Request(headers, resolved);
    }

    method SettleAnswers(ms: array<Mapping>, unresolved: seq<nat>, answers: map<Header, Answer>) returns (used: nat)
      requires IsUnresolved(ms[..], unresolved)
      modifies ms
      ensures ms[..] == Scan(FromAnswers(answers), old(ms[..]), ms.Length)
      ensures used == NewlySettled(old(ms[..]), ms[..])
    {
      ghost var start := ms[..];
      ghost var p := FromAnswers(answers);
      AnswersAreFresh(answers);
      FirstRound(p, LLM, start, unresolved);
      NothingSettledYet(start);
      used := 0;
      for j := 0 to |unresolved|
        invariant ms[..] == Scan(p, start, Mark(start, unresolved, j))
        invariant used == NewlySettled(start, ms[..])
      {
        var i := unresolved[j];
        ghost var before := ms[..];
        NextRound(p, LLM, start, unresolved, j);
        var h := ms[i].source;
        if h !in answers || answers[h].field.None? {
          continue;
        }
        if answers[h].field.value in Claimed(ms[..]) {
          continue;
        }
        ms[i] := ms[i].(canonical := answers[h].field, tier := LLM, confidence := answers[h].confidence);
        assert ms[..] == Settle(before, i, answers[h].field.value, LLM, answers[h].confidence);
        SettlingCounts(start, before, i, ms[i]);
        used := used + 1;
      }
    }

    ghost function Planned(keyed: bool): Call {
      Call(matcher, adjudicator, keyed)
    }

    method LocalStage(ms: array<Mapping>) returns (used: nat)
      modifies ms
      ensures ms[..] == Scan(FromMatcher(matcher), old(ms[..]), ms.Length)
      ensures used == NewlySettled(old(ms[..]), ms[..])
    {
      used := 0;
      var unresolved := OpenColumns(ms);
      if unresolved != [] {
        used := RunTier2(ms, unresolved);
      } else {
        NothingOpen(FromMatcher(matcher), ms[..]);
      }
    }

    method ModelStage(ms: array<Mapping>, key: CacheKey, hit: bool) returns (used: nat, promotable: Option<Learned>)
      modifies ms, cache, `requests
      ensures ModelStageIs(Planned(Keyed(key)), hit, old(ms[..]), ms[..], used, promotable)
      ensures requests == old(requests) + Asked(Planned(Keyed(key)), hit, old(ms[..]))
      ensures cache.store == if promotable.Some? then old(cache.store)[key := promotable.value] else old(cache.store)
    {
      ghost var start := ms[..];
      used, promotable := 0, None;
      var unresolved := OpenColumns(ms);
      UnresolvedIsOpenHeaders(start, unresolved);
      NothingSettledYet(start);
      if unresolved != [] && adjudicator.Some? && !hit {
        used, promotable := RunTier3(ms, unresolved, key);
      }
    }

    /** Each stage only sees what the stage before it left open. */
    method Resolve(headers: seq<Header>, key: CacheKey) returns (out: Outcome)
      requires Distinct(headers)
      modifies this, cache
      ensures
        var run := Escalate(Planned(Keyed(key)), FirstTier(vocabulary, headers), old(cache.Entry(key)));
        && Reports(out, run) && out.degraded == !matcher.available
        && requests == old(requests) + Asked(Planned(Keyed(key)), run.cacheHit, run.afterLocal)
        && cache.store ==
             if run.promotable.Some? then old(cache.store)[key := run.promotable.value] else old(cache.store)
    {
      var tier1 := MapTable(vocabulary, headers);
      var ms := new Mapping[|tier1|](i requires 0 <= i < |tier1| => tier1[i]);
      assert ms[..] == tier1;
      var cached := None;
      if Keyed(key) {
        cached := cache.Get(key);
      }
      var hit := cached.Some? && cached.value != map[];
      if hit {
        ApplyCached(ms, cached.value);
      }
      ghost var ms1 := ms[..];
      var used2 := LocalStage(ms);
      ghost var ms2 := ms[..];
      var used3, promotable := ModelStage(ms, key, hit);
      out := Outcome(ms[..], used2, used3, hit, !matcher.available, promotable);
      StagesCompose(Planned(Keyed(key)), tier1, old(cache.Entry(key)), ms1, ms2, out);
    }
  }

  ghost predicate ModelStageIs(
    c: Call, hit: bool, start: seq<Mapping>, end: seq<Mapping>, used: nat, promotable: Option<Learned>)
  {
    var asked := OpenHeaders(start) != [] && c.ask.Some? && !hit;
    && end == (if asked then Scan(FromAnswers(Ladder.Answers(c, start)), start, |start|) else start)
    && used == NewlySettled(start, end)
    && promotable == (if asked && used > 0 && c.keyed then Some(LearnedFrom(end)) else None)
  }

  /** The requests the last stage sends: one, about what is open, or none. */
  function Asked(c: Call, hit: bool, ms: seq<Mapping>): seq<Request> {
    if OpenHeaders(ms) != [] && c.ask.Some? && !hit then [Request(OpenHeaders(ms), ResolvedFields(ms))] else []
  }

  /** A resolve sends a request exactly if a column is left open, there is an adjudicator
      and the cache did not count; it names exactly the open columns, in order, and what is
      settled. */
  lemma OneRequestAboutWhatIsOpen(c: Call, hit: bool, ms: seq<Mapping>, ix: seq<nat>)
    requires IsUnresolved(ms, ix)
    ensures var sent := Asked(c, hit, ms);
      && |sent| == (if ix != [] && c.ask.Some? && !hit then 1 else 0)
      && (sent != [] ==> AsksAbout(ms, ix, sent[0]))
  {
    TheRequestNamesWhatIsOpen(ms, ix);
  }

  /** What a caller of resolve is told about a run of the ladder. */
  ghost predicate Reports(out: Outcome, run: Run) {
    && out.mappings == run.mappings && out.cacheHit == run.cacheHit
    && |run.afterCache| == |run.afterLocal| && out.tier2Used == NewlySettled(run.afterCache, run.afterLocal)
    && out.tier3Used == run.tier3Used && out.promotable == run.promotable
  }

  lemma StagesCompose(
    c: Call, tier1: seq<Mapping>, entry: Option<Learned>, ms1: seq<Mapping>, ms2: seq<Mapping>, out: Outcome)
    requires out.cacheHit == (c.keyed && entry.Some? && entry.value != map[])
    requires ms1 == if out.cacheHit then Scan(FromCache(entry.value), tier1, |tier1|) else tier1
    requires ms2 == Scan(FromMatcher(c.matcher), ms1, |ms1|) && out.tier2Used == NewlySettled(ms1, ms2)
    requires ModelStageIs(c, out.cacheHit, ms2, out.mappings, out.tier3Used, out.promotable)
    ensures Reports(out, Escalate(c, tier1, entry)) && Escalate(c, tier1, entry).afterLocal == ms2
    ensures Escalate(c, tier1, entry).cacheHit == out.cacheHit
  {}

  predicate Keyed(key: CacheKey) {
    key.fingerprint != "" && key.client != ""
  }

  lemma {:induction false} NothingOpenBefore(p: Proposer, ms: seq<Mapping>, n: nat)
    requires n <= |ms| && forall i | 0 <= i < |ms| :: !IsOpen(ms[i])
    ensures Scan(p, ms, n) == ms
  {
    if n > 0 {
      NothingOpenBefore(p, ms, n - 1);
    }
  }

  lemma NothingOpen(p: Proposer, ms: seq<Mapping>)
    requires IsUnresolved(ms, [])
    ensures Scan(p, ms, |ms|) == ms && NewlySettled(ms, ms) == 0
  {
    NothingOpenBefore(p, ms, |ms|);
    NothingSettledYet(ms);
  }

  lemma UnresolvedIsOpenHeaders(ms: seq<Mapping>, ix: seq<nat>)
    requires IsUnresolved(ms, ix)
    ensures ix == [] <==> OpenHeaders(ms) == []
  {
    OpenHeadersAreOpen(ms);
    if ix != [] {
      assert IsOpen(ms[ix[0]]);
    }
  }

  // ---- what a resolved table satisfies ----

  /** For every vocabulary, scorer, cached entry and adjudicator: one mapping per header in
      header order, what the dictionary settled left alone, and no field held twice unless
      a client override put it somewhere. */
  lemma ResolvedTableIsSafe(v: Vocabulary, headers: seq<Header>, c: Call, cached: Option<Learned>)
    requires Distinct(headers)
    ensures var r := Escalate(c, FirstTier(v, headers), cached);
      && OnePerHeader(headers, r.mappings)
      && Keeps(FirstTier(v, headers), r.mappings)
      && Exclusive(r.mappings, OverrideTargets(v, headers))
  {
    Tier1IsSafe(v, headers);
    EveryStageIsSafe(c, FirstTier(v, headers), cached, OverrideTargets(v, headers));
  }

  /** The same table again, semantic matcher missing both times: free and alike, exactly
      when the adjudicator never answered with the empty string. */
  lemma SameLayoutAgain(v: Vocabulary, headers: seq<Header>, c: Call, again: Call, cached: Option<Learned>)
    requires Distinct(headers)
    requires c.keyed && again.keyed && c.ask.Some? && again.matcher == c.matcher && !c.matcher.available
    requires Escalate(c, FirstTier(v, headers), cached).tier3Used > 0
    ensures var first := Escalate(c, FirstTier(v, headers), cached);
      && first.promotable.Some?
      && var second := Escalate(again, FirstTier(v, headers), first.promotable);
         (!second.asked && SameVerdicts(first.mappings, second.mappings)) <==>
         !SomeBlankAnswer(first.afterLocal, Ladder.Answers(c, first.afterLocal))
  {
    Tier1IsSafe(v, headers);
    SecondFileCostsNothing(c, again, FirstTier(v, headers), cached);
  }
}
