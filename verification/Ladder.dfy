/** The escalation ladder for one table (python/src/inspector/mapping/resolver.py):
    what Tier 1 left open goes to the template cache, then to local matching, then to
    the adjudicator, whose answers are cached for the next file with the same layout. */
module Ladder {
  import opened Basics
  import opened Mappings
  import opened Scans
  import opened Tier2

  type Learned = map<Header, Field>

  datatype Answer = Answer(source: Header, field: Option<Field>, confidence: real)

  datatype Request = Request(unresolved: seq<Header>, resolved: map<Header, Field>)

  type Adjudicator = Request -> seq<Answer>

  /** Later answers for a header replace earlier ones. */
  function AsMap(answers: seq<Answer>): map<Header, Answer> {
    if answers == [] then map[]
    else
      var last := answers[|answers| - 1];
      AsMap(answers[..|answers| - 1])[last.source := last]
  }

  // ---- the three stages ----

  function FromCache(learned: Learned): Proposer {
    (h: Header, taken: set<Field>) =>
      if h in learned && learned[h] != "" && learned[h] !in taken then Some(Proposal(learned[h], LLM, 0.80)) else None
  }

  function FromMatcher(m: Matcher): Proposer {
    (h: Header, taken: set<Field>) =>
      var x := m.Match(h, taken);
      if x.field.Some? then Some(Proposal(x.field.value, LOCAL, x.confidence)) else None
  }

  function FromAnswers(answers: map<Header, Answer>): Proposer {
    (h: Header, taken: set<Field>) =>
      if h in answers && answers[h].field.Some? && answers[h].field.value !in taken
      then Some(Proposal(answers[h].field.value, LLM, answers[h].confidence))
      else None
  }

  lemma CacheIsFresh(learned: Learned)
    ensures Fresh(FromCache(learned), LLM)
  {
    forall h, taken ensures FreshAt(FromCache(learned), LLM, h, taken) {}
  }

  lemma AnswersAreFresh(answers: map<Header, Answer>)
    ensures Fresh(FromAnswers(answers), LLM)
  {
    forall h, taken ensures FreshAt(FromAnswers(answers), LLM, h, taken) {}
  }

  lemma MatcherIsFresh(m: Matcher)
    ensures Fresh(FromMatcher(m), LOCAL)
  {
    forall h, taken ensures FreshAt(FromMatcher(m), LOCAL, h, taken) {
      m.MatchIsFreshAndBounded(h, taken);
    }
  }

  lemma MatcherIsStable(m: Matcher)
    requires !m.available
    ensures Stable(FromMatcher(m))
  {
    forall h, taken, more ensures StableAt(FromMatcher(m), h, taken, more) {
      if m.Match(h, taken).field.Some? ==> m.Match(h, taken).field.value !in more {
        m.MatchIsStable(h, taken, more);
      }
    }
  }

  // ---- the whole ladder ----

  function OpenHeaders(ms: seq<Mapping>): seq<Header> {
    if ms == [] then []
    else
      var last := ms[|ms| - 1];
      OpenHeaders(ms[..|ms| - 1]) + if IsOpen(last) then [last.source] else []
  }

  function ResolvedFields(ms: seq<Mapping>): map<Header, Field> {
    if ms == [] then map[]
    else
      var last := ms[|ms| - 1];
      var rest := ResolvedFields(ms[..|ms| - 1]);
      if last.canonical.Some? then rest[last.source := last.canonical.value] else rest
  }

  predicate FromModel(m: Mapping) {
    m.tier == LLM && Holds(m)
  }

  /** What the cache stores: the columns a model settled on a real field. */
  function LearnedFrom(ms: seq<Mapping>): Learned {
    if ms == [] then map[]
    else
      var last := ms[|ms| - 1];
      var rest := LearnedFrom(ms[..|ms| - 1]);
      if FromModel(last) then rest[last.source := last.canonical.value] else rest
  }

  function NewlySettled(before: seq<Mapping>, after: seq<Mapping>): nat
    requires |before| == |after|
  {
    if before == [] then 0
    else
      var n := |before| - 1;
      NewlySettled(before[..n], after[..n]) + if IsOpen(before[n]) && !IsOpen(after[n]) then 1 else 0
  }

  /** `keyed`: the call carried both a template fingerprint and a client id. */
  datatype Call = Call(matcher: Matcher, ask: Option<Adjudicator>, keyed: bool)

  datatype Run = Run(
    cacheHit: bool, afterCache: seq<Mapping>, afterLocal: seq<Mapping>, asked: bool, mappings: seq<Mapping>,
    tier3Used: nat, promotable: Option<Learned>)

  function Escalate(c: Call, tier1: seq<Mapping>, cached: Option<Learned>): Run {
    var hit := c.keyed && cached.Some? && cached.value != map[];
    var ms1 := if hit then Scan(FromCache(cached.value), tier1, |tier1|) else tier1;
    var ms2 := Scan(FromMatcher(c.matcher), ms1, |ms1|);
    var asked := OpenHeaders(ms2) != [] && c.ask.Some? && !hit;
    var ms3 := if asked then Scan(FromAnswers(Answers(c, ms2)), ms2, |ms2|) else ms2;
    var used := NewlySettled(ms2, ms3);
    Run(hit, ms1, ms2, asked, ms3, used, if asked && used > 0 && c.keyed then Some(LearnedFrom(ms3)) else None)
  }

  /** What the adjudicator says when asked about what is open in `ms`. */
  function Answers(c: Call, ms: seq<Mapping>): map<Header, Answer>
    requires c.ask.Some?
  {
    AsMap(c.ask.value(Request(OpenHeaders(ms), ResolvedFields(ms))))
  }

  // ---- what the adjudicator is asked ----

  /** `ix` lists the open columns in order. */
  ghost predicate IsUnresolved(ms: seq<Mapping>, ix: seq<nat>) {
    && (forall j | 0 <= j < |ix| :: ix[j] < |ms| && IsOpen(ms[ix[j]]))
    && (forall j, k | 0 <= j < k < |ix| :: ix[j] < ix[k])
    && (forall i: nat | i < |ms| && IsOpen(ms[i]) :: i in ix)
  }

  /** The headers are those of the columns `ix`, in their order. */
  ghost predicate Names(ms: seq<Mapping>, ix: seq<nat>, headers: seq<Header>) {
    |headers| == |ix| && forall j | 0 <= j < |ix| :: ix[j] < |ms| && headers[j] == ms[ix[j]].source
  }

  /** The last column under header `h` that is settled on anything is settled on `f`. */
  ghost predicate SettledOn(ms: seq<Mapping>, h: Header, f: Field) {
    exists i :: SettledAt(ms, i, h, f) && forall j | i < j < |ms| && ms[j].source == h :: IsOpen(ms[j])
  }

  ghost predicate SettledAt(ms: seq<Mapping>, i: int, h: Header, f: Field) {
    0 <= i < |ms| && ms[i].source == h && ms[i].canonical == Some(f)
  }

  /** The request names the open columns, and what is settled. */
  ghost predicate AsksAbout(ms: seq<Mapping>, ix: seq<nat>, r: Request) {
    && IsUnresolved(ms, ix) && Names(ms, ix, r.unresolved)
    && forall h, f :: (h in r.resolved && r.resolved[h] == f) <==> SettledOn(ms, h, f)
  }

  function OpenIndices(ms: seq<Mapping>): seq<nat> {
    if ms == [] then []
    else OpenIndices(ms[..|ms| - 1]) + if IsOpen(ms[|ms| - 1]) then [|ms| - 1] else []
  }

  lemma {:induction false} OpenIndicesAreOpen(ms: seq<Mapping>)
    ensures IsUnresolved(ms, OpenIndices(ms)) && Names(ms, OpenIndices(ms), OpenHeaders(ms))
  {
    if ms != [] {
      var n := |ms| - 1;
      OpenIndicesAreOpen(ms[..n]);
      assert ms == ms[..n] + [ms[n]];
      if IsOpen(ms[n]) {
        OneMoreOpen(ms[..n], OpenIndices(ms[..n]), OpenHeaders(ms[..n]), ms[n]);
      } else {
        OneMoreSettled(ms[..n], OpenIndices(ms[..n]), OpenHeaders(ms[..n]), ms[n]);
      }
    }
  }

  lemma OneMoreOpen(ms: seq<Mapping>, ix: seq<nat>, hs: seq<Header>, m: Mapping)
    requires IsUnresolved(ms, ix) && Names(ms, ix, hs) && IsOpen(m)
    ensures IsUnresolved(ms + [m], ix + [|ms|]) && Names(ms + [m], ix + [|ms|], hs + [m.source])
  {
    var all, jx := ms + [m], ix + [|ms|];
    forall i: nat | i < |all| && IsOpen(all[i]) ensures i in jx {
      if i < |ms| {
        assert i in ix;
      } else {
        assert jx[|ix|] == i;
      }
    }
  }

  lemma OneMoreSettled(ms: seq<Mapping>, ix: seq<nat>, hs: seq<Header>, m: Mapping)
    requires IsUnresolved(ms, ix) && Names(ms, ix, hs) && !IsOpen(m)
    ensures IsUnresolved(ms + [m], ix + []) && Names(ms + [m], ix + [], hs + [])
  {
    assert ix + [] == ix && hs + [] == hs;
  }

  ghost predicate Rises(ix: seq<nat>) {
    forall j, k | 0 <= j < k < |ix| :: ix[j] < ix[k]
  }

  lemma LastIsGreatest(ix: seq<nat>, i: nat)
    requires Rises(ix) && i in ix
    ensures i <= ix[|ix| - 1]
  {}

  lemma FirstIsAMember(ix: seq<nat>)
    ensures ix != [] ==> ix[0] in ix
  {}

  /** An ascending list is determined by its members. */
  lemma {:induction false} RisingIsUnique(ix: seq<nat>, jx: seq<nat>)
    requires Rises(ix) && Rises(jx) && forall i :: i in ix <==> i in jx
    ensures ix == jx
    decreases |ix|
  {
    if ix == [] {
      FirstIsAMember(jx);
    } else {
      var m, n := |ix| - 1, |jx| - 1;
      assert ix[m] in ix && ix[m] in jx;
      assert jx[n] in jx;
      LastIsGreatest(ix, jx[n]);
      LastIsGreatest(jx, ix[m]);
      assert ix == ix[..m] + [ix[m]] && jx == jx[..n] + [jx[n]];
      forall i ensures i in ix[..m] <==> i in jx[..n] {
        assert i in ix[..m] ==> i in ix && i < ix[m];
        assert i in jx[..n] ==> i in jx && i < jx[n];
      }
      RisingIsUnique(ix[..m], jx[..n]);
    }
  }

  lemma OpenHeadersAreNamed(ms: seq<Mapping>, ix: seq<nat>)
    requires IsUnresolved(ms, ix)
    ensures Names(ms, ix, OpenHeaders(ms))
  {
    var jx := OpenIndices(ms);
    OpenIndicesAreOpen(ms);
    forall i ensures i in ix <==> i in jx {
      OpenMember(ms, ix, i);
      OpenMember(ms, jx, i);
    }
    RisingIsUnique(ix, jx);
  }

  lemma OpenMember(ms: seq<Mapping>, ix: seq<nat>, i: nat)
    requires IsUnresolved(ms, ix)
    ensures i in ix <==> i < |ms| && IsOpen(ms[i])
  {}

  lemma {:induction false} ResolvedIsSettled(ms: seq<Mapping>, h: Header, f: Field)
    ensures (h in ResolvedFields(ms) && ResolvedFields(ms)[h] == f) <==> SettledOn(ms, h, f)
  {
    if ms != [] {
      var n := |ms| - 1;
      var init := ms[..n];
      ResolvedIsSettled(init, h, f);
      if ms[n].source == h && ms[n].canonical.Some? {
        assert SettledAt(ms, n, h, ms[n].canonical.value);
      } else {
        SettledBefore(ms, h, f);
      }
    }
  }

  lemma SettledBefore(ms: seq<Mapping>, h: Header, f: Field)
    requires ms != [] && !(ms[|ms| - 1].source == h && ms[|ms| - 1].canonical.Some?)
    ensures SettledOn(ms[..|ms| - 1], h, f) <==> SettledOn(ms, h, f)
  {
    var n := |ms| - 1;
    var init := ms[..n];
    if SettledOn(init, h, f) {
      var i :| SettledAt(init, i, h, f) && forall j | i < j < n && init[j].source == h :: IsOpen(init[j]);
      assert SettledAt(ms, i, h, f);
      assert forall j | i < j < n :: ms[j] == init[j];
    }
    if SettledOn(ms, h, f) {
      var i :| SettledAt(ms, i, h, f) && forall j | i < j < |ms| && ms[j].source == h :: IsOpen(ms[j]);
      assert SettledAt(init, i, h, f);
      assert forall j | i < j < n :: ms[j] == init[j];
    }
  }

  /** What the ladder asks: exactly the headers of the open columns in column order, and
      for each header what its column is settled on. */
  lemma TheRequestNamesWhatIsOpen(ms: seq<Mapping>, ix: seq<nat>)
    requires IsUnresolved(ms, ix)
    ensures AsksAbout(ms, ix, Request(OpenHeaders(ms), ResolvedFields(ms)))
  {
    OpenHeadersAreNamed(ms, ix);
    forall h, f
      ensures (h in ResolvedFields(ms) && ResolvedFields(ms)[h] == f) <==> SettledOn(ms, h, f)
    {
      ResolvedIsSettled(ms, h, f);
    }
  }

  /** For every scorer, embedding model, cached entry and adjudicator: columns keep
      their place, no settled column is reopened at any later stage, and no field is
      given to a second column. */
  lemma EveryStageIsSafe(c: Call, tier1: seq<Mapping>, cached: Option<Learned>, exempt: set<Field>)
    ensures var r := Escalate(c, tier1, cached);
      && Keeps(tier1, r.afterCache) && Keeps(r.afterCache, r.afterLocal) && Keeps(r.afterLocal, r.mappings)
      && Keeps(tier1, r.mappings)
      && (Exclusive(tier1, exempt) ==> Exclusive(r.mappings, exempt))
  {
    var r := Escalate(c, tier1, cached);
    if r.cacheHit {
      CacheIsFresh(cached.value);
      ScanIsSafe(FromCache(cached.value), LLM, tier1, exempt);
    }
    MatcherIsFresh(c.matcher);
    ScanIsSafe(FromMatcher(c.matcher), LOCAL, r.afterCache, exempt);
    if r.asked {
      AnswersAreFresh(Answers(c, r.afterLocal));
      ScanIsSafe(FromAnswers(Answers(c, r.afterLocal)), LLM, r.afterLocal, exempt);
    }
    KeepsChains(tier1, r.afterCache, r.afterLocal);
    KeepsChains(tier1, r.afterLocal, r.mappings);
  }

  // ---- what each stage decides, column by column ----

  /** The remembered field, if it is a real one and nobody claims it by then. */
  ghost predicate CacheDecides(learned: Learned, ms: seq<Mapping>, end: seq<Mapping>) {
    && |end| == |ms|
    && forall i | 0 <= i < |ms| :: CacheDecidesAt(learned, ms, end, i)
  }

  ghost predicate CacheDecidesAt(learned: Learned, ms: seq<Mapping>, end: seq<Mapping>, i: nat)
    requires i < |ms| == |end|
  {
    var h := ms[i].source;
    if ms[i].canonical.None? && h in learned && learned[h] != "" && learned[h] !in ClaimsAt(ms, end, i)
    then end[i] == Mapping(h, Some(learned[h]), LLM, 0.80)
    else end[i] == ms[i]
  }

  /** The local match, given what is claimed by then. */
  ghost predicate LocalDecides(m: Matcher, ms: seq<Mapping>, end: seq<Mapping>) {
    && |end| == |ms|
    && forall i | 0 <= i < |ms| :: LocalDecidesAt(m, ms, end, i)
  }

  ghost predicate LocalDecidesAt(m: Matcher, ms: seq<Mapping>, end: seq<Mapping>, i: nat)
    requires i < |ms| == |end|
  {
    var x := m.Match(ms[i].source, ClaimsAt(ms, end, i));
    if ms[i].canonical.None? && x.field.Some?
    then end[i] == Mapping(ms[i].source, x.field, LOCAL, x.confidence)
    else end[i] == ms[i]
  }

  /** The last answer for the header, if it names a field nobody claims by then. */
  ghost predicate AnswersDecide(answers: seq<Answer>, ms: seq<Mapping>, end: seq<Mapping>) {
    && |end| == |ms|
    && forall i | 0 <= i < |ms| :: AnswersDecideAt(answers, ms, end, i)
  }

  ghost predicate AnswersDecideAt(answers: seq<Answer>, ms: seq<Mapping>, end: seq<Mapping>, i: nat)
    requires i < |ms| == |end|
  {
    if ms[i].canonical.None? && exists j :: Proposes(answers, j, ms[i].source, ClaimsAt(ms, end, i))
    then exists j :: Proposes(answers, j, ms[i].source, ClaimsAt(ms, end, i)) && SettledBy(answers[j], ms[i], end[i])
    else end[i] == ms[i]
  }

  predicate SettledBy(a: Answer, before: Mapping, after: Mapping) {
    after == Mapping(before.source, a.field, LLM, a.confidence)
  }

  ghost predicate Proposes(answers: seq<Answer>, j: int, h: Header, taken: set<Field>) {
    && IsLastFor(answers, j, h)
    && answers[j].field.Some? && answers[j].field.value !in taken
  }

  ghost predicate IsLastFor(answers: seq<Answer>, j: int, h: Header) {
    0 <= j < |answers| && answers[j].source == h && forall k | j < k < |answers| :: answers[k].source != h
  }

  lemma {:induction false} AsMapIsLast(answers: seq<Answer>, h: Header)
    ensures h in AsMap(answers) <==> exists j :: IsLastFor(answers, j, h)
    ensures forall j | IsLastFor(answers, j, h) :: AsMap(answers)[h] == answers[j]
  {
    if answers != [] {
      var n := |answers| - 1;
      var init := answers[..n];
      AsMapIsLast(init, h);
      if answers[n].source == h {
        assert IsLastFor(answers, n, h);
      } else {
        forall j ensures IsLastFor(answers, j, h) <==> IsLastFor(init, j, h) {}
      }
    }
  }

  lemma CacheStageDecides(learned: Learned, ms: seq<Mapping>)
    ensures CacheDecides(learned, ms, Scan(FromCache(learned), ms, |ms|))
  {
    CacheIsFresh(learned);
    forall i: nat | i < |ms| ensures CacheDecidesAt(learned, ms, Scan(FromCache(learned), ms, |ms|), i) {
      ScanDecides(FromCache(learned), LLM, ms, i);
    }
  }

  lemma LocalStageDecides(m: Matcher, ms: seq<Mapping>)
    ensures LocalDecides(m, ms, Scan(FromMatcher(m), ms, |ms|))
  {
    MatcherIsFresh(m);
    forall i: nat | i < |ms| ensures LocalDecidesAt(m, ms, Scan(FromMatcher(m), ms, |ms|), i) {
      ScanDecides(FromMatcher(m), LOCAL, ms, i);
    }
  }

  lemma AnswerStageDecides(answers: seq<Answer>, ms: seq<Mapping>)
    ensures AnswersDecide(answers, ms, Scan(FromAnswers(AsMap(answers)), ms, |ms|))
  {
    var p := FromAnswers(AsMap(answers));
    AnswersAreFresh(AsMap(answers));
    var end := Scan(p, ms, |ms|);
    forall i: nat | i < |ms| ensures AnswersDecideAt(answers, ms, end, i) {
      ScanDecides(p, LLM, ms, i);
      var h, taken := ms[i].source, ClaimsAt(ms, end, i);
      LastAnswerProposes(answers, h, taken);
      ProposalDecides(answers, ms, end, i, taken, p(h, taken));
    }
  }

  lemma ProposalDecides(
    answers: seq<Answer>, ms: seq<Mapping>, end: seq<Mapping>, i: nat, taken: set<Field>, x: Option<Proposal>)
    requires i < |ms| == |end| && taken == ClaimsAt(ms, end, i)
    requires end[i] ==
      if ms[i].canonical.Some? || x.None? then ms[i]
      else Mapping(ms[i].source, Some(x.value.field), x.value.tier, x.value.confidence)
    requires IsLastProposal(answers, ms[i].source, taken, x)
    ensures AnswersDecideAt(answers, ms, end, i)
  {}

  /** `x` is what the last answer for the header proposes. */
  ghost predicate IsLastProposal(answers: seq<Answer>, h: Header, taken: set<Field>, x: Option<Proposal>) {
    if x.None? then forall j :: !Proposes(answers, j, h, taken)
    else exists j :: Proposes(answers, j, h, taken) && IsProposal(answers[j], x.value)
  }

  predicate IsProposal(a: Answer, x: Proposal) {
    a.field == Some(x.field) && a.confidence == x.confidence && x.tier == LLM
  }

  lemma LastAnswerProposes(answers: seq<Answer>, h: Header, taken: set<Field>)
    ensures IsLastProposal(answers, h, taken, FromAnswers(AsMap(answers))(h, taken))
  {
    AsMapIsLast(answers, h);
    if h in AsMap(answers) {
      var j :| IsLastFor(answers, j, h);
      assert Proposes(answers, j, h, taken) <==> FromAnswers(AsMap(answers))(h, taken).Some?;
    }
  }

  lemma {:induction false} SettledIsCounted(before: seq<Mapping>, after: seq<Mapping>)
    requires Keeps(before, after)
    ensures NewlySettled(before, after) == |OpenHeaders(before)| - |OpenHeaders(after)|
  {
    if before != [] {
      var n := |before| - 1;
      SettledIsCounted(before[..n], after[..n]);
    }
  }

  /** The whole ladder: the cache counts only if the call is keyed and the entry is not
      empty; the adjudicator is asked, once and about exactly what is open, if something is
      left open and the cache did not count; each stage decides column by column what the
      ones before it left open, and the columns it settled are counted. */
  lemma EveryStageDecides(c: Call, tier1: seq<Mapping>, cached: Option<Learned>, ix: seq<nat>)
    requires IsUnresolved(Escalate(c, tier1, cached).afterLocal, ix)
    ensures var r := Escalate(c, tier1, cached);
      && (r.cacheHit <==> c.keyed && cached.Some? && cached.value != map[])
      && (if r.cacheHit then CacheDecides(cached.value, tier1, r.afterCache) else r.afterCache == tier1)
      && LocalDecides(c.matcher, r.afterCache, r.afterLocal)
      && Keeps(r.afterCache, r.afterLocal)
      && NewlySettled(r.afterCache, r.afterLocal) == |OpenHeaders(r.afterCache)| - |ix|
      && (r.asked <==> ix != [] && c.ask.Some? && !r.cacheHit)
      && (if r.asked then ModelDecides(c, r.afterLocal, ix, r.mappings) else r.mappings == r.afterLocal)
      && r.tier3Used == |ix| - |OpenHeaders(r.mappings)|
      && (r.promotable.Some? <==> r.asked && r.tier3Used > 0 && c.keyed)
  {
    var r := Escalate(c, tier1, cached);
    EveryStageIsSafe(c, tier1, cached, {});
    OpenHeadersAreNamed(r.afterLocal, ix);
    SettledIsCounted(r.afterCache, r.afterLocal);
    SettledIsCounted(r.afterLocal, r.mappings);
    if r.cacheHit {
      CacheStageDecides(cached.value, tier1);
    }
    LocalStageDecides(c.matcher, r.afterCache);
    if r.asked {
      var request := Request(OpenHeaders(r.afterLocal), ResolvedFields(r.afterLocal));
      TheRequestNamesWhatIsOpen(r.afterLocal, ix);
      AnswerStageDecides(c.ask.value(request), r.afterLocal);
    }
  }

  /** The adjudicator's answers to a request about what is open. */
  ghost predicate ModelDecides(c: Call, ms: seq<Mapping>, ix: seq<nat>, end: seq<Mapping>) {
    c.ask.Some? && exists r :: AsksAbout(ms, ix, r) && AnswersDecide(c.ask.value(r), ms, end)
  }

  // ---- the second file with the same layout ----

  ghost predicate DistinctSources(ms: seq<Mapping>) {
    forall i, j | 0 <= i < j < |ms| :: ms[i].source != ms[j].source
  }

  /** The same field from the same tier in every column; confidences may differ. */
  ghost predicate SameVerdicts(a: seq<Mapping>, b: seq<Mapping>) {
    |a| == |b| && forall i | 0 <= i < |a| :: a[i].canonical == b[i].canonical && a[i].tier == b[i].tier
  }

  /** The adjudicator answered some column it was asked about with the empty string. */
  ghost predicate SomeBlankAnswer(ms: seq<Mapping>, answers: map<Header, Answer>) {
    exists i :: 0 <= i < |ms| && BlankAt(ms[i], answers)
  }

  ghost predicate BlankAt(m: Mapping, answers: map<Header, Answer>) {
    IsOpen(m) && m.source in answers && answers[m.source].field == Some("")
  }

  lemma {:induction false} LearnedHolds(ms: seq<Mapping>)
    requires DistinctSources(ms)
    ensures forall h :: h in LearnedFrom(ms) <==> exists i :: 0 <= i < |ms| && ms[i].source == h && FromModel(ms[i])
    ensures forall i | 0 <= i < |ms| && FromModel(ms[i]) ::
      ms[i].source in LearnedFrom(ms) && LearnedFrom(ms)[ms[i].source] == ms[i].canonical.value
  {
    if ms != [] {
      var n := |ms| - 1;
      var init := ms[..n];
      LearnedHolds(init);
      forall h ensures h in LearnedFrom(ms) <==> exists i :: 0 <= i < |ms| && ms[i].source == h && FromModel(ms[i]) {
        if i :| 0 <= i < |init| && init[i].source == h && FromModel(init[i]) {
          assert ms[i] == init[i];
        }
      }
      forall i | 0 <= i < |ms| && FromModel(ms[i])
        ensures ms[i].source in LearnedFrom(ms) && LearnedFrom(ms)[ms[i].source] == ms[i].canonical.value
      {
        assert i < n ==> init[i] == ms[i] && ms[i].source != ms[n].source;
      }
    }
  }

  /** `full` is `local` plus model answers, each on an open column, each a field that
      no other column holds. */
  ghost predicate ModelLayer(local: seq<Mapping>, full: seq<Mapping>) {
    && |full| == |local|
    && (forall i | 0 <= i < |full| :: full[i].source == local[i].source)
    && (forall i | 0 <= i < |full| && FromModel(full[i]) ::
          IsOpen(local[i]) && full[i].canonical.value !in Claimed(local))
    && (forall i, j | 0 <= i < j < |full| && FromModel(full[i]) && FromModel(full[j]) ::
          full[i].canonical != full[j].canonical)
  }

  function Marks(full: seq<Mapping>): (r: seq<bool>)
    ensures |r| == |full| && forall i | 0 <= i < |r| :: r[i] == FromModel(full[i])
  {
    seq(|full|, i requires 0 <= i < |full| => FromModel(full[i]))
  }

  function ModelFields(full: seq<Mapping>, n: nat): set<Field>
    requires n <= |full|
  {
    if n == 0 then {}
    else ModelFields(full, n - 1) + if FromModel(full[n - 1]) then {full[n - 1].canonical.value} else {}
  }

  lemma {:induction false} ModelFieldsAreNew(local: seq<Mapping>, full: seq<Mapping>, n: nat)
    requires n <= |full| && ModelLayer(local, full)
    ensures ModelFields(full, n) !! Claimed(local) && "" !in ModelFields(full, n)
    ensures forall j | n <= j < |full| && FromModel(full[j]) :: full[j].canonical.value !in ModelFields(full, n)
  {
    if n > 0 {
      ModelFieldsAreNew(local, full, n - 1);
    }
  }

  lemma AnswersLayer(answers: map<Header, Answer>, local: seq<Mapping>)
    requires NoModelTier(local)
    ensures ModelLayer(local, Scan(FromAnswers(answers), local, |local|))
  {
    var full := Scan(FromAnswers(answers), local, |local|);
    AnswersAreFresh(answers);
    ScanIsSafe(FromAnswers(answers), LLM, local, {});
    forall i | 0 <= i < |full| && FromModel(full[i])
      ensures IsOpen(local[i]) && full[i].canonical.value !in Claimed(local)
      ensures forall j | 0 <= j < i :: full[j].canonical != full[i].canonical
    {
      ChangedColumn(FromAnswers(answers), LLM, local, i);
    }
  }

  /** Where the answers went: a column differs from `local` exactly when it was answered
      with a real field, or with the empty string. */
  lemma AnsweredColumn(answers: map<Header, Answer>, local: seq<Mapping>, i: nat)
    requires NoModelTier(local) && i < |local|
    ensures AnswerLanded(local[i], Scan(FromAnswers(answers), local, |local|)[i], answers)
  {
    var taken := Claimed(Scan(FromAnswers(answers), local, i));
    AnswersAreFresh(answers);
    ScanAt(FromAnswers(answers), LLM, local, i);
    NeverClaimsBlank(Scan(FromAnswers(answers), local, i));
  }

  ghost predicate AnswerLanded(before: Mapping, after: Mapping, answers: map<Header, Answer>) {
    if BlankAt(before, answers) then after.canonical == Some("") && after.tier == LLM
    else FromModel(after) || after == before
  }

  lemma NeverClaimsBlank(ms: seq<Mapping>)
    ensures "" !in Claimed(ms)
  {
    ClaimedIsHeld(ms, "");
  }

  // ---- replaying the cache ----

  /** The columns a model settled, and nothing else, are in `learned`. */
  ghost predicate Remembers(learned: Learned, full: seq<Mapping>) {
    && (forall i | 0 <= i < |full| :: full[i].source in learned <==> FromModel(full[i]))
    && (forall i | 0 <= i < |full| && FromModel(full[i]) :: learned[full[i].source] == full[i].canonical.value)
  }

  lemma LearnedRemembers(full: seq<Mapping>)
    requires DistinctSources(full)
    ensures Remembers(LearnedFrom(full), full)
  {
    LearnedHolds(full);
  }

  function Replayed(m: Mapping, f: Mapping): Mapping {
    if FromModel(f) then Mapping(m.source, f.canonical, LLM, 0.80) else m
  }

  /** One column of the cache stage. */
  lemma CacheStepReplays(learned: Learned, b: seq<Mapping>, full: seq<Mapping>, i: nat)
    requires i < |b| == |full| && Remembers(learned, full) && b[i].source == full[i].source
    requires FromModel(full[i]) ==> IsOpen(b[i]) && full[i].canonical.value !in Claimed(b)
    ensures var c := Step(FromCache(learned), b, i);
      && c == b[i := Replayed(b[i], full[i])]
      && Claimed(c) == Claimed(b) + if FromModel(full[i]) then {full[i].canonical.value} else {}
  {
    if FromModel(full[i]) {
      ClaimedAfterSettling(b, i, full[i].canonical.value, LLM, 0.80);
    }
  }

  ghost predicate CacheRan(tier1: seq<Mapping>, full: seq<Mapping>, b: seq<Mapping>, k: nat) {
    && |b| == |tier1| == |full| && k <= |full|
    && (forall i | 0 <= i < |tier1| :: b[i] == if i < k then Replayed(tier1[i], full[i]) else tier1[i])
    && Claimed(b) == Claimed(tier1) + ModelFields(full, k)
  }

  lemma CacheRunsOn(
    learned: Learned, tier1: seq<Mapping>, local: seq<Mapping>, full: seq<Mapping>, b: seq<Mapping>, k: nat)
    requires CacheRan(tier1, full, b, k) && k < |tier1| && Remembers(learned, full)
    requires Keeps(tier1, local) && ModelLayer(local, full) && Claimed(tier1) <= Claimed(local)
    ensures CacheRan(tier1, full, Step(FromCache(learned), b, k), k + 1)
  {
    ModelFieldsAreNew(local, full, k);
    CacheStepReplays(learned, b, full, k);
  }

  lemma {:induction false} CacheReplays(
    learned: Learned, tier1: seq<Mapping>, local: seq<Mapping>, full: seq<Mapping>, k: nat)
    requires k <= |tier1| && Remembers(learned, full)
    requires Keeps(tier1, local) && ModelLayer(local, full) && Claimed(tier1) <= Claimed(local)
    ensures CacheRan(tier1, full, Scan(FromCache(learned), tier1, k), k)
  {
    if k > 0 {
      CacheReplays(learned, tier1, local, full, k - 1);
      CacheRunsOn(learned, tier1, local, full, Scan(FromCache(learned), tier1, k - 1), k - 1);
    }
  }

  /** What the cache leaves is in step with what Tier 1 left. */
  lemma CacheIsInStep(tier1: seq<Mapping>, full: seq<Mapping>, replayed: seq<Mapping>)
    requires CacheRan(tier1, full, replayed, |tier1|)
    ensures InStep(tier1, replayed, replayed, Marks(full), ModelFields(full, |full|))
    ensures SettledWhereMarked(replayed, Marks(full))
  {}

  lemma RoomForTheModel(p: Proposer, tier1: seq<Mapping>, local: seq<Mapping>, full: seq<Mapping>)
    requires Fresh(p, LOCAL) && local == Scan(p, tier1, |tier1|) && ModelLayer(local, full)
    ensures forall k: nat | k < |tier1| :: LeavesRoom(p, tier1, Marks(full), ModelFields(full, |full|), k)
  {
    ModelFieldsAreNew(local, full, |full|);
    forall k: nat | k < |tier1| ensures LeavesRoom(p, tier1, Marks(full), ModelFields(full, |full|), k) {
      LeftRoom(p, LOCAL, tier1, local, Marks(full), ModelFields(full, |full|), k);
    }
  }

  /** Column `i` of the second resolve, given that both passes ran in step. */
  ghost predicate Repeats(tier1: seq<Mapping>, local: seq<Mapping>, full: seq<Mapping>, second: seq<Mapping>) {
    && |tier1| == |local| == |full| == |second|
    && forall i | 0 <= i < |tier1| ::
         second[i] == if FromModel(full[i]) then Replayed(tier1[i], full[i]) else local[i]
  }

  lemma InStepRepeats(
    tier1: seq<Mapping>, local: seq<Mapping>, full: seq<Mapping>, replayed: seq<Mapping>, second: seq<Mapping>,
    extra: set<Field>)
    requires CacheRan(tier1, full, replayed, |tier1|) && InStep(local, second, replayed, Marks(full), extra)
    ensures Repeats(tier1, local, full, second)
  {}

  /** The second resolve up to and including local matching, for any stable matcher. */
  lemma SecondPass(
    p: Proposer, tier1: seq<Mapping>, local: seq<Mapping>, full: seq<Mapping>, learned: Learned,
    replayed: seq<Mapping>, second: seq<Mapping>)
    requires Fresh(p, LOCAL) && Stable(p) && Remembers(learned, full)
    requires local == Scan(p, tier1, |tier1|) && ModelLayer(local, full)
    requires replayed == Scan(FromCache(learned), tier1, |tier1|) && second == Scan(p, replayed, |tier1|)
    ensures Repeats(tier1, local, full, second)
  {
    var marks, extra := Marks(full), ModelFields(full, |full|);
    ScanIsSafe(p, LOCAL, tier1, {});
    CacheReplays(learned, tier1, local, full, |tier1|);
    CacheIsInStep(tier1, full, replayed);
    ModelFieldsAreNew(local, full, |full|);
    RoomForTheModel(p, tier1, local, full);
    ScanReplays(p, LOCAL, tier1, replayed, marks, extra, |tier1|);
    InStepRepeats(tier1, local, full, replayed, second, extra);
  }

  lemma LocalTiersOnly(m: Matcher, tier1: seq<Mapping>)
    requires NoModelTier(tier1)
    ensures NoModelTier(Scan(FromMatcher(m), tier1, |tier1|))
  {
    MatcherIsFresh(m);
    forall i | 0 <= i < |tier1| ensures Scan(FromMatcher(m), tier1, |tier1|)[i].tier != LLM {
      ChangedColumn(FromMatcher(m), LOCAL, tier1, i);
    }
  }

  lemma {:induction false} SomethingWasSettled(before: seq<Mapping>, after: seq<Mapping>)
    requires |before| == |after|
    ensures NewlySettled(before, after) > 0 <==> exists i :: 0 <= i < |before| && IsOpen(before[i]) && !IsOpen(after[i])
  {
    if before != [] {
      var n := |before| - 1;
      SomethingWasSettled(before[..n], after[..n]);
      if i :| 0 <= i < n && IsOpen(before[..n][i]) && !IsOpen(after[..n][i]) {
        assert IsOpen(before[i]) && !IsOpen(after[i]);
      }
    }
  }

  lemma {:induction false} OpenHeadersAreOpen(ms: seq<Mapping>)
    ensures OpenHeaders(ms) != [] <==> exists i :: 0 <= i < |ms| && IsOpen(ms[i])
  {
    if ms != [] {
      var n := |ms| - 1;
      OpenHeadersAreOpen(ms[..n]);
      if i :| 0 <= i < n && IsOpen(ms[..n][i]) {
        assert IsOpen(ms[i]);
      }
    }
  }

  /** With the semantic matcher missing, a table whose first resolve settled a column
      through the adjudicator, resolved again with what that cached: no adjudication
      call and the same field and tier in every column, exactly when no column was
      answered with the empty string. */
  lemma SecondFileCostsNothing(c: Call, again: Call, tier1: seq<Mapping>, cached: Option<Learned>)
    requires NoModelTier(tier1) && DistinctSources(tier1)
    requires c.keyed && c.ask.Some? && !c.matcher.available
    requires again.keyed && again.matcher == c.matcher
    requires Escalate(c, tier1, cached).tier3Used > 0
    ensures var first := Escalate(c, tier1, cached);
      && first.promotable.Some?
      && var second := Escalate(again, tier1, first.promotable);
         (!second.asked && SameVerdicts(first.mappings, second.mappings)) <==>
         !SomeBlankAnswer(first.afterLocal, Answers(c, first.afterLocal))
  {
    var first := Escalate(c, tier1, cached);
    var local, full := first.afterLocal, first.mappings;
    var answers := Answers(c, local);
    SomethingWasSettled(local, full);
    MatcherIsFresh(c.matcher);
    ScanIsSafe(FromMatcher(c.matcher), LOCAL, tier1, {});
    LocalTiersOnly(c.matcher, tier1);
    AnswersLayer(answers, local);
    LearnedRemembers(full);
    forall i | 0 <= i < |tier1| ensures AnswerLanded(local[i], full[i], answers) {
      AnsweredColumn(answers, local, i);
    }
    SecondRun(again, tier1, local, full, answers);
  }

  lemma SecondRun(
    c: Call, tier1: seq<Mapping>, local: seq<Mapping>, full: seq<Mapping>, answers: map<Header, Answer>)
    requires !c.matcher.available && c.keyed
    requires local == Scan(FromMatcher(c.matcher), tier1, |tier1|) && NoModelTier(local)
    requires ModelLayer(local, full) && Remembers(LearnedFrom(full), full)
    requires forall i | 0 <= i < |tier1| :: AnswerLanded(local[i], full[i], answers)
    requires exists i :: 0 <= i < |tier1| && IsOpen(local[i]) && !IsOpen(full[i])
    ensures var second := Escalate(c, tier1, Some(LearnedFrom(full)));
      (!second.asked && SameVerdicts(full, second.mappings)) <==> !SomeBlankAnswer(local, answers)
  {
    var learned := LearnedFrom(full);
    if learned == map[] {
      NothingLearned(c, tier1, local, full, answers);
    } else {
      SomethingLearned(c, tier1, local, full, learned);
      VerdictsAgree(tier1, local, full, Escalate(c, tier1, Some(learned)).mappings, answers);
    }
  }

  /** All the answers were empty strings: the cached entry reads as a miss, and the
      columns that were answered are asked about again. */
  lemma NothingLearned(
    c: Call, tier1: seq<Mapping>, local: seq<Mapping>, full: seq<Mapping>, answers: map<Header, Answer>)
    requires local == Scan(FromMatcher(c.matcher), tier1, |tier1|) && |full| == |local| && Remembers(map[], full)
    requires forall i | 0 <= i < |tier1| :: AnswerLanded(local[i], full[i], answers)
    requires exists i :: 0 <= i < |tier1| && IsOpen(local[i]) && !IsOpen(full[i])
    ensures SomeBlankAnswer(local, answers)
    ensures var second := Escalate(c, tier1, Some(map[]));
      second.asked || !SameVerdicts(full, second.mappings)
  {
    var i :| 0 <= i < |tier1| && IsOpen(local[i]) && !IsOpen(full[i]);
    assert BlankAt(local[i], answers);
    OpenHeadersAreOpen(local);
  }

  lemma SomethingLearned(
    c: Call, tier1: seq<Mapping>, local: seq<Mapping>, full: seq<Mapping>, learned: Learned)
    requires !c.matcher.available && c.keyed && learned != map[]
    requires local == Scan(FromMatcher(c.matcher), tier1, |tier1|)
    requires ModelLayer(local, full) && Remembers(learned, full)
    ensures var second := Escalate(c, tier1, Some(learned));
      !second.asked && Repeats(tier1, local, full, second.mappings)
  {
    MatcherIsFresh(c.matcher);
    MatcherIsStable(c.matcher);
    var p, replayed := FromMatcher(c.matcher), Scan(FromCache(learned), tier1, |tier1|);
    SecondPass(p, tier1, local, full, learned, replayed, Scan(p, replayed, |tier1|));
  }

  lemma VerdictsAgree(
    tier1: seq<Mapping>, local: seq<Mapping>, full: seq<Mapping>, second: seq<Mapping>, answers: map<Header, Answer>)
    requires Repeats(tier1, local, full, second) && NoModelTier(local)
    requires forall i | 0 <= i < |tier1| :: AnswerLanded(local[i], full[i], answers)
    ensures SameVerdicts(full, second) <==> !SomeBlankAnswer(local, answers)
  {
    forall i | 0 <= i < |tier1|
      ensures (full[i].canonical == second[i].canonical && full[i].tier == second[i].tier) <==>
        !BlankAt(local[i], answers)
    {
      assert AnswerLanded(local[i], full[i], answers);
    }
    if i :| 0 <= i < |local| && BlankAt(local[i], answers) {
      assert full[i].tier != second[i].tier || full[i].canonical != second[i].canonical;
    }
  }
}
