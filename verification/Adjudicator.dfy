/** The live adjudicator (python/src/inspector/mapping/tier3_llm.py): a bounded retry loop
    around a model whose replies are arbitrary, and the validation of what it proposes. */
module Adjudicator {
  import opened Basics
  import opened Mappings
  import opened Rounding
  import opened Ladder

  const MAX_MODEL_CONFIDENCE := 0.85

  datatype Query = Query(unresolved: seq<Header>, resolved: map<Header, Field>, candidates: set<Field>)

  /** What the reply says under "confidence", as float() would take it; an integer beyond
      the range of a float makes it raise an error nobody catches. */
  datatype Stated = Missing | NotANumber | NaN | Infinite(negative: bool) | Number(value: real) | TooLarge

  /** One entry of the reply's "fields"; a JSON null canonical field is None. */
  datatype Item = Junk | Item(source: Header, canonical: Option<Field>, confidence: Stated)

  datatype Tokens = Tokens(input: nat, output: nat, cacheRead: nat)

  /** What the text holds: no JSON object, something that raises before any entry is looked
      at, or a list of entries. It raises when "fields" cannot be iterated (null, a number,
      true), and on JSON nested too deep or integers of too many digits for the parser. */
  datatype Body = NoObject | Unreadable | Fields(items: seq<Item>)

  datatype Reply = TransportFailure | Response(tokens: Tokens, body: Body)

  /** None where the conversion raises. */
  function Clamp(s: Stated): Option<real> {
    match s
    case Missing => Some(Round3(0.7))
    case NotANumber => Some(0.7)
    case NaN => Some(0.0)
    case Infinite(negative) => Some(if negative then 0.0 else MAX_MODEL_CONFIDENCE)
    case Number(x) =>
      Some(Round3(if x <= 0.0 then 0.0 else if x <= MAX_MODEL_CONFIDENCE then x else MAX_MODEL_CONFIDENCE))
    case TooLarge => None
  }

  ghost predicate Bounds(clamp: Stated -> Option<real>) {
    && (forall s :: clamp(s).None? <==> s.TooLarge?)
    && (forall s | clamp(s).Some? :: 0.0 <= clamp(s).value <= MAX_MODEL_CONFIDENCE)
  }

  /** A model answer never reaches dictionary level. */
  lemma ClampIsBounded()
    ensures Bounds(Clamp)
  {
    forall s: Stated | s.Number? ensures 0.0 <= Clamp(s).value <= MAX_MODEL_CONFIDENCE {
      var x := s.value;
      var y := if x <= 0.0 then 0.0 else if x <= MAX_MODEL_CONFIDENCE then x else MAX_MODEL_CONFIDENCE;
      Round3Respects(y, 0);
      Round3Respects(y, 850);
    }
  }

  /** A stated number counts to three decimals between 0 and 0.85; what is no number counts
      as 0.7, and what is not a number at all as 0. */
  lemma ClampSays(x: real, thousandths: nat)
    ensures Clamp(Missing) == Some(0.7) && Clamp(NotANumber) == Some(0.7) && Clamp(NaN) == Some(0.0)
    ensures Clamp(Infinite(true)) == Some(0.0) && Clamp(Infinite(false)) == Some(0.85) && Clamp(TooLarge) == None
    ensures x <= 0.0 ==> Clamp(Number(x)) == Some(0.0)
    ensures x >= 0.85 ==> Clamp(Number(x)) == Some(0.85)
    ensures thousandths <= 850 ==> Clamp(Number(thousandths as real / 1000.0)) == Some(thousandths as real / 1000.0)
    ensures 0.0 <= x <= 0.85 ==> x - 0.0005 <= Clamp(Number(x)).value <= x + 0.0005
  {
    Round3Respects(0.7, 700);
    Round3Respects(0.0, 0);
    Round3Respects(0.85, 850);
    Round3Respects(thousandths as real / 1000.0, thousandths);
    NearestIsNearest(x * 1000.0, 0);
  }

  function Declined(h: Header): Answer {
    Answer(h, None, 0.0)
  }

  datatype Verdict = Dropped | Kept(answer: Answer) | Raises

  /** The verdict on one item given the fields taken before it. */
  function Judged(q: Query, mappable: set<Field>, clamp: Stated -> Option<real>, item: Item, taken: set<Field>): Verdict
  {
    if item.Junk? || item.source !in q.unresolved then Dropped
    else if item.canonical.None? || item.canonical.value == "" then Kept(Declined(item.source))
    else if item.canonical.value !in q.candidates || item.canonical.value !in mappable then Kept(Declined(item.source))
    else if item.canonical.value in taken then Kept(Declined(item.source))
    else
      match clamp(item.confidence)
      case None => Raises
      case Some(c) => Kept(Answer(item.source, item.canonical, c))
  }

  function Proposals(answers: seq<Answer>): set<Field> {
    if answers == [] then {}
    else
      var last := answers[|answers| - 1];
      Proposals(answers[..|answers| - 1]) + if last.field.Some? then {last.field.value} else {}
  }

  /** Everything a set of answers may be trusted for. */
  ghost predicate Trustworthy(q: Query, mappable: set<Field>, answers: seq<Answer>) {
    && (forall a | a in answers :: a.source in q.unresolved && AnswerOk(q, mappable, a))
    && (forall i, j | 0 <= i < j < |answers| && answers[i].field.Some? :: answers[i].field != answers[j].field)
  }

  ghost predicate AnswerOk(q: Query, mappable: set<Field>, a: Answer) {
    match a.field
    case None => a.confidence == 0.0
    case Some(f) =>
      && f != "" && f in q.candidates && f in mappable && f !in q.resolved.Values
      && 0.0 <= a.confidence <= MAX_MODEL_CONFIDENCE
  }

  ghost predicate AnswersAll(q: Query, answers: seq<Answer>) {
    forall h | h in q.unresolved :: AnsweredIn(answers, h)
  }

  ghost predicate AnsweredIn(answers: seq<Answer>, h: Header) {
    exists i :: 0 <= i < |answers| && answers[i].source == h
  }

  lemma {:induction false} ProposalsAreHeld(answers: seq<Answer>, f: Field)
    ensures f in Proposals(answers) <==> exists i :: 0 <= i < |answers| && answers[i].field == Some(f)
  {
    if answers != [] {
      var n := |answers| - 1;
      ProposalsAreHeld(answers[..n], f);
      if i :| 0 <= i < n && answers[..n][i].field == Some(f) {
        assert answers[i].field == Some(f);
      }
    }
  }

  /** Answers accepted so far, and the fields nobody may propose any more. */
  datatype Progress = Progress(out: seq<Answer>, taken: set<Field>) {
    function With(a: Answer): Progress {
      Progress(out + [a], if a.field.Some? then taken + {a.field.value} else taken)
    }
  }

  ghost predicate Sound(q: Query, mappable: set<Field>, p: Progress) {
    Trustworthy(q, mappable, p.out) && p.taken == q.resolved.Values + Proposals(p.out)
  }

  lemma JudgedIsOk(q: Query, mappable: set<Field>, clamp: Stated -> Option<real>, item: Item, taken: set<Field>)
    requires Bounds(clamp) && q.resolved.Values <= taken
    ensures var v := Judged(q, mappable, clamp, item, taken);
      v.Kept? ==>
        && v.answer.source in q.unresolved && AnswerOk(q, mappable, v.answer)
        && (v.answer.field.Some? ==> v.answer.field.value !in taken)
  {}

  lemma OneMoreAnswer(q: Query, mappable: set<Field>, p: Progress, a: Answer)
    requires Sound(q, mappable, p) && a.source in q.unresolved && AnswerOk(q, mappable, a)
    requires a.field.Some? ==> a.field.value !in p.taken
    ensures Sound(q, mappable, p.With(a))
  {
    var more := p.out + [a];
    assert more[..|p.out|] == p.out;
    forall i, j | 0 <= i < j < |more| && more[i].field.Some? ensures more[i].field != more[j].field {
      if j == |p.out| {
        ProposalsAreHeld(p.out, more[i].field.value);
      }
    }
  }

  /** What validation makes of the first `n` items; None once it raises. */
  function Validated(q: Query, mappable: set<Field>, clamp: Stated -> Option<real>, items: seq<Item>, n: nat)
    : Option<Progress>
    requires n <= |items|
  {
    if n == 0 then Some(Progress([], q.resolved.Values))
    else
      match Validated(q, mappable, clamp, items, n - 1)
      case None => None
      case Some(p) =>
        match Judged(q, mappable, clamp, items[n - 1], p.taken)
        case Dropped => Some(p)
        case Kept(a) => Some(p.With(a))
        case Raises => None
  }

  lemma {:induction false} ValidatedIsSound(
    q: Query, mappable: set<Field>, clamp: Stated -> Option<real>, items: seq<Item>, n: nat)
    requires n <= |items| && Bounds(clamp) && Validated(q, mappable, clamp, items, n).Some?
    ensures Sound(q, mappable, Validated(q, mappable, clamp, items, n).value)
  {
    if n > 0 {
      ValidatedIsSound(q, mappable, clamp, items, n - 1);
      var p := Validated(q, mappable, clamp, items, n - 1).value;
      var v := Judged(q, mappable, clamp, items[n - 1], p.taken);
      JudgedIsOk(q, mappable, clamp, items[n - 1], p.taken);
      if v.Kept? {
        OneMoreAnswer(q, mappable, p, v.answer);
      }
    }
  }

  // ---- when a reply makes validation raise ----

  /** The item names a requested header and a free field that may be proposed. */
  predicate Proposes(q: Query, mappable: set<Field>, item: Item, f: Field) {
    && item.Item? && item.source in q.unresolved && item.canonical == Some(f) && f != ""
    && f in q.candidates && f in mappable && f !in q.resolved.Values
  }

  ghost predicate ProposedBefore(q: Query, mappable: set<Field>, items: seq<Item>, n: nat, f: Field) {
    exists m :: 0 <= m < n && m < |items| && Proposes(q, mappable, items[m], f)
  }

  /** Item `n` is the first to propose its field, with an integer beyond float range. */
  ghost predicate Overflows(q: Query, mappable: set<Field>, items: seq<Item>, n: nat) {
    && n < |items| && items[n].Item? && items[n].canonical.Some? && items[n].confidence.TooLarge?
    && var f := items[n].canonical.value;
       Proposes(q, mappable, items[n], f) && !ProposedBefore(q, mappable, items, n, f)
  }

  ghost predicate OverflowsBefore(q: Query, mappable: set<Field>, items: seq<Item>, n: nat) {
    exists m: nat :: m < n && Overflows(q, mappable, items, m)
  }

  lemma ProposedNow(q: Query, mappable: set<Field>, items: seq<Item>, n: nat, f: Field)
    requires 0 < n <= |items|
    ensures ProposedBefore(q, mappable, items, n, f) <==>
      ProposedBefore(q, mappable, items, n - 1, f) || Proposes(q, mappable, items[n - 1], f)
  {}

  lemma OverflowsNow(q: Query, mappable: set<Field>, items: seq<Item>, n: nat)
    requires 0 < n
    ensures OverflowsBefore(q, mappable, items, n) <==>
      OverflowsBefore(q, mappable, items, n - 1) || Overflows(q, mappable, items, n - 1)
  {}

  lemma {:induction false} TakenIsProposed(
    q: Query, mappable: set<Field>, clamp: Stated -> Option<real>, items: seq<Item>, n: nat)
    requires n <= |items| && Bounds(clamp)
    ensures var v := Validated(q, mappable, clamp, items, n);
      && (v.None? <==> OverflowsBefore(q, mappable, items, n))
      && (v.Some? ==> forall f :: f in v.value.taken <==>
            f in q.resolved.Values || ProposedBefore(q, mappable, items, n, f))
  {
    if n > 0 {
      TakenIsProposed(q, mappable, clamp, items, n - 1);
      OverflowsNow(q, mappable, items, n);
      forall f ensures ProposedBefore(q, mappable, items, n, f) <==>
        ProposedBefore(q, mappable, items, n - 1, f) || Proposes(q, mappable, items[n - 1], f)
      {
        ProposedNow(q, mappable, items, n, f);
      }
    }
  }

  /** Item `n` is the first to propose the field, for the header and with the confidence of
      the answer. */
  ghost predicate AcceptedAt(q: Query, mappable: set<Field>, items: seq<Item>, a: Answer, n: nat) {
    && n < |items| && a.field.Some? && Proposes(q, mappable, items[n], a.field.value)
    && !ProposedBefore(q, mappable, items, n, a.field.value)
    && items[n].source == a.source && Clamp(items[n].confidence) == Some(a.confidence)
  }

  ghost predicate AcceptedBefore(q: Query, mappable: set<Field>, items: seq<Item>, a: Answer, n: nat) {
    exists m: nat :: m < n && AcceptedAt(q, mappable, items, a, m)
  }

  lemma AcceptedNow(q: Query, mappable: set<Field>, items: seq<Item>, a: Answer, n: nat)
    ensures AcceptedBefore(q, mappable, items, a, n + 1) <==>
      AcceptedBefore(q, mappable, items, a, n) || AcceptedAt(q, mappable, items, a, n)
  {}

  /** One item, judged against the fields taken before it. */
  lemma JudgedAccepts(q: Query, mappable: set<Field>, items: seq<Item>, n: nat, taken: set<Field>, a: Answer)
    requires n < |items| && a.field.Some?
    requires forall f :: f in taken <==> f in q.resolved.Values || ProposedBefore(q, mappable, items, n, f)
    ensures Judged(q, mappable, Clamp, items[n], taken) == Kept(a) <==> AcceptedAt(q, mappable, items, a, n)
  {}

  lemma {:induction false} OutIsAccepted(q: Query, mappable: set<Field>, items: seq<Item>, n: nat, a: Answer)
    requires n <= |items| && a.field.Some? && Validated(q, mappable, Clamp, items, n).Some?
    ensures a in Validated(q, mappable, Clamp, items, n).value.out <==> AcceptedBefore(q, mappable, items, a, n)
  {
    if n > 0 {
      ClampIsBounded();
      OutIsAccepted(q, mappable, items, n - 1, a);
      TakenIsProposed(q, mappable, Clamp, items, n - 1);
      AcceptedNow(q, mappable, items, a, n - 1);
      JudgedAccepts(q, mappable, items, n - 1, Validated(q, mappable, Clamp, items, n - 1).value.taken, a);
    }
  }

  predicate IsAbout(q: Query, item: Item) {
    item.Item? && item.source in q.unresolved
  }

  ghost predicate NothingAbout(q: Query, items: seq<Item>, n: nat) {
    forall m | 0 <= m < n && m < |items| :: !IsAbout(q, items[m])
  }

  lemma {:induction false} OutIsEmpty(q: Query, mappable: set<Field>, items: seq<Item>, n: nat)
    requires n <= |items|
    ensures var v := Validated(q, mappable, Clamp, items, n);
      v.Some? && v.value.out == [] <==> NothingAbout(q, items, n)
  {
    if n > 0 {
      OutIsEmpty(q, mappable, items, n - 1);
      assert NothingAbout(q, items, n) <==> NothingAbout(q, items, n - 1) && !IsAbout(q, items[n - 1]);
    }
  }

  /** What is read off a reply: it is of no use exactly if no item is about a header that
      was asked about; otherwise the fields answered are exactly those proposed, each for
      the header and with the confidence of the first item to propose it. */
  lemma ParsedIsWhatWasProposed(q: Query, mappable: set<Field>, items: seq<Item>)
    ensures Parsed(q, mappable, Clamp, items).Unusable? <==> NothingAbout(q, items, |items|)
    ensures var r := Parsed(q, mappable, Clamp, items);
      r.Usable? ==> forall a: Answer | a.field.Some? ::
        a in r.answers <==> AcceptedBefore(q, mappable, items, a, |items|)
  {
    OutIsEmpty(q, mappable, items, |items|);
    var v := Validated(q, mappable, Clamp, items, |items|);
    if v.Some? {
      var rest := Remainder(q.unresolved, Sources(v.value.out), |q.unresolved|);
      RemainderDeclines(q.unresolved, Sources(v.value.out), |q.unresolved|);
      forall a: Answer | a.field.Some?
        ensures a in v.value.out + rest <==> AcceptedBefore(q, mappable, items, a, |items|)
      {
        OutIsAccepted(q, mappable, items, |items|, a);
      }
    }
  }

  /** The headers the model ignored, declined on its behalf. */
  function Remainder(unresolved: seq<Header>, answered: set<Header>, n: nat): seq<Answer>
    requires n <= |unresolved|
  {
    if n == 0 then []
    else
      Remainder(unresolved, answered, n - 1)
      + if unresolved[n - 1] !in answered then [Declined(unresolved[n - 1])] else []
  }

  function Sources(answers: seq<Answer>): set<Header> {
    set a | a in answers :: a.source
  }

  datatype Reading = Raised | Unusable | Usable(answers: seq<Answer>)

  function Parsed(q: Query, mappable: set<Field>, clamp: Stated -> Option<real>, items: seq<Item>): Reading {
    match Validated(q, mappable, clamp, items, |items|)
    case None => Raised
    case Some(p) =>
      if p.out == [] then Unusable
      else Usable(p.out + Remainder(q.unresolved, Sources(p.out), |q.unresolved|))
  }

  function Read(q: Query, mappable: set<Field>, clamp: Stated -> Option<real>, r: Reply): Reading {
    if r.TransportFailure? || r.body.NoObject? then Unusable
    else if r.body.Unreadable? then Raised
    else Parsed(q, mappable, clamp, r.body.items)
  }

  /** Reading a reply raises if and only if its text does, or the first item to propose some
      free field carries an integer beyond float range. */
  lemma RaisesExactlyWhen(q: Query, mappable: set<Field>, r: Reply)
    ensures Read(q, mappable, Clamp, r).Raised? <==>
      r.Response? && (r.body.Unreadable?
        || (r.body.Fields? && exists n: nat :: Overflows(q, mappable, r.body.items, n)))
  {
    ClampIsBounded();
    if r.Response? && r.body.Fields? {
      TakenIsProposed(q, mappable, Clamp, r.body.items, |r.body.items|);
      assert OverflowsBefore(q, mappable, r.body.items, |r.body.items|) <==>
        exists n: nat :: Overflows(q, mappable, r.body.items, n);
    }
  }

  lemma {:induction false} RemainderDeclines(unresolved: seq<Header>, answered: set<Header>, n: nat)
    requires n <= |unresolved|
    ensures forall a | a in Remainder(unresolved, answered, n) :: a.source in unresolved && a == Declined(a.source)
    ensures forall i | 0 <= i < n && unresolved[i] !in answered ::
      Declined(unresolved[i]) in Remainder(unresolved, answered, n)
  {
    if n > 0 {
      RemainderDeclines(unresolved, answered, n - 1);
    }
  }

  /** Whatever the model said: if it is accepted, every header has an answer and every
      proposal can be trusted. */
  lemma ParsedIsTrustworthy(q: Query, mappable: set<Field>, items: seq<Item>)
    requires Parsed(q, mappable, Clamp, items).Usable?
    ensures var answers := Parsed(q, mappable, Clamp, items).answers;
      Trustworthy(q, mappable, answers) && AnswersAll(q, answers)
  {
    ClampIsBounded();
    var out := Validated(q, mappable, Clamp, items, |items|).value.out;
    var rest := Remainder(q.unresolved, Sources(out), |q.unresolved|);
    ValidatedIsSound(q, mappable, Clamp, items, |items|);
    RemainderDeclines(q.unresolved, Sources(out), |q.unresolved|);
    TrustedWithDeclines(q, mappable, out, rest);
    forall h | h in q.unresolved ensures AnsweredIn(out + rest, h) {
      if h in Sources(out) {
        var a :| a in out && a.source == h;
        var i :| 0 <= i < |out| && out[i] == a;
        assert (out + rest)[i].source == h;
      } else {
        var k :| 0 <= k < |q.unresolved| && q.unresolved[k] == h;
        var i :| 0 <= i < |rest| && rest[i] == Declined(h);
        assert (out + rest)[|out| + i].source == h;
      }
    }
  }

  lemma TrustedWithDeclines(q: Query, mappable: set<Field>, out: seq<Answer>, rest: seq<Answer>)
    requires Trustworthy(q, mappable, out)
    requires forall a | a in rest :: a.source in q.unresolved && a == Declined(a.source)
    ensures Trustworthy(q, mappable, out + rest)
  {
    var all := out + rest;
    assert forall j | |out| <= j < |all| :: all[j] in rest && all[j].field.None?;
  }

  function AllDeclined(q: Query): (r: seq<Answer>)
    ensures |r| == |q.unresolved| && forall i | 0 <= i < |r| :: r[i] == Declined(q.unresolved[i])
  {
    seq(|q.unresolved|, i requires 0 <= i < |q.unresolved| => Declined(q.unresolved[i]))
  }

  lemma DecliningIsTrustworthy(q: Query, mappable: set<Field>)
    ensures Trustworthy(q, mappable, AllDeclined(q)) && AnswersAll(q, AllDeclined(q))
  {
    forall h | h in q.unresolved ensures AnsweredIn(AllDeclined(q), h) {
      var i :| 0 <= i < |q.unresolved| && q.unresolved[i] == h;
      assert AllDeclined(q)[i].source == h;
    }
  }

  // ---- the retry loop ----

  function Plus(a: Tokens, b: Tokens): Tokens {
    Tokens(a.input + b.input, a.output + b.output, a.cacheRead + b.cacheRead)
  }

  datatype Usage = Usage(calls: nat, failures: nat, tokens: Tokens) {
    function With(r: Reply): Usage {
      if r.TransportFailure? then this.(failures := failures + 1)
      else Usage(calls + 1, failures, Plus(tokens, r.tokens))
    }

    /** After the first `n` replies. */
    function After(send: nat -> Reply, n: nat): Usage {
      if n == 0 then this else After(send, n - 1).With(send(n))
    }

    /** Every attempt is counted exactly once, as a call or as a failure. */
    lemma {:induction false} AttemptsAreCounted(send: nat -> Reply, n: nat)
      ensures After(send, n).calls + After(send, n).failures == calls + failures + n
    {
      if n > 0 {
        AttemptsAreCounted(send, n - 1);
      }
    }
  }

  class ClaudeAdjudicator {
    const maxAttempts: int
    const mappable: set<Field>
    var usage: Usage

    constructor (maxAttempts: int, mappable: set<Field>)
      ensures this.maxAttempts == maxAttempts && this.mappable == mappable
      ensures usage == Usage(0, 0, Tokens(0, 0, 0))
    {
      this.maxAttempts, this.mappable := maxAttempts, mappable;
      usage := Usage(0, 0, Tokens(0, 0, 0));
    }

    function Heard(q: Query, r: Reply): Reading {
      Read(q, mappable, Clamp, r)
    }

    /** `last` is the attempt the loop stops at: the first reply that is usable or raises,
        or the limit. */
    ghost predicate StopsAt(q: Query, send: nat -> Reply, last: nat) {
      && 1 <= last <= maxAttempts
      && (forall k | 1 <= k < last :: Heard(q, send(k)).Unusable?)
      && (!Heard(q, send(last)).Unusable? || last == maxAttempts)
    }

    /** What comes of it; None if the call raises. */
    function Concluded(q: Query, r: Reply): Option<seq<Answer>> {
      match Heard(q, r)
      case Raised => None
      case Unusable => Some(AllDeclined(q))
      case Usable(answers) => Some(answers)
    }

    method Parse(q: Query, items: seq<Item>) returns (r: Reading)
      ensures r == Parsed(q, mappable, Clamp, items)
    {
      var taken, out := q.resolved.Values, [];
      for i := 0 to |items|
        invariant Validated(q, mappable, Clamp, items, i) == Some(Progress(out, taken))
      {
        var item := items[i];
        if item.Junk? || item.source !in q.unresolved {
          continue;
        }
        if item.canonical.None? || item.canonical.value == "" {
          out := out + [Declined(item.source)];
          continue;
        }
        var f := item.canonical.value;
        if f !in q.candidates || f !in mappable {
          out := out + [Declined(item.source)];
          continue;
        }
        if f in taken {
          out := out + [Declined(item.source)];
          continue;
        }
        taken := taken + {f};
        var confidence := Clamp(item.confidence);
        if confidence.None? {
          RaisedStaysRaised(q, mappable, Clamp, items, i + 1, |items|);
          return Raised;
        }
        out := out + [Answer(item.source, Some(f), confidence.value)];
      }
      if out == [] {
        return Unusable;
      }
      var answered := Sources(out);
      ghost var said := out;
      for i := 0 to |q.unresolved|
        invariant out == said + Remainder(q.unresolved, answered, i)
      {
        if q.unresolved[i] !in answered {
          out := out + [Declined(q.unresolved[i])];
        }
      }
      r := Usable(out);
    }

    /** `send(k)` is what the model service does on the `k`-th attempt. */
    method Adjudicate(q: Query, send: nat -> Reply) returns (r: Option<seq<Answer>>)
      modifies this
      ensures q.unresolved == [] || maxAttempts < 1 ==> r == Some(AllDeclined(q)) && usage == old(usage)
      ensures q.unresolved != [] && maxAttempts >= 1 ==>
        exists last :: StopsAt(q, send, last) && usage == old(usage).After(send, last) && r == Concluded(q, send(last))
    {
      if q.unresolved == [] {
        return Some([]);
      }
      var attempt := 1;
      while attempt <= maxAttempts
        invariant attempt >= 1 && usage == old(usage).After(send, attempt - 1)
        invariant forall k | 1 <= k < attempt :: Heard(q, send(k)).Unusable?
        invariant attempt == 1 || attempt <= maxAttempts
      {
        var reply := send(attempt);
        usage := usage.With(reply);
        if reply.TransportFailure? {
          if attempt == maxAttempts {
            assert StopsAt(q, send, attempt);
            return Some(AllDeclined(q));
          }
          attempt := attempt + 1;
          continue;
        }
        var reading := Unusable;
        if reply.body.Unreadable? {
          reading := Raised;
        } else if reply.body.Fields? {
          reading := Parse(q, reply.body.items);
        }
        assert reading == Heard(q, send(attempt));
        if reading.Raised? {
          assert StopsAt(q, send, attempt);
          return None;
        }
        if reading.Usable? {
          assert StopsAt(q, send, attempt);
          return Some(reading.answers);
        }
        if attempt == maxAttempts {
          assert StopsAt(q, send, attempt);
          return Some(AllDeclined(q));
        }
        attempt := attempt + 1;
      }
      r := Some(AllDeclined(q));
    }
  }

  lemma {:induction false} RaisedStaysRaised(
    q: Query, mappable: set<Field>, clamp: Stated -> Option<real>, items: seq<Item>, i: nat, n: nat)
    requires i <= n <= |items| && Validated(q, mappable, clamp, items, i).None?
    ensures Validated(q, mappable, clamp, items, n).None?
  {
    if i < n {
      RaisedStaysRaised(q, mappable, clamp, items, i, n - 1);
    }
  }

  /** What every call guarantees, whatever the model says and however often it fails: it
      raises exactly when the reply it stops at does, and otherwise every header has an
      answer and every proposal can be trusted. */
  lemma AdjudicationIsSound(
    c: ClaudeAdjudicator, q: Query, send: nat -> Reply, before: Usage, last: nat, r: Option<seq<Answer>>)
    requires c.StopsAt(q, send, last) && r == c.Concluded(q, send(last))
    ensures r.None? <==> c.Heard(q, send(last)).Raised?
    ensures r.Some? ==> Trustworthy(q, c.mappable, r.value) && AnswersAll(q, r.value)
    ensures var after := before.After(send, last);
      before.calls + before.failures < after.calls + after.failures <= before.calls + before.failures + c.maxAttempts
  {
    before.AttemptsAreCounted(send, last);
    if c.Heard(q, send(last)).Usable? {
      ParsedIsTrustworthy(q, c.mappable, send(last).body.items);
    } else {
      DecliningIsTrustworthy(q, c.mappable);
    }
  }

  lemma {:induction false} AsMapHolds(answers: seq<Answer>, h: Header)
    ensures h in AsMap(answers) <==> AnsweredIn(answers, h)
    ensures h in AsMap(answers) ==> AsMap(answers)[h] in answers && AsMap(answers)[h].source == h
  {
    if answers != [] {
      var n := |answers| - 1;
      AsMapHolds(answers[..n], h);
      if i :| 0 <= i < n && answers[..n][i].source == h {
        assert answers[i].source == h;
      }
      assert answers[n].source == h ==> AnsweredIn(answers, h);
    }
  }

  /** The live adjudicator meets the condition under which a second file costs nothing. */
  lemma NeverAnswersBlank(ms: seq<Mapping>, q: Query, mappable: set<Field>, answers: seq<Answer>)
    requires Trustworthy(q, mappable, answers)
    ensures !SomeBlankAnswer(ms, AsMap(answers))
  {
    forall i | 0 <= i < |ms| ensures !BlankAt(ms[i], AsMap(answers)) {
      AsMapHolds(answers, ms[i].source);
      assert ms[i].source in AsMap(answers) ==> AnswerOk(q, mappable, AsMap(answers)[ms[i].source]);
    }
  }

  /** The resolver finds an answer for each header it asked about. */
  lemma EveryHeaderIsOnRecord(q: Query, answers: seq<Answer>, h: Header)
    requires AnswersAll(q, answers) && h in q.unresolved
    ensures h in AsMap(answers)
  {
    AsMapHolds(answers, h);
  }

  // ---- the deterministic stand-in (python/src/inspector/mapping/tier3.py) ----

  const FAKE_CONFIDENCE := 0.80

  /** A rule fires when one of its tokens is in the header; what the sample values of a
      header suggest comes after every rule. */
  datatype Rule = Rule(fires: Header -> bool, field: Field)

  datatype Rulebook = Rulebook(rules: seq<Rule>, samples: seq<Rule>) {
    /** The first rule that fires and whose field is free. */
    function First(rs: seq<Rule>, h: Header, taken: set<Field>): (r: Option<Field>)
      ensures r.Some? ==> exists i :: IsFirst(rs, h, taken, i) && rs[i].field == r.value
      ensures r.None? ==> forall i | 0 <= i < |rs| && rs[i].fires(h) :: rs[i].field in taken
      decreases |rs|
    {
      if rs == [] then None
      else if rs[0].field !in taken && rs[0].fires(h) then
        assert IsFirst(rs, h, taken, 0);
        Some(rs[0].field)
      else
        var r := First(rs[1..], h, taken);
        FirstOfRest(rs, h, taken);
        r
    }

    ghost predicate IsFirst(rs: seq<Rule>, h: Header, taken: set<Field>, i: int) {
      && 0 <= i < |rs| && rs[i].fires(h) && rs[i].field !in taken
      && forall j | 0 <= j < i && rs[j].fires(h) :: rs[j].field in taken
    }

    lemma FirstOfRest(rs: seq<Rule>, h: Header, taken: set<Field>)
      requires rs != [] && (rs[0].field in taken || !rs[0].fires(h))
      ensures forall i :: IsFirst(rs[1..], h, taken, i) ==> IsFirst(rs, h, taken, i + 1) && rs[1..][i] == rs[i + 1]
      ensures (forall i | 0 <= i < |rs| - 1 && rs[1..][i].fires(h) :: rs[1..][i].field in taken) ==>
        forall i | 0 <= i < |rs| && rs[i].fires(h) :: rs[i].field in taken
    {
      assert forall i | 0 <= i < |rs| - 1 :: rs[1..][i] == rs[i + 1];
      assert forall i | 0 < i < |rs| :: rs[i] == rs[1..][i - 1];
    }

    function Decide(h: Header, taken: set<Field>): Option<Field> {
      var decided := First(rules, h, taken);
      if decided.Some? then decided else First(samples, h, taken)
    }

    ghost function Fields(): set<Field> {
      (set i | 0 <= i < |rules| :: rules[i].field) + set i | 0 <= i < |samples| :: samples[i].field
    }

    lemma DecideIsFree(h: Header, taken: set<Field>)
      requires Decide(h, taken).Some?
      ensures Decide(h, taken).value !in taken && Decide(h, taken).value in Fields()
    {
      var rs := if First(rules, h, taken).Some? then rules else samples;
      var i :| 0 <= i < |rs| && rs[i].field == Decide(h, taken).value;
    }

    /** Answer `i` is the first rule's free field, given what is resolved or answered
        before it. */
    ghost predicate IsDecided(q: Query, answers: seq<Answer>, i: nat)
      requires i < |answers| && i < |q.unresolved|
    {
      && answers[i].source == q.unresolved[i]
      && answers[i].field == Decide(q.unresolved[i], q.resolved.Values + Proposals(answers[..i]))
      && answers[i].confidence == if answers[i].field.Some? then FAKE_CONFIDENCE else 0.0
    }

    /** The request with the fields the rulebook knows for its candidates: it does not
        look at those it is given. */
    ghost function Own(q: Query): Query {
      q.(candidates := Fields())
    }

    ghost predicate DecidedSoFar(q: Query, p: Progress, n: nat) {
      && |p.out| == n <= |q.unresolved| && Sound(Own(q), Fields(), p)
      && forall k | 0 <= k < n :: IsDecided(q, p.out, k)
    }

    lemma OneMoreDecision(q: Query, p: Progress, n: nat, a: Answer)
      requires "" !in Fields() && DecidedSoFar(q, p, n) && n < |q.unresolved|
      requires a.source == q.unresolved[n] && a.field == Decide(a.source, p.taken)
      requires a.confidence == if a.field.Some? then FAKE_CONFIDENCE else 0.0
      ensures DecidedSoFar(q, p.With(a), n + 1)
    {
      if a.field.Some? {
        DecideIsFree(a.source, p.taken);
      }
      OneMoreAnswer(Own(q), Fields(), p, a);
      var out := p.out + [a];
      forall k | 0 <= k <= n ensures IsDecided(q, out, k) {
        assert out[..k] == p.out[..k];
        assert k < n ==> IsDecided(q, p.out, k);
        assert k == n ==> p.out[..k] == p.out;
      }
    }

    /** The rules name real fields; which candidates the request lists plays no part. */
    method Adjudicate(q: Query) returns (answers: seq<Answer>)
      requires "" !in Fields()
      ensures |answers| == |q.unresolved| && forall i | 0 <= i < |answers| :: IsDecided(q, answers, i)
      ensures Trustworthy(Own(q), Fields(), answers)
      ensures Fields() <= q.candidates ==> Trustworthy(q, q.candidates, answers)
    {
      var taken: set<Field>, out: seq<Answer> := q.resolved.Values, [];
      for i := 0 to |q.unresolved|
        invariant DecidedSoFar(q, Progress(out, taken), i)
      {
        var h := q.unresolved[i];
        var decided := Decide(h, taken);
        ghost var before := Progress(out, taken);
        if decided.None? {
          out := out + [Declined(h)];
          OneMoreDecision(q, before, i, Declined(h));
          continue;
        }
        taken := taken + {decided.value};
        out := out + [Answer(h, decided, FAKE_CONFIDENCE)];
        OneMoreDecision(q, before, i, Answer(h, decided, FAKE_CONFIDENCE));
      }
      answers := out;
    }
  }
}
