/** Local matching of one header (python/src/inspector/mapping/tier2.py). The string
    scorer and the embedding model are arbitrary functions. */
module Tier2 {
  import opened Basics
  import opened Mappings
  import opened Rounding

  const MIN_ACCEPT := 0.72
  const MAX_CONFIDENCE := 0.88

  datatype LocalMatch = LocalMatch(field: Option<Field>, confidence: real)

  datatype Alias = Alias(text: string, field: Field)

  datatype Matcher = Matcher(
    corpus: seq<Alias>,
    normalize: Header -> string,
    score: (string, string) -> real,
    semantic: Header -> (Option<Field>, real),
    available: bool)
  {
    // ---- the fuzzy signal ----

    function ScoreAt(text: string, i: nat): real
      requires i < |corpus|
    {
      score(text, corpus[i].text)
    }

    /** Index of the best-scoring alias among the first `n` whose field is not taken,
        the earliest on ties; None when there is none. */
    function BestOf(text: string, taken: set<Field>, n: nat): (r: Option<nat>)
      requires n <= |corpus|
      ensures r.Some? ==> r.value < n && corpus[r.value].field !in taken
    {
      if n == 0 then None
      else
        var best := BestOf(text, taken, n - 1);
        if corpus[n - 1].field in taken then best
        else if best.None? || ScoreAt(text, n - 1) > ScoreAt(text, best.value) then Some(n - 1)
        else best
    }

    function Fuzzy(header: Header, taken: set<Field>): (Option<Field>, real) {
      var text := normalize(header);
      var best := if text == "" then None else BestOf(text, taken, |corpus|);
      match best
      case None => (None, 0.0)
      case Some(i) => (Some(corpus[i].field), ScoreAt(text, i) / 100.0)
    }

    /** The semantic signal, silent when the model is missing or its answer is taken. */
    function Semantic(header: Header, taken: set<Field>): (Option<Field>, real) {
      if !available then (None, 0.0)
      else
        var (field, s) := semantic(header);
        if field.Some? && field.value in taken then (None, 0.0) else (field, s)
    }

    function Match(header: Header, taken: set<Field>): LocalMatch {
      var (fuzzyField, fuzzyScore) := Fuzzy(header, taken);
      var (semanticField, semanticScore) := Semantic(header, taken);
      var decline := LocalMatch(None, 0.0);
      if semanticField.None? then
        var confidence := Discounted(fuzzyScore);
        if fuzzyField.None? || confidence < MIN_ACCEPT then decline
        else LocalMatch(fuzzyField, Round3(confidence))
      else if fuzzyField == semanticField then
        var combined := Agreed(fuzzyScore, semanticScore);
        if combined < MIN_ACCEPT then decline else LocalMatch(semanticField, Round3(combined))
      else if fuzzyScore >= semanticScore then
        var combined := Discounted(fuzzyScore);
        if fuzzyField.None? || combined < MIN_ACCEPT then decline
        else LocalMatch(fuzzyField, Round3(combined))
      else
        var combined := Discounted(semanticScore);
        if combined < MIN_ACCEPT then decline else LocalMatch(semanticField, Round3(combined))
    }

    /** An answer is never a field already taken, and never as certain as a dictionary
        hit nor weaker than the acceptance threshold. */
    lemma MatchIsFreshAndBounded(header: Header, taken: set<Field>)
      ensures var m := Match(header, taken);
        m.field.Some? ==> m.field.value !in taken && MIN_ACCEPT <= m.confidence <= MAX_CONFIDENCE
    {
      forall x ensures MIN_ACCEPT <= x <= MAX_CONFIDENCE ==> MIN_ACCEPT <= Round3(x) <= MAX_CONFIDENCE {
        Round3Respects(x, 720);
        Round3Respects(x, 880);
      }
    }

    /** The semantic signal names the field the fuzzy one does. */
    predicate Corroborated(header: Header, taken: set<Field>) {
      Semantic(header, taken).0.Some? && Semantic(header, taken).0 == Fuzzy(header, taken).0
    }

    /** What the match would be without a semantic model. */
    function Alone(header: Header, taken: set<Field>): LocalMatch {
      this.(available := false).Match(header, taken)
    }

    lemma MatchesByScore(header: Header, taken: set<Field>)
      requires Corroborated(header, taken)
      ensures var field, f, s := Fuzzy(header, taken).0, Fuzzy(header, taken).1, Semantic(header, taken).1;
        && Alone(header, taken) ==
             (if Discounted(f) < MIN_ACCEPT then LocalMatch(None, 0.0) else LocalMatch(field, Round3(Discounted(f))))
        && Match(header, taken) ==
             (if Agreed(f, s) < MIN_ACCEPT then LocalMatch(None, 0.0) else LocalMatch(field, Round3(Agreed(f, s))))
    {
      FuzzyIgnoresTheModel(header, taken);
    }

    /** A semantic signal that agrees costs neither the match nor confidence in it if and
        only if there was no match to lose, or the two together are accepted and round to
        no less than the fuzzy signal alone. */
    lemma CorroborationKeepsTheMatch(header: Header, taken: set<Field>)
      requires Corroborated(header, taken)
      ensures var f, s := Fuzzy(header, taken).1, Semantic(header, taken).1;
        var alone, both := Alone(header, taken), Match(header, taken);
        (alone.field.Some? ==> both.field == alone.field && both.confidence >= alone.confidence)
        <==>
        Discounted(f) < MIN_ACCEPT || (Agreed(f, s) >= MIN_ACCEPT && Round3(Discounted(f)) <= Round3(Agreed(f, s)))
    {
      MatchesByScore(header, taken);
    }

    /** In raw scores: agreement loses the match exactly below this line. */
    lemma AgreementLosesTheMatchExactlyWhen(header: Header, taken: set<Field>)
      requires Corroborated(header, taken)
      ensures var f, s := Fuzzy(header, taken).1, Semantic(header, taken).1;
        Alone(header, taken).field.Some? && Match(header, taken).field.None? <==>
          0.92 * f >= 0.72 && 0.55 * f + 0.45 * s < 0.66
    {
      MatchesByScore(header, taken);
    }

    /** A witness: 0.85 alone is accepted at 0.782; with an agreeing 0.30 it is declined. */
    lemma WeakAgreementLosesTheMatch(header: Header, taken: set<Field>)
      requires Corroborated(header, taken) && Fuzzy(header, taken).1 == 0.85 && Semantic(header, taken).1 == 0.30
      ensures Alone(header, taken) == LocalMatch(Fuzzy(header, taken).0, 0.782)
      ensures Match(header, taken) == LocalMatch(None, 0.0)
    {
      MatchesByScore(header, taken);
      Round3Respects(0.782, 782);
    }

    lemma {:induction false} BestIgnoresTheModel(text: string, taken: set<Field>, n: nat)
      requires n <= |corpus|
      ensures this.(available := false).BestOf(text, taken, n) == BestOf(text, taken, n)
    {
      if n > 0 {
        BestIgnoresTheModel(text, taken, n - 1);
      }
    }

    lemma FuzzyIgnoresTheModel(header: Header, taken: set<Field>)
      ensures this.(available := false).Fuzzy(header, taken) == Fuzzy(header, taken)
    {
      BestIgnoresTheModel(normalize(header), taken, |corpus|);
    }

    // ---- shrinking the candidate set ----

    ghost predicate Beats(text: string, i: nat, j: nat)
      requires i < |corpus| && j < |corpus|
    {
      if j < i then ScoreAt(text, i) > ScoreAt(text, j) else ScoreAt(text, i) >= ScoreAt(text, j)
    }

    ghost predicate IsBest(text: string, taken: set<Field>, n: nat, i: nat)
      requires n <= |corpus|
    {
      && i < n && corpus[i].field !in taken
      && forall j | 0 <= j < n && corpus[j].field !in taken :: Beats(text, i, j)
    }

    lemma {:induction false} BestIsBest(text: string, taken: set<Field>, n: nat)
      requires n <= |corpus|
      ensures BestOf(text, taken, n).None? <==> forall j | 0 <= j < n :: corpus[j].field in taken
      ensures BestOf(text, taken, n).Some? ==> IsBest(text, taken, n, BestOf(text, taken, n).value)
    {
      if n > 0 {
        BestIsBest(text, taken, n - 1);
      }
    }

    /** What the fuzzy signal is: the field of an alias no free one scores above, the
        earliest of those, and silence for a header that normalises to nothing or when no
        alias is free. */
    lemma FuzzyIsTheBest(header: Header, taken: set<Field>)
      ensures var text, (field, s) := normalize(header), Fuzzy(header, taken);
        && (field.None? <==> text == "" || forall j | 0 <= j < |corpus| :: corpus[j].field in taken)
        && (field.None? ==> s == 0.0)
        && (field.Some? ==> exists i: nat ::
              IsBest(text, taken, |corpus|, i) && field.value == corpus[i].field && s == ScoreAt(text, i) / 100.0)
    {
      BestIsBest(normalize(header), taken, |corpus|);
    }

    /** A lone signal, or the stronger of two that disagree, is followed exactly when 0.92 of
        its score reaches 0.72; the fuzzy one wins ties. */
    lemma DisagreementFollowsTheStronger(header: Header, taken: set<Field>)
      requires !Corroborated(header, taken)
      ensures var m, (fuzzy, x), (meant, y) := Match(header, taken), Fuzzy(header, taken), Semantic(header, taken);
        var (field, score) := if meant.Some? && x < y then (meant, y) else (fuzzy, x);
        m == if field.Some? && score * 0.92 >= 0.72
             then LocalMatch(field, Round3(if score * 0.92 > 0.88 then 0.88 else score * 0.92))
             else LocalMatch(None, 0.0)
    {}

    /** Two signals that agree are followed exactly when together they reach 0.66 before the
        bonus of 0.06. */
    lemma AgreementIsFollowedExactlyWhen(header: Header, taken: set<Field>)
      requires Corroborated(header, taken)
      ensures var m, x, (meant, y) := Match(header, taken), Fuzzy(header, taken).1, Semantic(header, taken);
        var both := 0.55 * x + 0.45 * y;
        m == if both >= 0.66 then LocalMatch(meant, Round3(if both > 0.82 then 0.88 else both + 0.06))
             else LocalMatch(None, 0.0)
    {}

    /** Excluding more fields, but not the winner's, leaves the winner and its score. */
    lemma WinnerSurvives(header: Header, taken: set<Field>, more: set<Field>)
      requires Fuzzy(header, taken).0.Some? && Fuzzy(header, taken).0.value !in more
      ensures Fuzzy(header, taken + more) == Fuzzy(header, taken)
    {
      var text := normalize(header);
      BestIsBest(text, taken, |corpus|);
      BestIsBest(text, taken + more, |corpus|);
      var i := BestOf(text, taken, |corpus|).value;
      var j := BestOf(text, taken + more, |corpus|).value;
      assert Beats(text, i, j) && Beats(text, j, i);
    }

    /** Excluding more fields never raises the best score. */
    lemma ScoreNeverRises(header: Header, taken: set<Field>, more: set<Field>)
      requires Fuzzy(header, taken + more).0.Some?
      ensures Fuzzy(header, taken).0.Some?
      ensures Fuzzy(header, taken + more).1 <= Fuzzy(header, taken).1
    {
      var text := normalize(header);
      BestIsBest(text, taken, |corpus|);
      BestIsBest(text, taken + more, |corpus|);
      var i := BestOf(text, taken, |corpus|).value;
      var j := BestOf(text, taken + more, |corpus|).value;
      assert Beats(text, i, j);
    }

    /** Without the semantic signal a match is stable under excluding fields it did not
        choose: a hit stays that hit, a decline stays a decline. */
    lemma MatchIsStable(header: Header, taken: set<Field>, more: set<Field>)
      requires !available
      requires Match(header, taken).field.Some? ==> Match(header, taken).field.value !in more
      ensures Match(header, taken + more) == Match(header, taken)
    {
      if Match(header, taken).field.Some? {
        WinnerSurvives(header, taken, more);
      } else if Fuzzy(header, taken + more).0.Some? {
        ScoreNeverRises(header, taken, more);
      }
    }
  }

  /** One signal that nothing corroborates. */
  function Discounted(score: real): real {
    Min(score * 0.92, MAX_CONFIDENCE)
  }

  /** Two signals that agree. */
  function Agreed(fuzzy: real, semantic: real): real {
    Min(0.55 * fuzzy + 0.45 * semantic + 0.06, MAX_CONFIDENCE)
  }

  function Min(x: real, y: real): real {
    if x <= y then x else y
  }
}
