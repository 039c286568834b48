/** The landing side as it runs (go/cmd/portwatch/main.go): passes of the scanner, the
    files it returns handled one by one, and other instances recording arrivals in the
    same table. A file replaced under its name comes out again only once the scanner has
    lost sight of the path or was made to forget it. */
module Portwatch {
  import opened Basics
  import opened Scanner
  import A = Arrivals

  datatype Happening =
    | Pass(listing: Listing)
    | Handling(a: A.Arrival, path: Path, fault: A.Fault, meanwhile: seq<A.Arrival>)
    | Elsewhere(b: A.Arrival)

  /** The shared system, and what the scanner has been through. */
  datatype Watch = Watch(sys: A.System, history: seq<Event>)

  const START := Watch(A.EMPTY, [])

  /** Handling went through to the end, and the path is forgotten. */
  predicate Forgets(rows: A.Rows, x: Happening) {
    x.Handling? && A.GoesThrough(rows, x.a, x.meanwhile, x.fault)
  }

  /** What the scanner notices of it. */
  function Noticed(rows: A.Rows, x: Happening): seq<Event> {
    if x.Pass? then [Scanned(x.listing)] else if Forgets(rows, x) then [Forgotten(x.path)] else []
  }

  function Next(w: Watch, x: Happening): Watch {
    Watch(
      match x
      case Pass(_) => w.sys
      case Handling(a, _, fault, meanwhile) => A.HandledBeside(w.sys, a, A.StepsBefore(fault), meanwhile)
      case Elsewhere(b) => w.sys.(rows := A.Joined(w.sys.rows, [b])),
      w.history + Noticed(w.sys.rows, x))
  }

  function Watched(xs: seq<Happening>): Watch {
    if xs == [] then START else Next(Watched(xs[..|xs| - 1]), xs[|xs| - 1])
  }

  /** How many events the scanner noticed before happening `n`. */
  function Before(xs: seq<Happening>, n: nat): nat
    requires n <= |xs|
  {
    |Watched(xs[..n]).history|
  }

  function NoticedAt(xs: seq<Happening>, n: nat): seq<Event>
    requires n < |xs|
  {
    Noticed(Watched(xs[..n]).sys.rows, xs[n])
  }

  /** Happening `n` is a pass that returns the path. */
  ghost predicate ReturnedIn(p: Policy, xs: seq<Happening>, n: nat, path: Path) {
    n < |xs| && xs[n].Pass? && ReturnedAt(p, Watched(xs[..n + 1]).history, Before(xs, n), path)
  }

  ghost predicate ReadyIn(p: Policy, xs: seq<Happening>, n: nat, path: Path) {
    n < |xs| && xs[n].Pass? && ReadyAt(p, Watched(xs[..n + 1]).history, Before(xs, n), path)
  }

  /** A sighting ends by a pass that completes and misses the path, or by a file handled
      under it that is published, with nothing failing after. */
  ghost predicate Ends(p: Policy, xs: seq<Happening>, n: nat, path: Path) {
    && n < |xs|
    && match xs[n]
       case Pass(l) => Completes(p, l) && SightIn(p, l, |l.entries|, path).Cut?
       case Handling(a, q, fault, _) => q == path && fault.Never? && IsPublished(xs, n, a)
       case Elsewhere(_) => false
  }

  ghost predicate IsPublished(xs: seq<Happening>, n: nat, a: A.Arrival)
    requires n < |xs|
  {
    Watched(xs[..n + 1]).sys.published == Watched(xs[..n]).sys.published + [a]
  }

  /** No pass has broken off. */
  ghost predicate Running(p: Policy, xs: seq<Happening>) {
    forall n | 0 <= n < |xs| && xs[n].Pass? :: Completes(p, xs[n].listing)
  }

  lemma WatchedGrows(xs: seq<Happening>, n: nat)
    requires n < |xs|
    ensures Watched(xs[..n + 1]) == Next(Watched(xs[..n]), xs[n])
  {
    assert xs[..n + 1][..n] == xs[..n];
  }

  lemma {:induction false} HistoryOfPrefix(xs: seq<Happening>, n: nat)
    requires n <= |xs|
    ensures Watched(xs[..n]).history <= Watched(xs).history
    decreases |xs| - n
  {
    if n == |xs| {
      assert xs[..n] == xs;
    } else {
      WatchedGrows(xs, n);
      HistoryOfPrefix(xs, n + 1);
    }
  }

  /** Looking at the events up to a happening or at all of them makes no difference. */
  lemma InTheWhole(p: Policy, xs: seq<Happening>, n: nat, path: Path)
    requires n < |xs|
    ensures var all, e := Watched(xs).history, Before(xs, n);
      && (NoticedAt(xs, n) != [] ==> e < |all| && NoticedAt(xs, n) == [all[e]])
      && (xs[n].Pass? ==> (ReturnedIn(p, xs, n, path) <==> ReturnedAt(p, all, e, path)))
      && (xs[n].Pass? ==> (ReadyIn(p, xs, n, path) <==> ReadyAt(p, all, e, path)))
  {
    WatchedGrows(xs, n);
    HistoryOfPrefix(xs, n + 1);
    if NoticedAt(xs, n) != [] {
      InTheLonger(p, Watched(xs[..n + 1]).history, Watched(xs).history, Before(xs, n), path);
    }
  }

  lemma InTheLonger(p: Policy, short: seq<Event>, long: seq<Event>, e: nat, path: Path)
    requires short <= long && e < |short|
    ensures ReturnedAt(p, short, e, path) <==> ReturnedAt(p, long, e, path)
    ensures ReadyAt(p, short, e, path) <==> ReadyAt(p, long, e, path)
  {
    assert short[..e + 1] == long[..e + 1] && short[..e] == long[..e];
  }

  lemma EndsIsCut(p: Policy, xs: seq<Happening>, n: nat, path: Path)
    requires n < |xs| && Running(p, xs)
    ensures Ends(p, xs, n, path) <==>
      NoticedAt(xs, n) != [] && CutAt(p, Watched(xs).history, Before(xs, n), path)
  {
    InTheWhole(p, xs, n, path);
    if xs[n].Handling? {
      EndsIsForgetting(p, xs, n, path);
    }
  }

  lemma EndsIsForgetting(p: Policy, xs: seq<Happening>, n: nat, path: Path)
    requires n < |xs| && xs[n].Handling?
    ensures Ends(p, xs, n, path) <==> xs[n].path == path && Forgets(Watched(xs[..n]).sys.rows, xs[n])
  {
    NobodyHandles(xs, n);
    WatchedGrows(xs, n);
    if xs[n].fault.Never? {
      PublishedExactlyWhenForgotten(Watched(xs[..n]).sys, xs[n]);
    }
  }

  lemma NextIsIdle(w: Watch, x: Happening)
    requires w.sys.at == map[]
    ensures Next(w, x).sys.at == map[]
  {
    if x.Handling? {
      A.HandledBesideIs(w.sys, x.a, A.StepsBefore(x.fault), x.meanwhile);
    }
  }

  /** Between two happenings no file is being handled. */
  lemma {:induction false} NobodyHandles(xs: seq<Happening>, n: nat)
    requires n <= |xs|
    ensures Watched(xs[..n]).sys.at == map[]
  {
    if n > 0 {
      NobodyHandles(xs, n - 1);
      WatchedGrows(xs, n - 1);
      NextIsIdle(Watched(xs[..n - 1]), xs[n - 1]);
    }
  }

  /** A handling with no failure publishes its file exactly when it forgets the path: not
      when the check suppresses it, and not when its insert loses to another instance. */
  lemma PublishedExactlyWhenForgotten(sys: A.System, x: Happening)
    requires sys.at == map[] && x.Handling? && x.fault.Never?
    ensures A.HandledBeside(sys, x.a, A.StepsBefore(x.fault), x.meanwhile).published == sys.published + [x.a]
      <==> Forgets(sys.rows, x)
  {
    A.HandledBesideIs(sys, x.a, A.StepsBefore(x.fault), x.meanwhile);
    assert |sys.published + [x.a]| > |sys.published|;
  }

  lemma {:induction false} HappeningOf(xs: seq<Happening>, e: nat) returns (n: nat)
    requires e < |Watched(xs).history|
    ensures n < |xs| && Before(xs, n) == e && NoticedAt(xs, n) != []
  {
    n := |xs| - 1;
    if e < |Watched(xs[..n]).history| {
      n := HappeningOf(xs[..n], e);
      assert xs[..|xs| - 1][..n] == xs[..n];
    }
  }

  lemma InOrder(xs: seq<Happening>, n: nat, m: nat)
    requires n < |xs| && m < |xs| && NoticedAt(xs, n) != []
    ensures Before(xs, n) < Before(xs, m) <==> n < m
  {
    if n < m {
      WatchedGrows(xs, n);
      assert xs[..m][..n + 1] == xs[..n + 1];
      HistoryOfPrefix(xs[..m], n + 1);
    } else {
      assert xs[..n][..m] == xs[..m];
      HistoryOfPrefix(xs[..n], m);
    }
  }

  lemma RunningHistory(p: Policy, xs: seq<Happening>)
    requires Running(p, xs)
    ensures StillRunning(p, Watched(xs).history)
  {
    var all := Watched(xs).history;
    forall e | 0 <= e < |all| && all[e].Scanned? ensures Completes(p, all[e].listing) {
      var n := HappeningOf(xs, e);
      InTheWhole(p, xs, n, "");
    }
  }

  lemma ScannedIsAPass(xs: seq<Happening>, n: nat)
    requires n < |xs| && NoticedAt(xs, n) != [] && NoticedAt(xs, n)[0].Scanned?
    ensures xs[n].Pass?
  {}

  lemma AgainGoesThroughAnEnd(p: Policy, xs: seq<Happening>, i: nat, m: nat, path: Path) returns (c: nat)
    requires p.interval > 0 && Running(p, xs) && i < m
    requires ReturnedIn(p, xs, i, path) && ReturnedIn(p, xs, m, path)
    ensures i < c < m && Ends(p, xs, c, path) && ReadyIn(p, xs, m, path)
  {
    var all := Watched(xs).history;
    InTheWhole(p, xs, i, path);
    InTheWhole(p, xs, m, path);
    InOrder(xs, i, m);
    var e := CutBetween(p, all, Before(xs, i), Before(xs, m), path);
    c := HappeningOf(xs, e);
    InOrder(xs, i, c);
    InOrder(xs, c, m);
    EndsIsCut(p, xs, c, path);
  }

  lemma AfterAnEndComesAgain(p: Policy, xs: seq<Happening>, c: nat, m: nat, path: Path) returns (n: nat)
    requires p.interval > 0 && Running(p, xs) && c < m && Ends(p, xs, c, path) && ReadyIn(p, xs, m, path)
    ensures c < n && ReturnedIn(p, xs, n, path)
  {
    var all := Watched(xs).history;
    EndsIsCut(p, xs, c, path);
    InTheWhole(p, xs, m, path);
    InOrder(xs, c, m);
    RunningHistory(p, xs);
    var e := ReturnedAfterCut(p, all, Before(xs, c), Before(xs, m), path);
    n := HappeningOf(xs, e);
    InTheWhole(p, xs, n, path);
    ScannedIsAPass(xs, n);
    InOrder(xs, c, n);
  }

  /** A path that was returned is returned again if and only if its sighting ends, by a
      completed pass that misses it or by a handling under it that goes through with new
      content, and it turns ready after that. */
  lemma ReturnedAgainExactlyAfterAnEnd(p: Policy, xs: seq<Happening>, i: nat, path: Path)
    requires p.interval > 0 && Running(p, xs) && ReturnedIn(p, xs, i, path)
    ensures (exists m: nat :: i < m && ReturnedIn(p, xs, m, path)) <==>
      (exists c: nat, m: nat :: i < c < m && Ends(p, xs, c, path) && ReadyIn(p, xs, m, path))
  {
    if m: nat :| i < m && ReturnedIn(p, xs, m, path) {
      var c := AgainGoesThroughAnEnd(p, xs, i, m, path);
    }
    if c: nat, m: nat :| i < c < m && Ends(p, xs, c, path) && ReadyIn(p, xs, m, path) {
      var n := AfterAnEndComesAgain(p, xs, c, m, path);
    }
  }

  // ---- the failing run ----

  /** Passes that see the path, whatever is in it by then, and files handled under other
      names. */
  ghost predicate StaysInSight(p: Policy, rest: seq<Happening>, path: Path) {
    forall n | 0 <= n < |rest| ::
      && (rest[n].Pass? ==> Completes(p, rest[n].listing) && Sees(p, rest[n].listing, path))
      && (rest[n].Handling? ==> rest[n].path != path)
  }

  predicate Sees(p: Policy, l: Listing, path: Path) {
    SightIn(p, l, |l.entries|, path).Seen?
  }

  /** A file is returned and published; left in place, it is returned once more and its
      content is known by now. */
  function TwiceSeen(l: Listing, a: A.Arrival, again: A.Arrival, path: Path): seq<Happening> {
    [Pass(l), Pass(l), Handling(a, path, A.Never, []), Pass(l), Pass(l), Handling(again, path, A.Never, [])]
  }

  function SightsBefore(p: Policy, xs: seq<Happening>, n: nat, path: Path): seq<Sight>
    requires n <= |xs|
  {
    Project(p, Watched(xs[..n]).history, path)
  }

  lemma OnePassMore(p: Policy, past: seq<Event>, l: Listing, path: Path)
    requires Completes(p, l)
    ensures var v, h := SightIn(p, l, |l.entries|, path), Project(p, past, path);
      && Project(p, past + [Scanned(l)], path) == h + [v]
      && (ReturnedAt(p, past + [Scanned(l)], |past|, path) <==> p.EmitsAt(h + [v], |h|))
  {
    var hist := past + [Scanned(l)];
    ProjectGrows(p, past, Scanned(l), path);
    assert hist[..|past|] == past && hist[..|past| + 1] == hist;
  }

  lemma PassAddsASight(p: Policy, xs: seq<Happening>, n: nat, v: Sight, path: Path)
    requires n < |xs| && xs[n].Pass? && Completes(p, xs[n].listing)
    requires v == SightIn(p, xs[n].listing, |xs[n].listing.entries|, path)
    ensures SightsBefore(p, xs, n + 1, path) == SightsBefore(p, xs, n, path) + [v]
    ensures Watched(xs[..n + 1]).sys == Watched(xs[..n]).sys
    ensures ReturnedIn(p, xs, n, path) <==>
      p.EmitsAt(SightsBefore(p, xs, n, path) + [v], |SightsBefore(p, xs, n, path)|)
  {
    WatchedGrows(xs, n);
    OnePassMore(p, Watched(xs[..n]).history, xs[n].listing, path);
  }

  lemma ForgettingAddsACut(p: Policy, xs: seq<Happening>, n: nat, path: Path)
    requires n < |xs| && xs[n].Handling? && xs[n].path == path && Forgets(Watched(xs[..n]).sys.rows, xs[n])
    ensures SightsBefore(p, xs, n + 1, path) == SightsBefore(p, xs, n, path) + [Cut]
  {
    WatchedGrows(xs, n);
    ProjectGrows(p, Watched(xs[..n]).history, Forgotten(path), path);
  }

  lemma SecondSightEmits(p: Policy, before: seq<Sight>, v: Sight)
    requires v.Seen? && EndsInACut(before) && (v.sentinel || p.interval >= p.quiet)
    ensures p.EmitsAt(before + [v] + [v], |before + [v]|)
  {
    var h, n := before + [v] + [v], |before|;
    assert p.Track(h, n) == None;
    assert p.Track(h, n + 1) == Some(p.Observed(None, v.stat, v.sentinel));
  }

  lemma PublishedFirst(a: A.Arrival)
    ensures A.HandledBeside(A.EMPTY, a, 4, []).rows == [a] && A.HandledBeside(A.EMPTY, a, 4, []).published == [a]
    ensures A.Judgement([], a.sha, a.name) == A.NEW
  {}

  /** A pass that sees the path, twice: the second returns it. */
  lemma TwoPasses(p: Policy, xs: seq<Happening>, n: nat, l: Listing, v: Sight, path: Path)
    requires n + 1 < |xs| && xs[n] == xs[n + 1] == Pass(l) && Completes(p, l)
    requires v == SightIn(p, l, |l.entries|, path) && v.Seen? && (v.sentinel || p.interval >= p.quiet)
    requires EndsInACut(SightsBefore(p, xs, n, path))
    ensures ReturnedIn(p, xs, n + 1, path) && Watched(xs[..n + 2]).sys == Watched(xs[..n]).sys
  {
    var before := SightsBefore(p, xs, n, path);
    PassAddsASight(p, xs, n, v, path);
    PassAddsASight(p, xs, n + 1, v, path);
    assert SightsBefore(p, xs, n + 1, path) == before + [v];
    SecondSightEmits(p, before, v);
  }

  predicate EndsInACut(h: seq<Sight>) {
    h == [] || h[|h| - 1].Cut?
  }

  lemma NewFileIsPublished(xs: seq<Happening>, a: A.Arrival, path: Path)
    requires |xs| > 2 && xs[2] == Handling(a, path, A.Never, []) && Watched(xs[..2]).sys == A.EMPTY
    ensures Watched(xs[..3]).sys.rows == [a] && Watched(xs[..3]).sys.published == [a]
    ensures Forgets(Watched(xs[..2]).sys.rows, xs[2])
  {
    WatchedGrows(xs, 2);
    PublishedFirst(a);
  }

  lemma KnownContentIsNotForgotten(rows: A.Rows, x: Happening)
    requires x.Handling? && A.HasContent(rows, x.a.sha)
    ensures !Forgets(rows, x) && A.Judgement(rows, x.a.sha, x.a.name) != A.NEW
  {}

  lemma ReturnedTwice(p: Policy, xs: seq<Happening>, l: Listing, a: A.Arrival, path: Path)
    requires |xs| >= 5 && xs[0] == xs[1] == xs[3] == xs[4] == Pass(l) && xs[2] == Handling(a, path, A.Never, [])
    requires Completes(p, l)
    requires var v := SightIn(p, l, |l.entries|, path); v.Seen? && (v.sentinel || p.interval >= p.quiet)
    ensures ReturnedIn(p, xs, 1, path) && ReturnedIn(p, xs, 4, path)
    ensures Watched(xs[..5]).sys.rows == [a] && Watched(xs[..5]).sys.published == [a]
  {
    var v := SightIn(p, l, |l.entries|, path);
    assert xs[..0] == [] && Watched([]) == START && SightsBefore(p, xs, 0, path) == [];
    TwoPasses(p, xs, 0, l, v, path);
    NewFileIsPublished(xs, a, path);
    ForgettingAddsACut(p, xs, 2, path);
    TwoPasses(p, xs, 3, l, v, path);
  }

  lemma StayingInSightEndsNothing(p: Policy, xs: seq<Happening>, rest: seq<Happening>, c: nat, path: Path)
    requires StaysInSight(p, rest, path) && 6 <= c < |xs| && c - 6 < |rest| && xs[c] == rest[c - 6]
    ensures !Ends(p, xs, c, path)
  {}

  /** From then on the path is never returned while it stays in sight, so a correction
      written over the file is not seen. */
  lemma CorrectionIsNeverReturned(
    p: Policy, l: Listing, a: A.Arrival, again: A.Arrival, path: Path, rest: seq<Happening>, xs: seq<Happening>)
    requires p.interval > 0 && Completes(p, l) && again.sha == a.sha && StaysInSight(p, rest, path)
    requires var v := SightIn(p, l, |l.entries|, path); v.Seen? && (v.sentinel || p.interval >= p.quiet)
    requires xs == TwiceSeen(l, a, again, path) + rest
    ensures ReturnedIn(p, xs, 1, path) && ReturnedIn(p, xs, 4, path)
    ensures Watched(xs[..5]).sys.published == [a]
    ensures A.Judgement(Watched(xs[..5]).sys.rows, again.sha, again.name) != A.NEW
    ensures forall m: nat | m > 4 :: !ReturnedIn(p, xs, m, path)
  {
    ReturnedTwice(p, xs, l, a, path);
    assert Watched(xs[..5]).sys.rows[0].sha == again.sha;
    KnownContentIsNotForgotten(Watched(xs[..5]).sys.rows, xs[5]);
    TwiceSeenRuns(p, l, a, again, path, rest, xs);
    forall c: nat | c > 4 ensures !Ends(p, xs, c, path) {
      if c == 5 {
        EndsIsForgetting(p, xs, 5, path);
      } else if c < |xs| {
        StayingInSightEndsNothing(p, xs, rest, c, path);
      }
    }
    ReturnedAgainExactlyAfterAnEnd(p, xs, 4, path);
  }

  lemma TwiceSeenRuns(
    p: Policy, l: Listing, a: A.Arrival, again: A.Arrival, path: Path, rest: seq<Happening>, xs: seq<Happening>)
    requires Completes(p, l) && StaysInSight(p, rest, path) && xs == TwiceSeen(l, a, again, path) + rest
    ensures Running(p, xs)
  {
    forall n | 6 <= n < |xs| ensures xs[n] == rest[n - 6] {}
  }
}
