/** Write-completion detection (go/internal/arrival/scanner.go): an incremental map of
    observations, and the predicate over the whole scan history that it must compute.
    A path stands for itself; sizes, times and durations are integers. */
module Scanner {
  import opened Basics

  type Path = string

  datatype Stat = Stat(size: int, modTime: int)

  /** What stat says of an entry: it vanished since the listing, some other error, or this. */
  datatype Info = Gone | Unreadable | Is(stat: Stat)

  datatype Entry = Entry(path: Path, isDir: bool, info: Info)

  /** What one pass finds: the entries, each path once, and every path that exists. */
  datatype Listing = Listing(entries: seq<Entry>, files: set<Path>)

  datatype Candidate = Candidate(path: Path, stat: Stat, stability: int)

  datatype Observation = Observation(stat: Stat, stableFor: int, emitted: bool)

  /** One path in one scan; Cut is a scan that did not see it, or a Forget. */
  datatype Sight = Cut | Seen(stat: Stat, sentinel: bool)

  datatype Event = Scanned(listing: Listing) | Forgotten(path: Path)

  const DEFAULT_INTERVAL := 2_000_000_000
  const DEFAULT_QUIET := 5_000_000_000

  datatype Policy = Policy(
    interval: int, quiet: int, sentinelSuffix: string, ignoreSuffixes: seq<string>, lower: string -> string)
  {
    function Normal(): Policy {
      this.(interval := if interval <= 0 then DEFAULT_INTERVAL else interval,
            quiet := if quiet <= 0 then DEFAULT_QUIET else quiet)
    }

    predicate Ignored(path: Path) {
      (path != "" && path[0] == '.')
      || exists i :: 0 <= i < |ignoreSuffixes| && HasSuffix(lower(path), ignoreSuffixes[i])
    }

    predicate SentinelPresent(path: Path, files: set<Path>) {
      sentinelSuffix != "" && path + sentinelSuffix in files
    }

    // ---- one path, scan by scan ----

    /** Whether a scan that sees `stat` returns the path. */
    predicate Emits(known: Option<Observation>, stat: Stat, sentinel: bool) {
      && known.Some? && !known.value.emitted && known.value.stat == stat
      && (sentinel || known.value.stableFor + interval >= quiet)
    }

    function Observed(known: Option<Observation>, stat: Stat, sentinel: bool): Observation {
      if known.None? then Observation(stat, 0, false)
      else if known.value.emitted then known.value
      else if known.value.stat != stat then Observation(stat, 0, false)
      else Observation(stat, known.value.stableFor + interval, Emits(known, stat, sentinel))
    }

    function Track(h: seq<Sight>, n: nat): Option<Observation>
      requires n <= |h|
    {
      if n == 0 || h[n - 1].Cut? then None
      else Some(Observed(Track(h, n - 1), h[n - 1].stat, h[n - 1].sentinel))
    }

    predicate EmitsAt(h: seq<Sight>, t: nat)
      requires t < |h|
    {
      h[t].Seen? && Emits(Track(h, t), h[t].stat, h[t].sentinel)
    }

    // ---- the same, read off the history ----

    /** The last `k + 1` observations up to `t` were made without a break and are equal. */
    ghost predicate SameRun(h: seq<Sight>, t: nat, k: nat)
      requires t < |h|
    {
      k <= t && forall j | t - k <= j <= t :: h[j].Seen? && h[t].Seen? && h[j].stat == h[t].stat
    }

    ghost predicate LongEnough(h: seq<Sight>, t: nat, k: nat)
      requires t < |h|
    {
      k >= 1 && SameRun(h, t, k) && (h[t].sentinel || k * interval >= quiet)
    }

    ghost predicate Ready(h: seq<Sight>, t: nat)
      requires t < |h|
    {
      exists k: nat :: LongEnough(h, t, k)
    }

    ghost predicate SameSighting(h: seq<Sight>, u: nat, t: nat)
      requires t < |h|
    {
      u <= t && forall j | u <= j <= t :: h[j].Seen?
    }

    ghost predicate ReadyBy(h: seq<Sight>, t: nat)
      requires t < |h|
    {
      exists u: nat :: SameSighting(h, u, t) && Ready(h, u)
    }

    /** What the observation of a path that is in sight says about its history. */
    ghost predicate Remembers(h: seq<Sight>, t: nat, o: Observation)
      requires t < |h|
    {
      && (o.emitted <==> ReadyBy(h, t))
      && (!o.emitted ==> h[t].Seen? && o.stat == h[t].stat && exists k: nat :: RunIs(h, t, k, o.stableFor))
    }

    /** `k` counts the equal observations before `t`, and no longer run exists. */
    ghost predicate RunIs(h: seq<Sight>, t: nat, k: nat, stableFor: int)
      requires t < |h|
    {
      SameRun(h, t, k) && !SameRun(h, t, k + 1) && stableFor == k * interval
    }
  }

  predicate HasSuffix(s: string, suffix: string) {
    |suffix| <= |s| && s[|s| - |suffix|..] == suffix
  }

  lemma MoreTakesLonger(j: nat, k: nat, interval: int)
    requires j <= k && interval > 0
    ensures j * interval <= k * interval
  {}

  lemma SameRunShrinks(p: Policy, h: seq<Sight>, t: nat, k: nat, j: nat)
    requires t < |h| && p.SameRun(h, t, k) && j <= k
    ensures p.SameRun(h, t, j)
  {}

  lemma SameRunExtends(p: Policy, h: seq<Sight>, t: nat, k: nat)
    requires 0 < t < |h| && h[t].Seen?
    ensures p.SameRun(h, t, k + 1) <==> p.SameRun(h, t - 1, k) && h[t - 1].stat == h[t].stat
  {
    if p.SameRun(h, t, k + 1) {
      assert h[t - 1].Seen? && h[t - 1].stat == h[t].stat;
    }
  }

  /** Ready at `t`, in terms of the longest run of equal observations. */
  lemma ReadyFromRun(p: Policy, h: seq<Sight>, t: nat, k: nat, stableFor: int)
    requires t < |h| && p.RunIs(h, t, k, stableFor) && p.interval > 0
    ensures p.Ready(h, t) <==> k >= 1 && (h[t].sentinel || stableFor >= p.quiet)
  {
    if p.Ready(h, t) {
      var j: nat :| p.LongEnough(h, t, j);
      if j > k {
        SameRunShrinks(p, h, t, j, k + 1);
      }
      MoreTakesLonger(j, k, p.interval);
    }
    if k >= 1 && (h[t].sentinel || stableFor >= p.quiet) {
      assert p.LongEnough(h, t, k);
    }
  }

  lemma ReadyByGrows(p: Policy, h: seq<Sight>, t: nat)
    requires 0 < t < |h| && h[t].Seen?
    ensures p.ReadyBy(h, t) <==> p.Ready(h, t) || p.ReadyBy(h, t - 1)
  {
    if p.ReadyBy(h, t) {
      var u: nat :| p.SameSighting(h, u, t) && p.Ready(h, u);
      assert u < t ==> p.SameSighting(h, u, t - 1);
    }
    if p.ReadyBy(h, t - 1) {
      var u: nat :| p.SameSighting(h, u, t - 1) && p.Ready(h, u);
      assert p.SameSighting(h, u, t);
    }
    if p.Ready(h, t) {
      assert p.SameSighting(h, t, t);
    }
  }

  lemma FirstSight(p: Policy, h: seq<Sight>, t: nat)
    requires t < |h| && h[t].Seen? && (t == 0 || h[t - 1].Cut?) && p.interval > 0
    ensures p.RunIs(h, t, 0, 0) && !p.Ready(h, t) && !p.ReadyBy(h, t)
  {
    assert t > 0 ==> !p.SameRun(h, t, 1);
    ReadyFromRun(p, h, t, 0, 0);
    forall u: nat | p.SameSighting(h, u, t) ensures u == t {}
  }

  /** One more observation of a path already in sight. */
  lemma NextSight(p: Policy, h: seq<Sight>, t: nat, o: Observation)
    requires 0 < t < |h| && h[t].Seen? && p.interval > 0 && p.Remembers(h, t - 1, o)
    ensures p.Remembers(h, t, p.Observed(Some(o), h[t].stat, h[t].sentinel))
    ensures p.Emits(Some(o), h[t].stat, h[t].sentinel) <==> p.Ready(h, t) && !p.ReadyBy(h, t - 1)
  {
    ReadyByGrows(p, h, t);
    if !o.emitted {
      var k: nat :| p.RunIs(h, t - 1, k, o.stableFor);
      SameRunExtends(p, h, t, k);
      if o.stat == h[t].stat {
        SameRunExtends(p, h, t, k + 1);
        assert p.RunIs(h, t, k + 1, o.stableFor + p.interval);
        ReadyFromRun(p, h, t, k + 1, o.stableFor + p.interval);
      } else {
        SameRunExtends(p, h, t, 0);
        assert p.RunIs(h, t, 0, 0);
        ReadyFromRun(p, h, t, 0, 0);
      }
    }
  }

  lemma {:induction false} TrackRemembers(p: Policy, h: seq<Sight>, t: nat)
    requires t < |h| && h[t].Seen? && p.interval > 0
    ensures p.Remembers(h, t, p.Track(h, t + 1).value)
  {
    if t == 0 || h[t - 1].Cut? {
      FirstSight(p, h, t);
      assert p.Track(h, t).None? && p.RunIs(h, t, 0, 0);
    } else {
      TrackRemembers(p, h, t - 1);
      NextSight(p, h, t, p.Track(h, t).value);
    }
  }

  /** The incremental map refines its history: a scan returns a path exactly when this is
      the first time in the current sighting that the path was ready. */
  lemma EmitsAtFirstReady(p: Policy, h: seq<Sight>, t: nat)
    requires t < |h| && p.interval > 0
    ensures p.EmitsAt(h, t) <==>
      h[t].Seen? && p.Ready(h, t) && forall u: nat | u < t && p.SameSighting(h, u, t) :: !p.Ready(h, u)
  {
    if h[t].Seen? {
      if t == 0 || h[t - 1].Cut? {
        FirstSight(p, h, t);
      } else {
        TrackRemembers(p, h, t - 1);
        NextSight(p, h, t, p.Track(h, t).value);
        EarlierInSight(p, h, t);
      }
    }
  }

  lemma EarlierInSight(p: Policy, h: seq<Sight>, t: nat)
    requires 0 < t < |h| && h[t].Seen?
    ensures p.ReadyBy(h, t - 1) <==> exists u: nat :: u < t && p.SameSighting(h, u, t) && p.Ready(h, u)
  {
    if p.ReadyBy(h, t - 1) {
      var u: nat :| p.SameSighting(h, u, t - 1) && p.Ready(h, u);
      assert p.SameSighting(h, u, t);
    }
    if u: nat :| u < t && p.SameSighting(h, u, t) && p.Ready(h, u) {
      assert p.SameSighting(h, u, t - 1);
    }
  }

  /** Two emissions of a path never fall into one sighting: whatever happens to the file
      after the first, the path must go out of sight or be forgotten before the second. */
  lemma OneEmissionPerSighting(p: Policy, h: seq<Sight>, t: nat, u: nat)
    requires t < u < |h| && p.interval > 0 && p.EmitsAt(h, t) && p.EmitsAt(h, u)
    ensures exists j :: t < j < u && h[j].Cut?
  {
    EmitsAtFirstReady(p, h, t);
    EmitsAtFirstReady(p, h, u);
    assert !p.SameSighting(h, t, u);
  }

  /** A file is never returned by a scan that finds it changed since the last. */
  lemma NeverMidWrite(p: Policy, h: seq<Sight>, t: nat)
    requires t < |h| && p.EmitsAt(h, t) && p.interval > 0
    ensures t > 0 && h[t - 1].Seen? && h[t - 1].stat == h[t].stat
  {
    EmitsAtFirstReady(p, h, t);
    var k: nat :| p.LongEnough(h, t, k);
    SameRunShrinks(p, h, t, k, 1);
  }

  lemma {:induction false} LeastReady(p: Policy, h: seq<Sight>, u: nat, t: nat)
    requires p.interval > 0 && t < |h| && p.SameSighting(h, u, t) && p.Ready(h, t)
    requires u == 0 || h[u - 1].Cut?
    ensures exists v: nat :: u <= v <= t && p.EmitsAt(h, v)
    decreases t
  {
    EmitsAtFirstReady(p, h, t);
    if !p.EmitsAt(h, t) {
      var v: nat :| v < t && p.SameSighting(h, v, t) && p.Ready(h, v);
      LeastReady(p, h, u, v);
    }
  }

  /** Once the writer stops, the file comes out: a sighting that starts at `u` and ends in
      `k + 1` equal observations, with k intervals covering the quiet window, has had its
      emission by then. */
  lemma EmittedOnceQuiet(p: Policy, h: seq<Sight>, u: nat, t: nat, k: nat)
    requires p.interval > 0 && t < |h| && p.SameSighting(h, u, t) && (u == 0 || h[u - 1].Cut?)
    requires k >= 1 && p.SameRun(h, t, k) && k * p.interval >= p.quiet
    ensures exists v: nat :: u <= v <= t && p.EmitsAt(h, v)
  {
    assert p.LongEnough(h, t, k);
    LeastReady(p, h, u, t);
  }

  // ---- the scanner ----

  ghost predicate DistinctPaths(es: seq<Entry>) {
    forall i, j | 0 <= i < j < |es| :: es[i].path != es[j].path
  }

  /** The scan sees this entry at all. */
  predicate Eligible(p: Policy, e: Entry) {
    !e.isDir && !p.Ignored(e.path) && e.info.Is?
  }

  /** Where a pass ends: at the first entry whose stat fails, or after the last. */
  function Reach(p: Policy, l: Listing, i: nat): (n: nat)
    requires i <= |l.entries|
    ensures i <= n <= |l.entries|
    decreases |l.entries| - i
  {
    if i == |l.entries| || Breaks(p, l.entries[i]) then i else Reach(p, l, i + 1)
  }

  predicate Breaks(p: Policy, e: Entry) {
    !e.isDir && !p.Ignored(e.path) && e.info.Unreadable?
  }

  predicate Completes(p: Policy, l: Listing) {
    Reach(p, l, 0) == |l.entries|
  }

  /** What the first `n` entries of a listing show of one path. */
  function SightIn(p: Policy, l: Listing, n: nat, path: Path): Sight
    requires n <= |l.entries|
  {
    if n == 0 then Cut
    else if Eligible(p, l.entries[n - 1]) && l.entries[n - 1].path == path then
      Seen(l.entries[n - 1].info.stat, p.SentinelPresent(path, l.files))
    else SightIn(p, l, n - 1, path)
  }

  /** The pass comes to an entry of the path that is a visible file it can stat. */
  ghost predicate ShowsAt(p: Policy, l: Listing, n: nat, path: Path, i: nat) {
    && i < n && i < |l.entries| && l.entries[i].path == path && !l.entries[i].isDir && l.entries[i].info.Is?
    && (path == "" || path[0] != '.') && forall k | 0 <= k < |p.ignoreSuffixes| :: !EndsIn(p, path, p.ignoreSuffixes[k])
  }

  predicate EndsIn(p: Policy, path: Path, suffix: string) {
    exists n :: 0 <= n <= |p.lower(path)| && p.lower(path)[n..] == suffix
  }

  lemma SuffixIsAnEnd(p: Policy, path: Path, suffix: string)
    ensures EndsIn(p, path, suffix) <==> HasSuffix(p.lower(path), suffix)
  {
    var s := p.lower(path);
    if HasSuffix(s, suffix) {
      assert s[|s| - |suffix|..] == suffix;
    }
  }

  /** Where a pass stops short: at a visible file whose stat fails. */
  lemma {:induction false} ReachIs(p: Policy, l: Listing, i: nat)
    requires i <= |l.entries|
    ensures forall j | i <= j < Reach(p, l, i) :: !Breaks(p, l.entries[j])
    ensures Reach(p, l, i) < |l.entries| ==> Breaks(p, l.entries[Reach(p, l, i)])
    decreases |l.entries| - i
  {
    if i < |l.entries| && !Breaks(p, l.entries[i]) {
      ReachIs(p, l, i + 1);
    }
  }

  lemma ShowsIsEligible(p: Policy, l: Listing, n: nat, path: Path, i: nat)
    ensures ShowsAt(p, l, n, path, i) <==>
      i < n && i < |l.entries| && l.entries[i].path == path && Eligible(p, l.entries[i])
  {
    forall k | 0 <= k < |p.ignoreSuffixes|
      ensures EndsIn(p, path, p.ignoreSuffixes[k]) <==> HasSuffix(p.lower(path), p.ignoreSuffixes[k])
    {
      SuffixIsAnEnd(p, path, p.ignoreSuffixes[k]);
    }
  }

  /** What a pass sees of a path: the stat of its entry, and whether a file named after it
      with the sentinel suffix is there. */
  lemma {:induction false} SightIs(p: Policy, l: Listing, n: nat, path: Path)
    requires n <= |l.entries|
    ensures SightIn(p, l, n, path).Seen? <==> exists i: nat :: ShowsAt(p, l, n, path, i)
    ensures DistinctPaths(l.entries) ==> forall i: nat | ShowsAt(p, l, n, path, i) ::
      SightIn(p, l, n, path) ==
        Seen(l.entries[i].info.stat, p.sentinelSuffix != "" && path + p.sentinelSuffix in l.files)
  {
    if n > 0 {
      SightIs(p, l, n - 1, path);
      forall i: nat ensures ShowsAt(p, l, n, path, i) <==>
        ShowsAt(p, l, n - 1, path, i) || (i == n - 1 && l.entries[i].path == path && Eligible(p, l.entries[i]))
      {
        ShowsIsEligible(p, l, n, path, i);
        ShowsIsEligible(p, l, n - 1, path, i);
      }
    }
  }

  /** One event as one path sees it: a pass that breaks off says nothing about the paths
      it did not come to. */
  function Share(p: Policy, e: Event, path: Path): seq<Sight> {
    match e
    case Scanned(l) =>
      var s := SightIn(p, l, Reach(p, l, 0), path);
      if Completes(p, l) || s.Seen? then [s] else []
    case Forgotten(q) => if q == path then [Cut] else []
  }

  /** One path's share of everything that happened. */
  function Project(p: Policy, h: seq<Event>, path: Path): seq<Sight> {
    if h == [] then [] else Project(p, h[..|h| - 1], path) + Share(p, h[|h| - 1], path)
  }

  function Lookup(seen: map<Path, Observation>, path: Path): Option<Observation> {
    if path in seen then Some(seen[path]) else None
  }

  function After(p: Policy, known: Option<Observation>, s: Sight): Option<Observation> {
    if s.Cut? then None else Some(p.Observed(known, s.stat, s.sentinel))
  }

  class Scanner {
    const policy: Policy
    var seen: map<Path, Observation>
    ghost var history: seq<Event>

    constructor (policy: Policy)
      ensures this.policy == policy.Normal() && this.policy.quiet > 0
      ensures history == [] && Valid()
    {
      this.policy := policy.Normal();
      seen := map[];
      history := [];
    }

    /** The map holds, for each path, what its history adds up to. */
    ghost predicate Valid()
      reads this
    {
      policy.interval > 0 && forall path :: Tracks(path)
    }

    ghost predicate Tracks(path: Path)
      reads this
    {
      var h := Project(policy, history, path);
      Lookup(seen, path) == policy.Track(h, |h|)
    }

    method Forget(path: Path)
      requires Valid()
      modifies this
      ensures Valid() && history == old(history) + [Forgotten(path)]
    {
      ghost var before, past := seen, history;
      seen := seen - {path};
      history := history + [Forgotten(path)];
      forall q ensures Tracks(q) {
        assert Lookup(before, q) == policy.Track(Project(policy, past, q), |Project(policy, past, q)|) by {
          assert old(Tracks(q));
        }
        ProjectGrows(policy, past, Forgotten(path), q);
        if q == path {
          TrackGrows(policy, Project(policy, past, q), Cut);
        } else {
          assert Project(policy, past, q) + [] == Project(policy, past, q);
        }
      }
    }

    /** One pass. An unreadable directory is an error and changes nothing. A stat that
        fails is an error too and nothing is returned, but what was seen before it stays
        recorded. Otherwise what is returned is, for each path and once, what its history
        says it should be. */
    method Scan(dir: Option<Listing>) returns (r: Option<seq<Candidate>>)
      requires Valid()
      requires dir.Some? ==> DistinctPaths(dir.value.entries)
      modifies this
      ensures Valid() && (r.Some? <==> dir.Some? && Completes(policy, dir.value))
      ensures dir.None? ==> history == old(history) && seen == old(seen)
      ensures dir.Some? ==> history == old(history) + [Scanned(dir.value)]
      ensures dir.Some? ==> forall path ::
        r.Some? && Returned(r.value, path) <==> ReturnedAt(policy, history, |old(history)|, path)
      ensures r.Some? ==> Recorded(seen, r.value) && EachOnce(r.value)
    {
      if dir.None? {
        return None;
      }
      var l := dir.value;
      var ready, present := [], {};
      for i := 0 to |l.entries|
        invariant history == old(history) && Reach(policy, l, i) == Reach(policy, l, 0)
        invariant forall path :: ScannedSoFar(policy, l, i, path, old(seen), seen, ready, present)
        invariant Recorded(seen, ready) && EachOnce(ready)
      {
        var e := l.entries[i];
        if Breaks(policy, e) {
          history := history + [Scanned(l)];
          forall path ensures Tracks(path) {
            assert ScannedSoFar(policy, l, i, path, old(seen), seen, ready, present);
            assert old(Tracks(path));
            PassEnds(policy, old(history), l, path, old(seen));
          }
          return None;
        }
        ghost var was, done, there := seen, ready, present;
        NotYetSeen(policy, l, i);
        assert ScannedSoFar(policy, l, i, e.path, old(seen), was, done, there);
        if Eligible(policy, e) {
          present := present + {e.path};
          var c := Observe(e.path, e.info.stat, policy.SentinelPresent(e.path, l.files));
          if c.Some? {
            NewIsOnce(ready, c.value);
            ready := ready + [c.value];
          }
        }
        ghost var next := i + 1;
        forall path ensures ScannedSoFar(policy, l, next, path, old(seen), seen, ready, present) {
          assert ScannedSoFar(policy, l, i, path, old(seen), was, done, there);
          ReturnedGrows(done, ready, path);
        }
      }
      ghost var all := seen;
      StillRecorded(policy, l, old(seen), all, ready, present);
      seen := map path | path in seen && path in present :: seen[path];
      history := history + [Scanned(l)];
      assert history[..|old(history)|] == old(history) && history[..|history|] == history;
      forall path
        ensures Tracks(path)
        ensures Returned(ready, path) <==> ReturnedAt(policy, history, |old(history)|, path)
      {
        assert ScannedSoFar(policy, l, |l.entries|, path, old(seen), all, ready, present);
        assert old(Tracks(path));
        PassEnds(policy, old(history), l, path, old(seen));
      }
      r := Some(ready);
    }

    /** One file of a pass. */
    method Observe(path: Path, stat: Stat, sentinel: bool) returns (c: Option<Candidate>)
      modifies this
      ensures history == old(history)
      ensures seen == old(seen)[path := policy.Observed(Lookup(old(seen), path), stat, sentinel)]
      ensures c == if policy.Emits(Lookup(old(seen), path), stat, sentinel)
        then Some(Candidate(path, stat, seen[path].stableFor)) else None
    {
      c := None;
      if path !in seen {
        seen := seen[path := Observation(stat, 0, false)];
        return;
      }
      var obs := seen[path];
      if obs.emitted {
        return;
      }
      if obs.stat != stat {
        seen := seen[path := obs.(stat := stat, stableFor := 0)];
        return;
      }
      obs := obs.(stableFor := obs.stableFor + policy.interval);
      if sentinel || obs.stableFor >= policy.quiet {
        obs := obs.(emitted := true);
        c := Some(Candidate(path, stat, obs.stableFor));
      }
      seen := seen[path := obs];
    }
  }

  /** What a pass, complete or not, adds to one path's history. */
  lemma PassEnds(p: Policy, past: seq<Event>, l: Listing, path: Path, before: map<Path, Observation>)
    requires Lookup(before, path) == p.Track(Project(p, past, path), |Project(p, past, path)|)
    ensures var s, h, n :=
        SightIn(p, l, Reach(p, l, 0), path), Project(p, past + [Scanned(l)], path), |Project(p, past, path)|;
      if Completes(p, l) || s.Seen? then
        && |h| == n + 1
        && p.Track(h, |h|) == After(p, Lookup(before, path), s)
        && (p.EmitsAt(h, n) <==> s.Seen? && p.Emits(Lookup(before, path), s.stat, s.sentinel))
      else h == Project(p, past, path)
  {
    var was, s := Project(p, past, path), SightIn(p, l, Reach(p, l, 0), path);
    ProjectGrows(p, past, Scanned(l), path);
    if Completes(p, l) || s.Seen? {
      TrackGrows(p, was, s);
      TrackOfPrefix(p, was, s, |was|);
    } else {
      assert was + [] == was;
    }
  }

  // ---- what is returned, event by event ----

  /** Event `i` is a pass in which the path is marked as emitted. */
  ghost predicate MarkedAt(p: Policy, hist: seq<Event>, i: nat, path: Path) {
    && i < |hist|
    && var h, t := Project(p, hist[..i + 1], path), |Project(p, hist[..i], path)|;
       t < |h| && p.EmitsAt(h, t)
  }

  /** The pass that marks it returns it only if it is not broken off. */
  ghost predicate ReturnedAt(p: Policy, hist: seq<Event>, i: nat, path: Path) {
    MarkedAt(p, hist, i, path) && hist[i].Scanned? && Completes(p, hist[i].listing)
  }

  ghost predicate ReadyAt(p: Policy, hist: seq<Event>, i: nat, path: Path) {
    && i < |hist|
    && var h, t := Project(p, hist[..i + 1], path), |Project(p, hist[..i], path)|;
       t < |h| && h[t].Seen? && p.Ready(h, t)
  }

  /** Event `i` ends the current sighting of the path. */
  ghost predicate CutAt(p: Policy, hist: seq<Event>, i: nat, path: Path) {
    i < |hist| && Share(p, hist[i], path) == [Cut]
  }

  lemma OneShareAt(p: Policy, hist: seq<Event>, i: nat, path: Path)
    requires i < |hist|
    ensures Project(p, hist[..i + 1], path) == Project(p, hist[..i], path) + Share(p, hist[i], path)
    ensures |Share(p, hist[i], path)| <= 1
  {
    assert hist[..i + 1] == hist[..i] + [hist[i]];
    ProjectGrows(p, hist[..i], hist[i], path);
  }

  lemma {:induction false} ProjectOfPrefix(p: Policy, hist: seq<Event>, i: nat, path: Path)
    requires i <= |hist|
    ensures Project(p, hist[..i], path) <= Project(p, hist, path)
    decreases |hist| - i
  {
    if i == |hist| {
      assert hist[..i] == hist;
    } else {
      OneShareAt(p, hist, i, path);
      ProjectOfPrefix(p, hist, i + 1, path);
    }
  }

  lemma {:induction false} TrackAgrees(p: Policy, g: seq<Sight>, h: seq<Sight>, n: nat)
    requires n <= |g| && g <= h
    ensures p.Track(g, n) == p.Track(h, n)
  {
    if n > 0 {
      TrackAgrees(p, g, h, n - 1);
    }
  }

  lemma SightsAgree(p: Policy, g: seq<Sight>, h: seq<Sight>, t: nat)
    requires t < |g| && g <= h
    ensures p.EmitsAt(g, t) <==> p.EmitsAt(h, t)
    ensures p.Ready(g, t) <==> p.Ready(h, t)
  {
    TrackAgrees(p, g, h, t);
    forall k: nat ensures p.LongEnough(g, t, k) <==> p.LongEnough(h, t, k) {
      assert p.SameRun(g, t, k) <==> p.SameRun(h, t, k);
    }
  }

  /** Which of a path's sights an event is. */
  lemma PlaceOfEvent(p: Policy, hist: seq<Event>, i: nat, path: Path)
    requires i < |hist|
    ensures var h, t := Project(p, hist, path), |Project(p, hist[..i], path)|;
      && (MarkedAt(p, hist, i, path) <==> Share(p, hist[i], path) != [] && t < |h| && p.EmitsAt(h, t))
      && (ReadyAt(p, hist, i, path) <==> Share(p, hist[i], path) != [] && t < |h| && h[t].Seen? && p.Ready(h, t))
      && (CutAt(p, hist, i, path) <==> Share(p, hist[i], path) != [] && t < |h| && h[t].Cut?)
  {
    var g, h, t := Project(p, hist[..i + 1], path), Project(p, hist, path), |Project(p, hist[..i], path)|;
    OneShareAt(p, hist, i, path);
    ProjectOfPrefix(p, hist, i + 1, path);
    if t < |g| {
      SightsAgree(p, g, h, t);
    }
  }

  lemma {:induction false} EventOfPlace(p: Policy, hist: seq<Event>, path: Path, t: nat) returns (i: nat)
    requires t < |Project(p, hist, path)|
    ensures i < |hist| && |Project(p, hist[..i], path)| == t && Share(p, hist[i], path) != []
  {
    i := |hist| - 1;
    OneShareAt(p, hist, i, path);
    assert hist[..i + 1] == hist;
    if t < |Project(p, hist[..i], path)| {
      i := EventOfPlace(p, hist[..i], path, t);
      assert hist[..|hist| - 1][..i] == hist[..i];
    }
  }

  lemma PlacesAreOrdered(p: Policy, hist: seq<Event>, path: Path, i: nat, j: nat)
    requires i < |hist| && j < |hist| && Share(p, hist[i], path) != []
    requires |Project(p, hist[..i], path)| < |Project(p, hist[..j], path)|
    ensures i < j
  {
    if j <= i {
      assert hist[..i][..j] == hist[..j];
      ProjectOfPrefix(p, hist[..i], j, path);
    }
  }

  lemma PlacesFollow(p: Policy, hist: seq<Event>, path: Path, i: nat, j: nat)
    requires i < j < |hist| && Share(p, hist[i], path) != []
    ensures |Project(p, hist[..i], path)| < |Project(p, hist[..j], path)|
  {
    OneShareAt(p, hist, i, path);
    assert hist[..j][..i + 1] == hist[..i + 1];
    ProjectOfPrefix(p, hist[..j], i + 1, path);
  }

  /** The path was ready earlier in the same sighting. */
  ghost predicate ReadyBefore(p: Policy, h: seq<Sight>, t: nat) {
    t < |h| && exists u: nat :: u < t && p.SameSighting(h, u, t) && p.Ready(h, u)
  }

  /** A pass returns a path if and only if it is not broken off and is the first in the
      current sighting at which the path is ready. */
  lemma ReturnedExactlyWhen(p: Policy, hist: seq<Event>, i: nat, path: Path)
    requires i < |hist| && p.interval > 0
    ensures ReturnedAt(p, hist, i, path) <==>
      && hist[i].Scanned? && Completes(p, hist[i].listing) && ReadyAt(p, hist, i, path)
      && !ReadyBefore(p, Project(p, hist[..i + 1], path), |Project(p, hist[..i], path)|)
  {
    var h, t := Project(p, hist[..i + 1], path), |Project(p, hist[..i], path)|;
    if t < |h| {
      EmitsAtFirstReady(p, h, t);
    }
  }

  /** A pass that breaks off ends the service, so a service that still runs has completed
      every pass. */
  ghost predicate StillRunning(p: Policy, hist: seq<Event>) {
    forall i | 0 <= i < |hist| && hist[i].Scanned? :: Completes(p, hist[i].listing)
  }

  lemma MarkedIsReturned(p: Policy, hist: seq<Event>, i: nat, path: Path)
    requires StillRunning(p, hist) && i < |hist|
    ensures MarkedAt(p, hist, i, path) <==> ReturnedAt(p, hist, i, path)
  {
    OneShareAt(p, hist, i, path);
  }

  /** In a service that still runs, a sighting that ends in enough equal observations has
      had its path returned. */
  lemma ReturnedOnceQuiet(p: Policy, hist: seq<Event>, path: Path, u: nat, t: nat, k: nat)
    requires p.interval > 0 && StillRunning(p, hist)
    requires var h := Project(p, hist, path);
      && t < |h| && p.SameSighting(h, u, t) && (u == 0 || h[u - 1].Cut?)
      && k >= 1 && p.SameRun(h, t, k) && k * p.interval >= p.quiet
    ensures exists i: nat :: ReturnedAt(p, hist, i, path) && u <= |Project(p, hist[..i], path)| <= t
  {
    var h := Project(p, hist, path);
    EmittedOnceQuiet(p, h, u, t, k);
    var v: nat :| u <= v <= t && p.EmitsAt(h, v);
    var i := EventOfPlace(p, hist, path, v);
    PlaceOfEvent(p, hist, i, path);
    MarkedIsReturned(p, hist, i, path);
  }

  lemma CutBetween(p: Policy, hist: seq<Event>, i: nat, m: nat, path: Path) returns (c: nat)
    requires p.interval > 0 && i < m && ReturnedAt(p, hist, i, path) && ReturnedAt(p, hist, m, path)
    ensures i < c < m && CutAt(p, hist, c, path) && ReadyAt(p, hist, m, path)
  {
    var h := Project(p, hist, path);
    var t, u := |Project(p, hist[..i], path)|, |Project(p, hist[..m], path)|;
    PlaceOfEvent(p, hist, i, path);
    PlaceOfEvent(p, hist, m, path);
    PlacesFollow(p, hist, path, i, m);
    OneEmissionPerSighting(p, h, t, u);
    EmitsAtFirstReady(p, h, u);
    var j :| t < j < u && h[j].Cut?;
    c := EventOfPlace(p, hist, path, j);
    PlaceOfEvent(p, hist, c, path);
    PlacesAreOrdered(p, hist, path, i, c);
    PlacesAreOrdered(p, hist, path, c, m);
  }

  /** The sighting that holds `v` begins after the last cut before it. */
  lemma {:induction false} StartOfSighting(p: Policy, h: seq<Sight>, j: nat, v: nat) returns (u: nat)
    requires j < v < |h| && h[j].Cut? && h[v].Seen?
    ensures j < u <= v && p.SameSighting(h, u, v) && h[u - 1].Cut?
  {
    if h[v - 1].Cut? {
      u := v;
    } else {
      u := StartOfSighting(p, h, j, v - 1);
    }
  }

  lemma ReturnedAfterCut(p: Policy, hist: seq<Event>, c: nat, m: nat, path: Path) returns (n: nat)
    requires p.interval > 0 && StillRunning(p, hist) && c < m
    requires CutAt(p, hist, c, path) && ReadyAt(p, hist, m, path)
    ensures c < n && ReturnedAt(p, hist, n, path)
  {
    var h := Project(p, hist, path);
    var j, v := |Project(p, hist[..c], path)|, |Project(p, hist[..m], path)|;
    PlaceOfEvent(p, hist, c, path);
    PlaceOfEvent(p, hist, m, path);
    PlacesFollow(p, hist, path, c, m);
    var u := StartOfSighting(p, h, j, v);
    LeastReady(p, h, u, v);
    var x: nat :| u <= x <= v && p.EmitsAt(h, x);
    n := EventOfPlace(p, hist, path, x);
    PlaceOfEvent(p, hist, n, path);
    MarkedIsReturned(p, hist, n, path);
    PlacesAreOrdered(p, hist, path, c, n);
  }

  ghost predicate EachOnce(ready: seq<Candidate>) {
    forall i, j | 0 <= i < j < |ready| :: ready[i].path != ready[j].path
  }

  lemma NewIsOnce(ready: seq<Candidate>, c: Candidate)
    requires EachOnce(ready) && !Returned(ready, c.path)
    ensures EachOnce(ready + [c])
  {
    assert forall i | 0 <= i < |ready| :: ready[i] in ready;
  }

  lemma {:induction false} NotSeenBefore(p: Policy, l: Listing, n: nat, i: nat)
    requires n <= i < |l.entries| && DistinctPaths(l.entries)
    ensures SightIn(p, l, n, l.entries[i].path).Cut?
  {
    if n > 0 {
      NotSeenBefore(p, l, n - 1, i);
    }
  }

  lemma NotYetSeen(p: Policy, l: Listing, i: nat)
    requires i < |l.entries| && DistinctPaths(l.entries)
    ensures SightIn(p, l, i, l.entries[i].path).Cut?
  {
    NotSeenBefore(p, l, i, i);
  }

  lemma ReturnedGrows(before: seq<Candidate>, after: seq<Candidate>, path: Path)
    requires after == before || exists c :: after == before + [c]
    ensures Returned(before, path) ==> Returned(after, path)
    ensures Returned(after, path) ==>
      Returned(before, path) || (|after| > |before| && after[|before|].path == path)
    ensures |after| > |before| && after[|before|].path == path ==> Returned(after, path)
  {
    if |after| > |before| {
      assert after[|before|] in after;
    }
  }

  /** What is returned is what the map now holds as emitted. */
  ghost predicate Recorded(seen: map<Path, Observation>, ready: seq<Candidate>) {
    forall c | c in ready :: c.path in seen && seen[c.path] == Observation(c.stat, c.stability, true)
  }

  lemma StillRecorded(
    p: Policy, l: Listing, before: map<Path, Observation>, all: map<Path, Observation>, ready: seq<Candidate>,
    present: set<Path>)
    requires forall path :: ScannedSoFar(p, l, |l.entries|, path, before, all, ready, present)
    requires Recorded(all, ready)
    ensures Recorded(map path | path in all && path in present :: all[path], ready)
  {
    forall c | c in ready ensures c.path in present {
      assert ScannedSoFar(p, l, |l.entries|, c.path, before, all, ready, present);
      assert Returned(ready, c.path);
    }
  }

  ghost predicate Returned(ready: seq<Candidate>, path: Path) {
    exists c :: c in ready && c.path == path
  }

  /** The first `n` entries have been dealt with. */
  ghost predicate ScannedSoFar(
    p: Policy, l: Listing, n: nat, path: Path, before: map<Path, Observation>, seen: map<Path, Observation>,
    ready: seq<Candidate>, present: set<Path>)
    requires n <= |l.entries|
  {
    var s := SightIn(p, l, n, path);
    && (path in present <==> s.Seen?)
    && Lookup(seen, path) == (if s.Seen? then After(p, Lookup(before, path), s) else Lookup(before, path))
    && (Returned(ready, path) <==> s.Seen? && p.Emits(Lookup(before, path), s.stat, s.sentinel))
  }

  lemma ProjectGrows(p: Policy, h: seq<Event>, e: Event, path: Path)
    ensures Project(p, h + [e], path) == Project(p, h, path) + Share(p, e, path)
  {
    assert (h + [e])[..|h|] == h;
  }

  lemma {:induction false} TrackOfPrefix(p: Policy, h: seq<Sight>, s: Sight, n: nat)
    requires n <= |h|
    ensures p.Track(h + [s], n) == p.Track(h, n)
  {
    if n > 0 {
      TrackOfPrefix(p, h, s, n - 1);
    }
  }

  lemma TrackGrows(p: Policy, h: seq<Sight>, s: Sight)
    ensures p.Track(h + [s], |h| + 1) == After(p, p.Track(h, |h|), s)
  {
    TrackOfPrefix(p, h, s, |h|);
  }
}