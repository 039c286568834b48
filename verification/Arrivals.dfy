/** From a stable file to a published arrival (go/internal/arrival/dedupe.go,
    processor.go): store, check, record, publish, with several Portwatch instances racing
    on one arrival table whose unique constraint is the only arbiter. */
module Arrivals {
  import opened Basics
  import Scanner

  /** One file being handled; `sha` is the hash of its content, computed while storing. */
  datatype Arrival = Arrival(id: string, sha: string, name: string, detectedAt: int)

  datatype Verdict = NEW | DUPLICATE | REDELIVERY

  datatype Decision = Decision(verdict: Verdict, priorId: string, priorName: string, seenCount: nat) {
    predicate Suppress() {
      verdict == DUPLICATE || verdict == REDELIVERY
    }
  }

  type Rows = seq<Arrival>

  predicate HasContent(rows: Rows, sha: string) {
    exists i :: 0 <= i < |rows| && rows[i].sha == sha
  }

  predicate HasKey(rows: Rows, sha: string, name: string) {
    exists i :: 0 <= i < |rows| && rows[i].sha == sha && rows[i].name == name
  }

  /** What a check must conclude about content arriving under a name. */
  function Judgement(rows: Rows, sha: string, name: string): Verdict {
    if HasKey(rows, sha, name) then DUPLICATE else if HasContent(rows, sha) then REDELIVERY else NEW
  }

  /** SELECT … WHERE content_sha256 = sha ORDER BY detected_at ASC. */
  function Matching(rows: Rows, sha: string): seq<Arrival> {
    if rows == [] then []
    else
      var rest, last := Matching(rows[..|rows| - 1], sha), rows[|rows| - 1];
      if last.sha == sha then InsertByTime(rest, last) else rest
  }

  function InsertByTime(s: seq<Arrival>, a: Arrival): (r: seq<Arrival>)
    ensures |r| == |s| + 1
    decreases |s|
  {
    if s == [] then [a]
    else if s[0].detectedAt <= a.detectedAt then [s[0]] + InsertByTime(s[1..], a)
    else [a] + s
  }

  ghost predicate ByTime(s: seq<Arrival>) {
    forall i, j | 0 <= i < j < |s| :: s[i].detectedAt <= s[j].detectedAt
  }

  lemma {:induction false} InsertKeepsTime(s: seq<Arrival>, a: Arrival)
    requires ByTime(s)
    ensures ByTime(InsertByTime(s, a))
    ensures forall x :: x in InsertByTime(s, a) <==> x == a || x in s
    decreases |s|
  {
    if s != [] && s[0].detectedAt <= a.detectedAt {
      InsertKeepsTime(s[1..], a);
      var r := InsertByTime(s, a);
      assert s == [s[0]] + s[1..];
      forall i, j | 0 <= i < j < |r| ensures r[i].detectedAt <= r[j].detectedAt {
        if i == 0 {
          assert r[j] in InsertByTime(s[1..], a);
        }
      }
    } else {
      assert InsertByTime(s, a) == [a] + s;
    }
  }

  lemma {:induction false} MatchingHolds(rows: Rows, sha: string)
    ensures ByTime(Matching(rows, sha))
    ensures forall x :: x in Matching(rows, sha) <==> x in rows && x.sha == sha
  {
    if rows != [] {
      var init := rows[..|rows| - 1];
      MatchingHolds(init, sha);
      assert rows == init + [rows[|rows| - 1]];
      if rows[|rows| - 1].sha == sha {
        InsertKeepsTime(Matching(init, sha), rows[|rows| - 1]);
      }
    }
  }

  function Rowset(rows: Rows, sha: string): set<int> {
    set i | 0 <= i < |rows| && rows[i].sha == sha
  }

  lemma {:induction false} MatchingCounts(rows: Rows, sha: string)
    ensures |Matching(rows, sha)| == |Rowset(rows, sha)|
  {
    if rows != [] {
      var n := |rows| - 1;
      MatchingCounts(rows[..n], sha);
      assert Rowset(rows, sha) == Rowset(rows[..n], sha) + if rows[n].sha == sha then {n} else {};
    }
  }

  class SQLDeduper {
    var rows: Rows

    constructor ()
      ensures rows == []
    {
      rows := [];
    }

    method Check(sha: string, name: string) returns (d: Decision)
      ensures d.verdict == Judgement(rows, sha, name)
      ensures d.verdict == DUPLICATE <==> exists i :: 0 <= i < |rows| && rows[i].sha == sha && rows[i].name == name
      ensures d.verdict == NEW <==> forall i | 0 <= i < |rows| :: rows[i].sha != sha
      ensures d.seenCount == |Rowset(rows, sha)| + 1
      ensures d.Suppress() ==>
        exists first :: first in rows && first.sha == sha && first.id == d.priorId && first.name == d.priorName
          && forall r | r in rows && r.sha == sha :: first.detectedAt <= r.detectedAt
    {
      var found := Matching(rows, sha);
      MatchingHolds(rows, sha);
      MatchingCounts(rows, sha);
      var first, count, sameNameSeen := ("", ""), 0, false;
      for i := 0 to |found|
        invariant count == i && (i > 0 ==> first == (found[0].id, found[0].name))
        invariant sameNameSeen <==> exists k :: 0 <= k < i && found[k].name == name
      {
        if count == 0 {
          first := (found[i].id, found[i].name);
        }
        if found[i].name == name {
          sameNameSeen := true;
        }
        count := count + 1;
      }
      VerdictFromMatching(rows, sha, name);
      if count == 0 {
        d := Decision(NEW, "", "", 1);
      } else {
        assert found[0] in rows;
        d := Decision(if sameNameSeen then DUPLICATE else REDELIVERY, first.0, first.1, count + 1);
      }
    }

    /** False when the unique constraint on (content, name) rejected the row. */
    method Record(a: Arrival) returns (inserted: bool)
      modifies this
      ensures inserted <==> !HasKey(old(rows), a.sha, a.name)
      ensures rows == if inserted then old(rows) + [a] else old(rows)
    {
      for i := 0 to |rows|
        invariant forall k | 0 <= k < i :: !(rows[k].sha == a.sha && rows[k].name == a.name)
        invariant rows == old(rows)
      {
        if rows[i].sha == a.sha && rows[i].name == a.name {
          return false;
        }
      }
      rows := rows + [a];
      inserted := true;
    }

    /** What other instances record between two statements of this one. */
    method Others(bs: seq<Arrival>)
      modifies this
      ensures rows == Joined(old(rows), bs)
    {
      for i := 0 to |bs|
        invariant rows == Joined(old(rows), bs[..i])
      {
        var inserted := Record(bs[i]);
        assert bs[..i + 1][..i] == bs[..i];
      }
      assert bs[..|bs|] == bs;
    }
  }

  lemma VerdictFromMatching(rows: Rows, sha: string, name: string)
    ensures var found := Matching(rows, sha);
      && (found == [] <==> !HasContent(rows, sha))
      && ((exists k :: 0 <= k < |found| && found[k].name == name) <==> HasKey(rows, sha, name))
  {
    var found := Matching(rows, sha);
    MatchingHolds(rows, sha);
    if i :| 0 <= i < |rows| && rows[i].sha == sha {
      assert rows[i] in found;
    }
    if found != [] {
      assert found[0] in rows;
    }
    if i :| 0 <= i < |rows| && rows[i].sha == sha && rows[i].name == name {
      assert rows[i] in found;
    }
    if k :| 0 <= k < |found| && found[k].name == name {
      assert found[k] in rows;
    }
  }

  // ---- one instance handling one file ----

  datatype Phase = Stored(a: Arrival) | Checked(a: Arrival) | Recorded(a: Arrival)

  type Worker = nat

  /** The object store, the table, the published log, and what each instance is at. */
  datatype System = System(stored: set<Arrival>, rows: Rows, published: seq<Arrival>, at: map<Worker, Phase>)

  datatype Action =
    | Put(w: Worker, a: Arrival)
    | Check(w: Worker)
    | Insert(w: Worker)
    | Publish(w: Worker)
    | Crash(w: Worker)

  function Idle(sys: System, w: Worker): System {
    sys.(at := sys.at - {w})
  }

  function Act(sys: System, x: Action): System {
    match x
    case Put(w, a) =>
      if w in sys.at then sys else sys.(stored := sys.stored + {a}, at := sys.at[w := Stored(a)])
    case Check(w) =>
      if w !in sys.at || !sys.at[w].Stored? then sys
      else if Judgement(sys.rows, sys.at[w].a.sha, sys.at[w].a.name) == NEW
      then sys.(at := sys.at[w := Checked(sys.at[w].a)])
      else Idle(sys, w)
    case Insert(w) =>
      if w !in sys.at || !sys.at[w].Checked? then sys
      else if HasKey(sys.rows, sys.at[w].a.sha, sys.at[w].a.name) then Idle(sys, w)
      else sys.(rows := sys.rows + [sys.at[w].a], at := sys.at[w := Recorded(sys.at[w].a)])
    case Publish(w) =>
      if w !in sys.at || !sys.at[w].Recorded? then sys
      else Idle(sys.(published := sys.published + [sys.at[w].a]), w)
    case Crash(w) => Idle(sys, w)
  }

  function Play(sys: System, xs: seq<Action>): System
    decreases |xs|
  {
    if xs == [] then sys else Play(Act(sys, xs[0]), xs[1..])
  }

  const EMPTY := System({}, [], [], map[])

  // ---- every interleaving, every crash ----

  ghost predicate SameKey(a: Arrival, b: Arrival) {
    a.sha == b.sha && a.name == b.name
  }

  ghost predicate DistinctKeys(rows: Rows) {
    forall i, j | 0 <= i < j < |rows| :: !SameKey(rows[i], rows[j])
  }

  /** Everything published was recorded and stored first, once. */
  ghost predicate PublishedOnce(sys: System) {
    && DistinctKeys(sys.published)
    && forall a | a in sys.published :: a in sys.rows && a in sys.stored
  }

  /** Where an instance stands agrees with the shared state. */
  ghost predicate InPlace(sys: System, w: Worker) {
    w in sys.at ==>
      && sys.at[w].a in sys.stored
      && (sys.at[w].Recorded? ==>
            && sys.at[w].a in sys.rows
            && forall p | p in sys.published :: !SameKey(p, sys.at[w].a))
  }

  /** No two instances are about to publish under one key. */
  ghost predicate OneWriterPerKey(sys: System) {
    forall v, w | v in sys.at && w in sys.at && v != w && sys.at[v].Recorded? && sys.at[w].Recorded? ::
      !SameKey(sys.at[v].a, sys.at[w].a)
  }

  ghost predicate Invariant(sys: System) {
    && PublishedOnce(sys) && DistinctKeys(sys.rows) && OneWriterPerKey(sys)
    && forall w: Worker :: InPlace(sys, w)
  }

  lemma IdlePreserves(sys: System, w: Worker)
    requires Invariant(sys)
    ensures Invariant(Idle(sys, w))
  {
    forall v: Worker ensures InPlace(Idle(sys, w), v) {
      assert InPlace(sys, v);
    }
  }

  lemma InsertPreserves(sys: System, w: Worker)
    requires Invariant(sys) && w in sys.at && sys.at[w].Checked?
    requires !HasKey(sys.rows, sys.at[w].a.sha, sys.at[w].a.name)
    ensures Invariant(Act(sys, Insert(w)))
  {
    var a, next := sys.at[w].a, Act(sys, Insert(w));
    assert InPlace(sys, w);
    forall b | b in sys.rows ensures !SameKey(a, b) {
      var i :| 0 <= i < |sys.rows| && sys.rows[i] == b;
    }
    forall v: Worker ensures InPlace(next, v) {
      assert InPlace(sys, v);
    }
    forall v | v in sys.at && v != w && sys.at[v].Recorded? ensures !SameKey(a, sys.at[v].a) {
      assert InPlace(sys, v);
    }
  }

  lemma PublishPreserves(sys: System, w: Worker)
    requires Invariant(sys) && w in sys.at && sys.at[w].Recorded?
    ensures Invariant(Act(sys, Publish(w)))
  {
    var a, next := sys.at[w].a, Act(sys, Publish(w));
    assert InPlace(sys, w);
    forall i | 0 <= i < |sys.published| ensures !SameKey(sys.published[i], a) {
      assert sys.published[i] in sys.published;
    }
    forall v: Worker ensures InPlace(next, v) {
      assert InPlace(sys, v);
    }
  }

  lemma ActPreserves(sys: System, x: Action)
    requires Invariant(sys)
    ensures Invariant(Act(sys, x))
  {
    if x.w in sys.at {
      IdlePreserves(sys, x.w);
    }
    match x {
      case Put(w, a) =>
        forall v: Worker ensures InPlace(Act(sys, x), v) {
          assert InPlace(sys, v);
        }
      case Check(w) =>
        forall v: Worker ensures InPlace(Act(sys, x), v) {
          assert InPlace(sys, v);
        }
      case Insert(w) =>
        if w in sys.at && sys.at[w].Checked? && !HasKey(sys.rows, sys.at[w].a.sha, sys.at[w].a.name) {
          InsertPreserves(sys, w);
        }
      case Publish(w) =>
        if w in sys.at && sys.at[w].Recorded? {
          PublishPreserves(sys, w);
        }
      case Crash(w) => IdlePreserves(sys, w);
    }
  }

  /** Under any interleaving of any number of instances and crashes: at most one arrival
      is published per content and filename, and each was stored and recorded before. */
  lemma {:induction false} PublishedOncePerKey(sys: System, xs: seq<Action>)
    requires Invariant(sys)
    ensures Invariant(Play(sys, xs))
    decreases |xs|
  {
    if xs != [] {
      ActPreserves(sys, xs[0]);
      PublishedOncePerKey(Act(sys, xs[0]), xs[1..]);
    }
  }

  /** From an empty system, whatever happens. */
  lemma NoInterleavingPublishesTwice(xs: seq<Action>)
    ensures PublishedOnce(Play(EMPTY, xs))
  {
    PublishedOncePerKey(EMPTY, xs);
  }

  // ---- what a crash loses ----

  /** The content is recorded, and no instance that holds it can still publish: it has yet
      to check, or its insert will be rejected. */
  ghost predicate Closed(sys: System, sha: string) {
    && HasContent(sys.rows, sha)
    && forall w | w in sys.at && sys.at[w].a.sha == sha :: Harmless(sys, w)
  }

  ghost predicate Harmless(sys: System, w: Worker)
    requires w in sys.at
  {
    sys.at[w].Stored? || (sys.at[w].Checked? && HasKey(sys.rows, sys.at[w].a.sha, sys.at[w].a.name))
  }

  ghost predicate NothingNew(before: System, after: System, sha: string) {
    forall a | a in after.published && a.sha == sha :: a in before.published
  }

  lemma RowsStay(sys: System, x: Action, sha: string, name: string)
    ensures HasContent(sys.rows, sha) ==> HasContent(Act(sys, x).rows, sha)
    ensures HasKey(sys.rows, sha, name) ==> HasKey(Act(sys, x).rows, sha, name)
  {
    assert forall i | 0 <= i < |sys.rows| :: Act(sys, x).rows[i] == sys.rows[i];
  }

  lemma ActStaysClosed(sys: System, x: Action, sha: string)
    requires Closed(sys, sha)
    ensures Closed(Act(sys, x), sha) && NothingNew(sys, Act(sys, x), sha)
  {
    var next := Act(sys, x);
    RowsStay(sys, x, sha, "");
    forall w | w in next.at && next.at[w].a.sha == sha ensures Harmless(next, w) {
      RowsStay(sys, x, sha, next.at[w].a.name);
      assert w in sys.at && w != x.w ==> Harmless(sys, w);
      assert x.w in sys.at && sys.at[x.w].a.sha == sha ==> Harmless(sys, x.w);
    }
    assert x.w in sys.at && sys.at[x.w].a.sha == sha ==> Harmless(sys, x.w);
  }

  /** From then on nothing with that content is ever published again. */
  lemma {:induction false} ClosedForGood(sys: System, xs: seq<Action>, sha: string)
    requires Closed(sys, sha)
    ensures NothingNew(sys, Play(sys, xs), sha)
    decreases |xs|
  {
    if xs != [] {
      ActStaysClosed(sys, xs[0], sha);
      ClosedForGood(Act(sys, xs[0]), xs[1..], sha);
    }
  }

  lemma PlayTwo(sys: System, x: Action, y: Action)
    ensures Play(sys, [x, y]) == Act(Act(sys, x), y)
  {
    assert [x, y][1..] == [y] && [y][1..] == [];
    assert Play(Act(sys, x), [y]) == Play(Act(Act(sys, x), y), [y][1..]);
  }

  lemma StillPublishes(sys: System, w: Worker)
    requires Invariant(sys) && w in sys.at && !sys.at[w].Stored? && !Harmless(sys, w)
    ensures !NothingNew(sys, Play(sys, [Insert(w), Publish(w)]), sys.at[w].a.sha)
    ensures Play(sys, [Insert(w), Publish(w)]).published == sys.published + [sys.at[w].a]
  {
    var a, inserted := sys.at[w].a, Act(sys, Insert(w));
    assert InPlace(sys, w);
    PlayTwo(sys, Insert(w), Publish(w));
    assert inserted.at[w] == Recorded(a);
    assert Act(inserted, Publish(w)).published == sys.published + [a];
    PublishedIsRecorded(sys);
    assert SameKey(a, a);
  }

  lemma PublishedIsRecorded(sys: System)
    requires PublishedOnce(sys)
    ensures forall p | p in sys.published :: HasKey(sys.rows, p.sha, p.name)
  {
    forall p | p in sys.published ensures HasKey(sys.rows, p.sha, p.name) {
      var i :| 0 <= i < |sys.rows| && sys.rows[i] == p;
    }
  }

  /** Recorded content can still be published if and only if it is not closed. */
  lemma PublishableExactlyWhenOpen(sys: System, sha: string)
    requires Invariant(sys) && HasContent(sys.rows, sha)
    ensures (exists xs :: !NothingNew(sys, Play(sys, xs), sha)) <==> !Closed(sys, sha)
  {
    if Closed(sys, sha) {
      forall xs ensures NothingNew(sys, Play(sys, xs), sha) {
        ClosedForGood(sys, xs, sha);
      }
    } else {
      var w :| w in sys.at && sys.at[w].a.sha == sha && !Harmless(sys, w);
      StillPublishes(sys, w);
    }
  }

  ghost predicate PublishedTwice(published: seq<Arrival>, sha: string) {
    exists i, j :: 0 <= i < j < |published| && published[i].sha == sha && published[j].sha == sha
  }

  lemma NothingNewNotTwice(before: seq<Arrival>, after: seq<Arrival>, sha: string)
    requires DistinctKeys(after) && PublishedTwice(after, sha)
    requires forall a | a in after && a.sha == sha :: a in before
    ensures PublishedTwice(before, sha)
  {
    var i, j :| 0 <= i < j < |after| && after[i].sha == sha && after[j].sha == sha;
    assert after[i] in before && after[j] in before;
    var k :| 0 <= k < |before| && before[k] == after[i];
    var l :| 0 <= l < |before| && before[l] == after[j];
    assert k != l;
    assert k < l ==> before[k].sha == sha && before[l].sha == sha;
  }

  /** Content that was published once is published a second time in some continuation if
      and only if it is not closed: if some instance holding it under another name is past
      its check. */
  lemma SecondPublicationExactlyWhenOpen(sys: System, sha: string)
    requires Invariant(sys) && !PublishedTwice(sys.published, sha)
    requires exists i :: 0 <= i < |sys.published| && sys.published[i].sha == sha
    ensures (exists xs :: PublishedTwice(Play(sys, xs).published, sha)) <==> !Closed(sys, sha)
  {
    var i :| 0 <= i < |sys.published| && sys.published[i].sha == sha;
    PublishedIsRecorded(sys);
    assert sys.published[i] in sys.published;
    KeyIsContent(sys.rows, sha, sys.published[i].name);
    if Closed(sys, sha) {
      forall xs ensures !PublishedTwice(Play(sys, xs).published, sha) {
        ClosedForGood(sys, xs, sha);
        PublishedOncePerKey(sys, xs);
        if PublishedTwice(Play(sys, xs).published, sha) {
          NothingNewNotTwice(sys.published, Play(sys, xs).published, sha);
        }
      }
    } else {
      var w :| w in sys.at && sys.at[w].a.sha == sha && !Harmless(sys, w);
      StillPublishes(sys, w);
      var after := Play(sys, [Insert(w), Publish(w)]).published;
      assert after[i].sha == sha && after[|sys.published|].sha == sha;
      assert PublishedTwice(after, sha);
    }
  }

  lemma KeyIsContent(rows: Rows, sha: string, name: string)
    requires HasKey(rows, sha, name)
    ensures HasContent(rows, sha)
  {}

  /** Why publishing last does not make a restart safe: the row that a crashed instance
      left behind makes every later check suppress the file, so it is never published. */
  lemma CrashBeforePublishLosesTheFile(sys: System, w: Worker, xs: seq<Action>)
    requires Invariant(sys) && w in sys.at && sys.at[w].Recorded?
    requires forall v | v in sys.at && v != w && sys.at[v].a.sha == sys.at[w].a.sha :: sys.at[v].Stored?
    requires forall p | p in sys.published :: p.sha != sys.at[w].a.sha
    ensures forall p | p in Play(sys, [Crash(w)] + xs).published :: p.sha != sys.at[w].a.sha
  {
    var sha := sys.at[w].a.sha;
    var crashed := Act(sys, Crash(w));
    assert InPlace(sys, w);
    var i :| 0 <= i < |sys.rows| && sys.rows[i] == sys.at[w].a;
    assert Closed(crashed, sha);
    assert ([Crash(w)] + xs)[1..] == xs;
    ClosedForGood(crashed, xs, sha);
  }

  // ---- one file at a time ----

  /** What other instances record meanwhile; the table refuses what it has. */
  function Joined(rows: Rows, bs: seq<Arrival>): Rows {
    if bs == [] then rows
    else
      var most, b := Joined(rows, bs[..|bs| - 1]), bs[|bs| - 1];
      if HasKey(most, b.sha, b.name) then most else most + [b]
  }

  /** Handling `a` up to its `n`-th step, with other instances recording `meanwhile` between
      its check and its insert. */
  function HandledBeside(sys: System, a: Arrival, n: nat, meanwhile: seq<Arrival>): System
    requires n <= 4
  {
    var s1 := if n >= 1 then Act(sys, Put(0, a)) else sys;
    var s2 := if n >= 2 then Act(s1, Check(0)) else s1;
    var mid := if n >= 2 then s2.(rows := Joined(s2.rows, meanwhile)) else s2;
    var s3 := if n >= 3 then Act(mid, Insert(0)) else mid;
    Idle(if n >= 4 then Act(s3, Publish(0)) else s3, 0)
  }

  /** What the steps come to. */
  lemma HandledBesideIs(sys: System, a: Arrival, n: nat, meanwhile: seq<Arrival>)
    requires sys.at == map[] && n <= 4
    ensures var end := HandledBeside(sys, a, n, meanwhile);
      var rows := if n >= 2 then Joined(sys.rows, meanwhile) else sys.rows;
      var isIn := n >= 3 && Judgement(sys.rows, a.sha, a.name) == NEW && !HasKey(rows, a.sha, a.name);
      && end.at == map[]
      && end.stored == (if n >= 1 then sys.stored + {a} else sys.stored)
      && end.rows == (if isIn then rows + [a] else rows)
      && end.published == (if isIn && n == 4 then sys.published + [a] else sys.published)
  {}

  /** The same with nobody else about. */
  function HandledUpTo(sys: System, a: Arrival, n: nat): System
    requires n <= 4
  {
    HandledBeside(sys, a, n, [])
  }

  datatype Attempt = Attempt(a: Arrival, steps: nat)

  ghost predicate Bounded(jobs: seq<Attempt>) {
    forall i | 0 <= i < |jobs| :: jobs[i].steps <= 4
  }

  function OneByOne(sys: System, jobs: seq<Attempt>): System
    requires Bounded(jobs)
    decreases |jobs|
  {
    if jobs == [] then sys else OneByOne(HandledUpTo(sys, jobs[0].a, jobs[0].steps), jobs[1..])
  }

  ghost predicate DistinctContent(rows: Rows) {
    forall i, j | 0 <= i < j < |rows| :: rows[i].sha != rows[j].sha
  }

  ghost predicate OncePerContent(sys: System) {
    && DistinctContent(sys.rows) && DistinctContent(sys.published)
    && forall a | a in sys.published :: a in sys.rows
  }

  lemma HandlingKeepsContentDistinct(sys: System, a: Arrival, n: nat)
    requires sys.at == map[] && OncePerContent(sys) && n <= 4
    ensures HandledUpTo(sys, a, n).at == map[] && OncePerContent(HandledUpTo(sys, a, n))
  {
    var next := HandledUpTo(sys, a, n);
    HandledBesideIs(sys, a, n, []);
    if Judgement(sys.rows, a.sha, a.name) == NEW && n >= 3 {
      assert next.rows == sys.rows + [a];
      assert forall b | b in sys.rows :: b.sha != a.sha;
      assert forall i | 0 <= i < |sys.published| :: sys.published[i] in sys.rows;
    } else {
      assert next.rows == sys.rows && next.published == sys.published;
    }
  }

  /** With no interleaving at most one arrival is published per content, whatever names
      it comes under and wherever each attempt breaks off. */
  lemma {:induction false} SequentiallyOncePerContent(sys: System, jobs: seq<Attempt>)
    requires sys.at == map[] && OncePerContent(sys) && Bounded(jobs)
    ensures OncePerContent(OneByOne(sys, jobs))
    decreases |jobs|
  {
    if jobs != [] {
      HandlingKeepsContentDistinct(sys, jobs[0].a, jobs[0].steps);
      SequentiallyOncePerContent(HandledUpTo(sys, jobs[0].a, jobs[0].steps), jobs[1..]);
    }
  }

  /** Interleaved, the same content does get out twice under two names: the constraint
      covers content and name together, so both inserts succeed once both checks have
      run before either. */
  lemma TwoNamesRace(sys: System, v: Worker, w: Worker)
    requires v in sys.at && w in sys.at && v != w && sys.at[v].Checked? && sys.at[w].Checked?
    requires sys.at[v].a.sha == sys.at[w].a.sha && sys.at[v].a.name != sys.at[w].a.name
    requires !HasContent(sys.rows, sys.at[v].a.sha)
    ensures Act(Act(Act(Act(sys, Insert(v)), Insert(w)), Publish(v)), Publish(w)).published
      == sys.published + [sys.at[v].a, sys.at[w].a]
  {
    var s1 := Act(sys, Insert(v));
    assert s1.rows == sys.rows + [sys.at[v].a];
    var s2 := Act(s1, Insert(w));
    assert s2.at[v] == Recorded(sys.at[v].a) && s2.at[w] == Recorded(sys.at[w].a);
  }

  lemma BothChecksCanPass(a: Arrival, b: Arrival)
    ensures Act(Act(Act(Act(EMPTY, Put(1, a)), Put(2, b)), Check(1)), Check(2))
      == System({a, b}, [], [], map[1 := Checked(a), 2 := Checked(b)])
  {}

  lemma {:induction false} PlayExtends(sys: System, xs: seq<Action>, x: Action)
    ensures Play(sys, xs + [x]) == Act(Play(sys, xs), x)
    decreases |xs|
  {
    if xs == [] {
      assert [x][1..] == [];
    } else {
      assert (xs + [x])[1..] == xs[1..] + [x];
      PlayExtends(Act(sys, xs[0]), xs[1..], x);
    }
  }

  ghost predicate Reached(sys: System) {
    exists xs :: Play(EMPTY, xs) == sys
  }

  lemma ReachedNext(sys: System, x: Action)
    requires Reached(sys)
    ensures Reached(Act(sys, x))
  {
    var xs :| Play(EMPTY, xs) == sys;
    PlayExtends(EMPTY, xs, x);
  }

  lemma ReachedAfterTwo(sys: System, x: Action, y: Action)
    requires Reached(sys)
    ensures Reached(Act(Act(sys, x), y))
  {
    ReachedNext(sys, x);
    ReachedNext(Act(sys, x), y);
  }

  /** And two instances starting from nothing get there. */
  lemma ContentGoesOutTwice(a: Arrival, b: Arrival)
    requires a.sha == b.sha && a.name != b.name
    ensures exists xs :: Play(EMPTY, xs).published == [a, b]
  {
    var puts := Act(Act(EMPTY, Put(1, a)), Put(2, b));
    var checks := Act(Act(puts, Check(1)), Check(2));
    var inserts := Act(Act(checks, Insert(1)), Insert(2));
    var end := Act(Act(inserts, Publish(1)), Publish(2));
    assert Play(EMPTY, []) == EMPTY;
    ReachedAfterTwo(EMPTY, Put(1, a), Put(2, b));
    ReachedAfterTwo(puts, Check(1), Check(2));
    ReachedAfterTwo(checks, Insert(1), Insert(2));
    ReachedAfterTwo(inserts, Publish(1), Publish(2));
    BothChecksCanPass(a, b);
    TwoNamesRace(checks, 1, 2);
    var xs :| Play(EMPTY, xs) == end;
  }

  // ---- the processor ----

  /** Where a handler's I/O fails, if anywhere. */
  datatype Fault = Never | AtStore | AtCheck | AtRecord | AtPublish | AtAudit

  /** How many of store, check, record and publish happen before the fault. */
  function StepsBefore(f: Fault): (n: nat)
    ensures n <= 4
  {
    match f
    case AtStore => 0
    case AtCheck => 1
    case AtRecord => 2
    case AtPublish => 3
    case AtAudit => 4
    case Never => 4
  }

  /** The check said NEW, the insert was first, and every step went through. */
  predicate GoesThrough(rows: Rows, a: Arrival, meanwhile: seq<Arrival>, fault: Fault) {
    fault.Never? && Judgement(rows, a.sha, a.name) == NEW && !HasKey(Joined(rows, meanwhile), a.sha, a.name)
  }

  class Processor {
    const deduper: SQLDeduper
    const scanner: Scanner.Scanner
    var stored: set<Arrival>
    var published: seq<Arrival>

    constructor (deduper: SQLDeduper, scanner: Scanner.Scanner)
      ensures this.deduper == deduper && this.scanner == scanner && stored == {} && published == []
    {
      this.deduper, this.scanner := deduper, scanner;
      stored, published := {}, [];
    }

    ghost function View(): System
      reads this, deduper
    {
      System(stored, deduper.rows, published, map[])
    }

    /** Store, check, record, publish, in that order. The path is forgotten only when all
        of it went through: a suppressed or failed file, or one that lost its insert to
        another instance, stays marked as emitted. */
    method Handle(a: Arrival, path: Scanner.Path, fault: Fault, meanwhile: seq<Arrival>) returns (ok: bool)
      requires scanner.Valid()
      modifies this, deduper, scanner
      ensures View() == HandledBeside(old(View()), a, StepsBefore(fault), meanwhile)
      ensures ok <==> HandlingSucceeds(old(deduper.rows), a, meanwhile, fault)
      ensures scanner.Valid()
      ensures scanner.history == old(scanner.history) +
        if GoesThrough(old(deduper.rows), a, meanwhile, fault) then [Scanner.Forgotten(path)] else []
    {
      HandledBesideIs(View(), a, StepsBefore(fault), meanwhile);
      if fault.AtStore? {
        return false;
      }
      stored := stored + {a};
      if fault.AtCheck? {
        return false;
      }
      var decision := deduper.Check(a.sha, a.name);
      deduper.Others(meanwhile);
      if decision.Suppress() {
        return !fault.AtAudit?;
      }
      if fault.AtRecord? {
        return false;
      }
      var inserted := deduper.Record(a);
      if !inserted {
        return true;
      }
      if fault.AtPublish? {
        return false;
      }
      published := published + [a];
      if fault.AtAudit? {
        return false;
      }
      scanner.Forget(path);
      ok := true;
    }
  }

  /** No step that is reached fails. */
  predicate HandlingSucceeds(rows: Rows, a: Arrival, meanwhile: seq<Arrival>, fault: Fault) {
    match fault
    case Never => true
    case AtStore => false
    case AtCheck => false
    case AtRecord => Judgement(rows, a.sha, a.name) != NEW
    case AtPublish => Judgement(rows, a.sha, a.name) != NEW || HasKey(Joined(rows, meanwhile), a.sha, a.name)
    case AtAudit => Judgement(rows, a.sha, a.name) == NEW && HasKey(Joined(rows, meanwhile), a.sha, a.name)
  }
}
