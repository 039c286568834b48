/** The in-process bus (go/internal/bus/memory.go): keys hashed to ordered partitions,
    fan-out to consumers, bounded replay to late ones. The hash is an arbitrary function;
    a consumer is an entry of the bus's subscriber list. */
module Bus {
  import opened Basics

  const BUFFER := 1024

  datatype Post = Post(topic: string, key: string, value: string)

  datatype Message = Message(post: Post, partition: nat, offset: nat)

  type Log = map<string, map<nat, seq<Message>>>

  function Stored(log: Log, t: string, p: nat): seq<Message> {
    if t in log && p in log[t] then log[t][p] else []
  }

  function WithKey(ms: seq<Message>, t: string, k: string): seq<Post> {
    if ms == [] then []
    else
      var x := ms[|ms| - 1].post;
      WithKey(ms[..|ms| - 1], t, k) + if x.topic == t && x.key == k then [x] else []
  }

  function PublishedWithKey(h: seq<Post>, t: string, k: string): seq<Post> {
    if h == [] then []
    else
      var x := h[|h| - 1];
      PublishedWithKey(h[..|h| - 1], t, k) + if x.topic == t && x.key == k then [x] else []
  }

  lemma WithKeyGrows(ms: seq<Message>, m: Message, t: string, k: string)
    ensures WithKey(ms + [m], t, k) == WithKey(ms, t, k) + if m.post.topic == t && m.post.key == k then [m.post] else []
  {
    assert (ms + [m])[..|ms|] == ms;
  }

  lemma {:induction false} WithKeySplits(a: seq<Message>, b: seq<Message>, t: string, k: string)
    ensures WithKey(a + b, t, k) == WithKey(a, t, k) + WithKey(b, t, k)
  {
    if b == [] {
      assert a + b == a;
    } else {
      assert (a + b)[..|a + b| - 1] == a + b[..|b| - 1];
      WithKeySplits(a, b[..|b| - 1], t, k);
    }
  }

  /** `slot` is the hash of a key modulo the number of partitions. */
  datatype Router = Router(partitions: nat, slot: string -> nat) {
    ghost predicate Valid() {
      partitions > 0 && forall k :: slot(k) < partitions
    }

    function PartitionFor(key: string): (p: nat)
      requires Valid()
      ensures p < partitions
    {
      if key == "" then 0 else slot(key)
    }

    function Stamp(log: Log, x: Post): Message
      requires Valid()
    {
      Message(x, PartitionFor(x.key), |Stored(log, x.topic, PartitionFor(x.key))|)
    }

    function Append(log: Log, x: Post): Log
      requires Valid()
    {
      var m := Stamp(log, x);
      var parts := if x.topic in log then log[x.topic] else map[];
      log[x.topic := parts[m.partition := Stored(log, x.topic, m.partition) + [m]]]
    }

    /** The log after the first `n` posts. */
    function AppendAll(log: Log, xs: seq<Post>, n: nat): Log
      requires Valid() && n <= |xs|
    {
      if n == 0 then log else Append(AppendAll(log, xs, n - 1), xs[n - 1])
    }

    /** The messages the first `n` posts become. */
    function Stamps(log: Log, xs: seq<Post>, n: nat): (ms: seq<Message>)
      requires Valid() && n <= |xs|
      ensures |ms| == n
    {
      if n == 0 then [] else Stamps(log, xs, n - 1) + [Stamp(AppendAll(log, xs, n - 1), xs[n - 1])]
    }

    // ---- the log, read off everything ever published ----

    function Select(h: seq<Post>, t: string, p: nat): seq<Post>
      requires Valid()
    {
      if h == [] then []
      else
        var x := h[|h| - 1];
        Select(h[..|h| - 1], t, p) + if x.topic == t && PartitionFor(x.key) == p then [x] else []
    }

    /** Each partition holds exactly its share of what was published, in publish order,
        numbered 0, 1, 2, … without gaps. */
    ghost predicate Holds(log: Log, h: seq<Post>)
      requires Valid()
    {
      forall t, p: nat :: HoldsAt(log, h, t, p)
    }

    ghost predicate HoldsAt(log: Log, h: seq<Post>, t: string, p: nat)
      requires Valid()
    {
      var ms, xs := Stored(log, t, p), Select(h, t, p);
      |ms| == |xs| && forall i | 0 <= i < |ms| :: ms[i] == Message(xs[i], p, i)
    }

    lemma AppendHolds(log: Log, h: seq<Post>, x: Post)
      requires Valid() && Holds(log, h)
      ensures Holds(Append(log, x), h + [x])
    {
      assert (h + [x])[..|h|] == h;
      forall t, p: nat ensures HoldsAt(Append(log, x), h + [x], t, p) {
        assert HoldsAt(log, h, t, p);
      }
    }

    lemma {:induction false} AppendAllHolds(log: Log, h: seq<Post>, xs: seq<Post>, n: nat)
      requires Valid() && Holds(log, h) && n <= |xs|
      ensures Holds(AppendAll(log, xs, n), h + xs[..n])
    {
      if n == 0 {
        assert h + xs[..0] == h;
      } else {
        AppendAllHolds(log, h, xs, n - 1);
        AppendHolds(AppendAll(log, xs, n - 1), h + xs[..n - 1], xs[n - 1]);
        assert h + xs[..n - 1] + [xs[n - 1]] == h + xs[..n];
      }
    }

    // ---- what a reader of the log sees ----

    /** A topic, partition by partition. */
    function Listing(log: Log, t: string, n: nat): seq<Message> {
      if n == 0 then [] else Listing(log, t, n - 1) + Stored(log, t, n - 1)
    }

    /** One partition's messages of a key: all of them in the key's own partition, none
        in any other. */
    lemma {:induction false} KeyInOnePartition(ms: seq<Message>, h: seq<Post>, t: string, u: string, p: nat, k: string)
      requires Valid() && |ms| == |Select(h, u, p)|
      requires forall i | 0 <= i < |ms| :: ms[i].post == Select(h, u, p)[i]
      ensures WithKey(ms, t, k) == if u == t && p == PartitionFor(k) then PublishedWithKey(h, t, k) else []
      decreases |h|
    {
      if h != [] {
        var x, init := h[|h| - 1], h[..|h| - 1];
        if x.topic == u && PartitionFor(x.key) == p {
          assert Select(h, u, p) == Select(init, u, p) + [x];
          KeyInOnePartition(ms[..|ms| - 1], init, t, u, p, k);
        } else {
          KeyInOnePartition(ms, init, t, u, p, k);
        }
      }
    }

    lemma StoredWithKey(log: Log, h: seq<Post>, t: string, u: string, k: string, p: nat)
      requires Valid() && Holds(log, h)
      ensures WithKey(Stored(log, u, p), t, k) ==
        if u == t && p == PartitionFor(k) then PublishedWithKey(h, t, k) else []
    {
      assert HoldsAt(log, h, u, p);
      KeyInOnePartition(Stored(log, u, p), h, t, u, p, k);
    }

    /** Picking from a listing is picking from its last partition after the rest. */
    ghost predicate PicksLast(pick: seq<Message> -> seq<Post>, log: Log, u: string, p: nat) {
      pick(Listing(log, u, p + 1)) == pick(Listing(log, u, p)) + pick(Stored(log, u, p))
    }

    ghost predicate PicksAtHome(
      pick: seq<Message> -> seq<Post>, log: Log, u: string, p: nat, home: nat, posts: seq<Post>)
    {
      pick(Stored(log, u, p)) == if p == home then posts else []
    }

    /** Partition by partition, what only one partition holds is found once. */
    lemma {:induction false} ListingGathers(
      log: Log, u: string, n: nat, pick: seq<Message> -> seq<Post>, home: nat, posts: seq<Post>)
      requires pick([]) == []
      requires forall p: nat | p < n :: PicksLast(pick, log, u, p) && PicksAtHome(pick, log, u, p, home, posts)
      ensures pick(Listing(log, u, n)) == if home < n then posts else []
    {
      if n > 0 {
        ListingGathers(log, u, n - 1, pick, home, posts);
        assert PicksLast(pick, log, u, n - 1) && PicksAtHome(pick, log, u, n - 1, home, posts);
      }
    }

    lemma ListingWithKey(log: Log, h: seq<Post>, t: string, u: string, k: string)
      requires Valid() && Holds(log, h)
      ensures WithKey(Listing(log, u, partitions), t, k) == if u == t then PublishedWithKey(h, t, k) else []
    {
      var pick := (ms: seq<Message>) => WithKey(ms, t, k);
      var posts := if u == t then PublishedWithKey(h, t, k) else [];
      forall p: nat | p < partitions
        ensures PicksLast(pick, log, u, p) && PicksAtHome(pick, log, u, p, PartitionFor(k), posts)
      {
        WithKeySplits(Listing(log, u, p), Stored(log, u, p), t, k);
        StoredWithKey(log, h, t, u, k, p);
      }
      ListingGathers(log, u, partitions, pick, PartitionFor(k), posts);
      assert pick(Listing(log, u, partitions)) == posts;
    }

    /** Messages of a topic with one key come out complete and in publish order, for every
        key: nothing is lost, invented or reordered within a key. */
    lemma KeysKeepPublishOrder(log: Log, h: seq<Post>, t: string, k: string)
      requires Valid() && Holds(log, h)
      ensures WithKey(Listing(log, t, partitions), t, k) == PublishedWithKey(h, t, k)
    {
      ListingWithKey(log, h, t, t, k);
    }
  }

  // ---- consumers ----

  /** `received` is everything ever put on the consumer's channel. */
  datatype Subscription = Subscription(topics: set<string>, received: seq<Message>)

  type Target = (nat, Message)

  function Wanted(ms: seq<Message>, topics: set<string>): seq<Message> {
    if ms == [] then []
    else
      Wanted(ms[..|ms| - 1], topics) + if ms[|ms| - 1].post.topic in topics then [ms[|ms| - 1]] else []
  }

  function TargetsOf(subs: seq<Subscription>, m: Message, n: nat): seq<Target>
    requires n <= |subs|
  {
    if n == 0 then [] else TargetsOf(subs, m, n - 1) + Copy(subs[n - 1], m, n - 1)
  }

  function Copy(sub: Subscription, m: Message, i: nat): seq<Target> {
    if m.post.topic in sub.topics then [(i, m)] else []
  }

  function Targets(subs: seq<Subscription>, ms: seq<Message>): seq<Target> {
    if ms == [] then [] else Targets(subs, ms[..|ms| - 1]) + TargetsOf(subs, ms[|ms| - 1], |subs|)
  }

  ghost predicate AllUnder(d: seq<Target>, n: nat) {
    forall j | 0 <= j < |d| :: d[j].0 < n
  }

  lemma {:induction false} TargetsOfExist(subs: seq<Subscription>, m: Message, n: nat)
    requires n <= |subs|
    ensures AllUnder(TargetsOf(subs, m, n), n)
  {
    if n > 0 {
      TargetsOfExist(subs, m, n - 1);
    }
  }

  lemma {:induction false} TargetsExist(subs: seq<Subscription>, ms: seq<Message>)
    ensures AllUnder(Targets(subs, ms), |subs|)
  {
    if ms != [] {
      TargetsExist(subs, ms[..|ms| - 1]);
      TargetsOfExist(subs, ms[|ms| - 1], |subs|);
    }
  }

  /** What a list of deliveries holds for subscriber `i`. */
  function For(d: seq<Target>, i: nat): seq<Message> {
    if d == [] then [] else For(d[..|d| - 1], i) + if d[|d| - 1].0 == i then [d[|d| - 1].1] else []
  }

  lemma {:induction false} ForSplits(a: seq<Target>, b: seq<Target>, i: nat)
    ensures For(a + b, i) == For(a, i) + For(b, i)
  {
    if b == [] {
      assert a + b == a;
    } else {
      assert (a + b)[..|a + b| - 1] == a + b[..|b| - 1];
      ForSplits(a, b[..|b| - 1], i);
    }
  }

  lemma ForGrows(d: seq<Target>, j: nat, i: nat)
    requires j < |d|
    ensures For(d[..j + 1], i) == For(d[..j], i) + if d[j].0 == i then [d[j].1] else []
  {
    assert d[..j + 1][..j] == d[..j];
  }

  lemma ForCopy(sub: Subscription, m: Message, n: nat, i: nat)
    ensures For(Copy(sub, m, n), i) == if i == n && m.post.topic in sub.topics then [m] else []
  {
    assert [(n, m)][..0] == [] && For([], i) == [];
  }

  lemma {:induction false} ForTargetsOf(subs: seq<Subscription>, m: Message, n: nat, i: nat)
    requires n <= |subs| && i < |subs|
    ensures For(TargetsOf(subs, m, n), i) == if i < n && m.post.topic in subs[i].topics then [m] else []
  {
    if n > 0 {
      ForTargetsOf(subs, m, n - 1, i);
      ForCopy(subs[n - 1], m, n - 1, i);
      ForSplits(TargetsOf(subs, m, n - 1), Copy(subs[n - 1], m, n - 1), i);
    }
  }

  /** Fan-out sends each subscriber exactly what it asked for, in publish order. */
  lemma {:induction false} ForTargets(subs: seq<Subscription>, ms: seq<Message>, i: nat)
    requires i < |subs|
    ensures For(Targets(subs, ms), i) == Wanted(ms, subs[i].topics)
  {
    if ms != [] {
      var init, m := ms[..|ms| - 1], ms[|ms| - 1];
      ForTargets(subs, init, i);
      ForTargetsOf(subs, m, |subs|, i);
      ForSplits(Targets(subs, init), TargetsOf(subs, m, |subs|), i);
    }
  }

  /** History of the topics in subscription order, each partition by partition. */
  function Backlog(r: Router, log: Log, topics: seq<string>): seq<Message> {
    if topics == [] then []
    else Backlog(r, log, topics[..|topics| - 1]) + r.Listing(log, topics[|topics| - 1], r.partitions)
  }

  function Cut(ms: seq<Message>, n: nat): seq<Message> {
    if |ms| <= n then ms else ms[..n]
  }

  function Fitting(ms: seq<Message>): seq<Message> {
    Cut(ms, BUFFER)
  }

  function SetOf(topics: seq<string>): set<string> {
    set t | t in topics
  }

  class Memory {
    const router: Router
    var log: Log
    var subs: seq<Subscription>
    var closed: bool
    ghost var history: seq<Post>
    ghost var joins: seq<Join>
    ghost var behind: set<nat>

    constructor (partitions: int, hash: string -> nat)
      ensures Valid() && history == [] && subs == [] && behind == {} && !closed
      ensures router.partitions == if partitions < 1 then 1 else partitions
      ensures forall k :: router.slot(k) == hash(k) % router.partitions
    {
      var n := if partitions < 1 then 1 else partitions;
      router := Router(n, (k: string) => hash(k) % n);
      log, subs, closed, history, joins, behind := map[], [], false, [], [], {};
    }

    /** A consumer that a cancelled publish left unserved may lack messages; every other
        has kept up. */
    ghost predicate Valid()
      reads this
    {
      router.Valid() && router.Holds(log, history) && AllKeptUp(router, subs, joins, history, behind)
    }

    /** `sends` is how many messages get onto a channel before the context is cancelled.
        Everything is stored by then; who misses something is noted in `behind`. */
    method Publish(xs: seq<Post>, sends: nat) returns (r: Published)
      requires Valid()
      modifies `log, `subs, `history, `behind
      ensures Valid() && (r.Refused? <==> closed)
      ensures r.Refused? ==> log == old(log) && subs == old(subs) && history == old(history) && behind == old(behind)
      ensures !r.Refused? ==> history == old(history) + xs && log == router.AppendAll(old(log), xs, |xs|)
      ensures !r.Refused? ==> Served(old(subs), subs, router.Stamps(old(log), xs, |xs|), sends, r)
      ensures !r.Refused? ==>
        behind == old(behind) + Unserved(Targets(old(subs), router.Stamps(old(log), xs, |xs|)), sends, |subs|)
    {
      if closed {
        return Refused;
      }
      r := PublishOpen(xs, sends);
    }

    method PublishOpen(xs: seq<Post>, sends: nat) returns (r: Published)
      requires Valid()
      modifies `log, `subs, `history, `behind
      ensures Valid() && history == old(history) + xs && log == router.AppendAll(old(log), xs, |xs|)
      ensures Served(old(subs), subs, router.Stamps(old(log), xs, |xs|), sends, r)
      ensures behind == old(behind) + Unserved(Targets(old(subs), router.Stamps(old(log), xs, |xs|)), sends, |subs|)
    {
      ghost var was, before, ms := log, subs, router.Stamps(log, xs, |xs|);
      var delivered := StoreAll(xs);
      r := Deliver(delivered, sends, ms);
      PublishingKeepsUp(router, was, history, xs, before, subs, joins, sends, r, behind);
      history := history + xs;
      behind := behind + Unserved(delivered, sends, |subs|);
    }

    /** Under the lock. */
    method StoreAll(xs: seq<Post>) returns (delivered: seq<Target>)
      requires router.Valid()
      modifies `log
      ensures log == router.AppendAll(old(log), xs, |xs|)
      ensures delivered == Targets(subs, router.Stamps(old(log), xs, |xs|))
    {
      ghost var start, ms := log, [];
      delivered := [];
      for i := 0 to |xs|
        invariant log == router.AppendAll(start, xs, i) && ms == router.Stamps(start, xs, i)
        invariant delivered == Targets(subs, ms)
      {
        var m := Store(xs[i]);
        var copies := FanOut(m);
        delivered := delivered + copies;
        ms := ms + [m];
        assert ms[..i] == router.Stamps(start, xs, i);
      }
    }

    method Store(x: Post) returns (m: Message)
      requires router.Valid()
      modifies `log
      ensures m == router.Stamp(old(log), x) && log == router.Append(old(log), x)
    {
      var p := router.PartitionFor(x.key);
      if x.topic !in log {
        log := log[x.topic := map[]];
      }
      m := Message(x, p, |Stored(log, x.topic, p)|);
      log := log[x.topic := log[x.topic][p := Stored(log, x.topic, p) + [m]]];
    }

    method FanOut(m: Message) returns (copies: seq<Target>)
      ensures copies == TargetsOf(subs, m, |subs|)
    {
      copies := [];
      for c := 0 to |subs|
        invariant copies == TargetsOf(subs, m, c)
      {
        if m.post.topic in subs[c].topics {
          copies := copies + [(c, m)];
        }
      }
    }

    /** Outside the lock, but still in publish order. */
    method Deliver(delivered: seq<Target>, sends: nat, ghost ms: seq<Message>) returns (r: Published)
      requires delivered == Targets(subs, ms)
      modifies `subs
      ensures Served(old(subs), subs, ms, sends, r)
    {
      ghost var start := subs;
      TargetsExist(start, ms);
      for j := 0 to |delivered|
        invariant |subs| == |start| && j <= sends
        invariant forall i | 0 <= i < |subs| :: SentTo(start[i], subs[i], delivered[..j], i)
      {
        if j == sends {
          return Cancelled;
        }
        var (c, m) := delivered[j];
        ghost var was, next := subs, j + 1;
        subs := subs[c := subs[c].(received := subs[c].received + [m])];
        forall i | 0 <= i < |subs| ensures SentTo(start[i], subs[i], delivered[..next], i) {
          assert SentTo(start[i], was[i], delivered[..j], i);
          ForGrows(delivered, j, i);
        }
      }
      assert delivered[..|delivered|] == delivered;
      forall i | 0 <= i < |subs| ensures Fanned(start[i], subs[i], ms) {
        ForTargets(start, ms, i);
      }
      r := Sent;
    }

    /** Replay fills the new consumer's buffer from the front of the history and drops
        what does not fit. */
    method NewConsumer(topics: seq<string>) returns (id: Option<nat>)
      requires Valid()
      modifies `subs, `joins
      ensures Valid() && (id.None? <==> closed)
      ensures id.None? ==> subs == old(subs) && joins == old(joins)
      ensures id.Some? ==> joins == old(joins) + [Join(|history|, topics, log)]
      ensures id.Some? ==> id.value == |old(subs)|
      ensures id.Some? ==> subs == old(subs) + [Subscription(SetOf(topics), Fitting(Backlog(router, log, topics)))]
    {
      if closed {
        return None;
      }
      var wanted: set<string>, replay: seq<Message> := {}, [];
      for i := 0 to |topics|
        invariant subs == old(subs) && joins == old(joins) && wanted == SetOf(topics[..i])
      {
        wanted := wanted + {topics[i]};
      }
      assert topics[..|topics|] == topics;
      for i := 0 to |topics|
        invariant subs == old(subs) && joins == old(joins)
        invariant replay == Fitting(Backlog(router, log, topics[..i]))
      {
        replay := ReplayTopic(replay, topics[i], Backlog(router, log, topics[..i]));
        assert topics[..i + 1][..i] == topics[..i];
      }
      StartsKeptUp(router, log, history, topics);
      subs := subs + [Subscription(wanted, replay)];
      joins := joins + [Join(|history|, topics, log)];
      id := Some(|subs| - 1);
    }

    method ReplayTopic(buffer: seq<Message>, topic: string, ghost behind: seq<Message>) returns (filled: seq<Message>)
      requires buffer == Fitting(behind)
      ensures filled == Fitting(behind + router.Listing(log, topic, router.partitions))
    {
      filled := buffer;
      assert behind + [] == behind;
      for p := 0 to router.partitions
        invariant filled == Fitting(behind + router.Listing(log, topic, p))
      {
        ghost var sofar := behind + router.Listing(log, topic, p);
        filled := Refill(filled, Stored(log, topic, p), sofar);
        assert sofar + Stored(log, topic, p) == behind + router.Listing(log, topic, p + 1);
      }
    }

    method Refill(buffer: seq<Message>, more: seq<Message>, ghost behind: seq<Message>) returns (filled: seq<Message>)
      requires buffer == Fitting(behind)
      ensures filled == Fitting(behind + more)
    {
      filled := buffer;
      for i := 0 to |more|
        invariant filled == Fitting(behind + more[..i])
      {
        assert behind + more[..i + 1] == behind + more[..i] + [more[i]];
        if |filled| < BUFFER {
          filled := filled + [more[i]];
        }
      }
      assert more[..|more|] == more;
    }

    method Messages(topic: string) returns (ms: seq<Message>)
      requires Valid()
      ensures ms == router.Listing(log, topic, router.partitions)
      ensures forall k :: WithKey(ms, topic, k) == PublishedWithKey(history, topic, k)
    {
      ms := [];
      for p := 0 to router.partitions
        invariant ms == router.Listing(log, topic, p)
      {
        ms := ms + Stored(log, topic, p);
      }
      forall k ensures WithKey(ms, topic, k) == PublishedWithKey(history, topic, k) {
        router.KeysKeepPublishOrder(log, history, topic, k);
      }
    }

    method Close()
      modifies `closed
      ensures closed
    {
      closed := true;
    }
  }

  datatype Published = Refused | Sent | Cancelled

  function UpTo(d: seq<Target>, n: nat): seq<Target> {
    if n < |d| then d[..n] else d
  }

  /** The subscribers still waiting for a message when a publish is cut off. */
  ghost function Unserved(d: seq<Target>, sends: nat, n: nat): set<nat> {
    if sends >= |d| then {} else set i: nat | i < n && For(d[sends..], i) != []
  }

  lemma ServedIsFanned(
    before: seq<Subscription>, d: seq<Target>, ms: seq<Message>, sends: nat, i: nat, after: Subscription)
    requires d == Targets(before, ms) && i < |before| && i !in Unserved(d, sends, |before|)
    requires SentTo(before[i], after, UpTo(d, sends), i)
    ensures Fanned(before[i], after, ms)
  {
    ForTargets(before, ms, i);
    NothingWaits(d, sends, i, |before|);
  }

  lemma NothingWaits(d: seq<Target>, sends: nat, i: nat, n: nat)
    requires i < n && i !in Unserved(d, sends, n)
    ensures For(UpTo(d, sends), i) == For(d, i)
  {
    if sends < |d| {
      var sent, rest := d[..sends], d[sends..];
      assert d == sent + rest;
      ForSplits(sent, rest, i);
    }
  }

  /** Every subscriber has received, in order, what was sent to it before the cut; all of
      what it wants if there was none. */
  ghost predicate Served(
    before: seq<Subscription>, after: seq<Subscription>, ms: seq<Message>, sends: nat, r: Published)
  {
    var d := Targets(before, ms);
    && |after| == |before| && r == (if sends >= |d| then Sent else Cancelled)
    && (forall i | 0 <= i < |after| :: SentTo(before[i], after[i], UpTo(d, sends), i))
    && (r.Sent? ==> forall i | 0 <= i < |after| :: Fanned(before[i], after[i], ms))
  }

  ghost predicate SentTo(before: Subscription, after: Subscription, d: seq<Target>, i: nat) {
    after == before.(received := before.received + For(d, i))
  }

  ghost predicate Fanned(before: Subscription, after: Subscription, ms: seq<Message>) {
    after == before.(received := before.received + Wanted(ms, before.topics))
  }

  // ---- what a late consumer is told ----

  lemma {:induction false} BacklogWithKey(r: Router, log: Log, h: seq<Post>, topics: seq<string>, t: string, k: string)
    requires r.Valid() && r.Holds(log, h) && DistinctTopics(topics)
    ensures WithKey(Backlog(r, log, topics), t, k) == if t in topics then PublishedWithKey(h, t, k) else []
  {
    if topics != [] {
      var init, u := topics[..|topics| - 1], topics[|topics| - 1];
      var rest, last := Backlog(r, log, init), r.Listing(log, u, r.partitions);
      BacklogWithKey(r, log, h, init, t, k);
      r.ListingWithKey(log, h, t, u, k);
      WithKeySplits(rest, last, t, k);
      LastTopic(topics, t);
      assert WithKey(rest + last, t, k) == if t in topics then PublishedWithKey(h, t, k) else [];
    }
  }

  lemma LastTopic(topics: seq<string>, t: string)
    requires topics != [] && DistinctTopics(topics)
    ensures var init, u := topics[..|topics| - 1], topics[|topics| - 1];
      u !in init && (t in topics <==> t in init || t == u)
  {
    assert topics == topics[..|topics| - 1] + [topics[|topics| - 1]];
  }

  ghost predicate DistinctTopics(topics: seq<string>) {
    forall i, j | 0 <= i < j < |topics| :: topics[i] != topics[j]
  }

  lemma {:induction false} WantedWithKey(ms: seq<Message>, topics: set<string>, t: string, k: string)
    requires t in topics
    ensures WithKey(Wanted(ms, topics), t, k) == WithKey(ms, t, k)
  {
    if ms != [] {
      var init, m := ms[..|ms| - 1], ms[|ms| - 1];
      WantedWithKey(init, topics, t, k);
      WithKeyGrows(Wanted(init, topics), m, t, k);
      assert Wanted(init, topics) + [] == Wanted(init, topics);
      assert WithKey(init, t, k) + [] == WithKey(init, t, k);
    }
  }

  lemma {:induction false} StampedPosts(r: Router, log: Log, xs: seq<Post>, n: nat)
    requires r.Valid() && n <= |xs|
    ensures forall i | 0 <= i < n :: r.Stamps(log, xs, n)[i].post == xs[i]
  {
    if n > 0 {
      StampedPosts(r, log, xs, n - 1);
    }
  }

  lemma {:induction false} SamePosts(ms: seq<Message>, xs: seq<Post>, t: string, k: string)
    requires |ms| == |xs| && forall i | 0 <= i < |ms| :: ms[i].post == xs[i]
    ensures WithKey(ms, t, k) == PublishedWithKey(xs, t, k)
  {
    if ms != [] {
      SamePosts(ms[..|ms| - 1], xs[..|xs| - 1], t, k);
    }
  }

  lemma {:induction false} PublishedSplits(h: seq<Post>, xs: seq<Post>, t: string, k: string)
    ensures PublishedWithKey(h + xs, t, k) == PublishedWithKey(h, t, k) + PublishedWithKey(xs, t, k)
  {
    if xs == [] {
      assert h + xs == h;
    } else {
      assert (h + xs)[..|h + xs| - 1] == h + xs[..|xs| - 1];
      PublishedSplits(h, xs[..|xs| - 1], t, k);
    }
  }

  // ---- a consumer through its whole life ----

  /** When a consumer joined, what it asked for, and the log it found. */
  datatype Join = Join(at: nat, topics: seq<string>, log: Log)

  ghost predicate ToldAll(received: seq<Message>, h: seq<Post>, t: string, k: string) {
    WithKey(received, t, k) == PublishedWithKey(h, t, k)
  }

  /** Per key: the replay, then everything published since, in publish order. */
  ghost predicate KeptUp(r: Router, sub: Subscription, j: Join, h: seq<Post>)
    requires r.Valid()
  {
    && sub.topics == SetOf(j.topics) && j.at <= |h| && r.Holds(j.log, h[..j.at])
    && forall t, k | t in sub.topics :: KeptUpOn(r, sub, j, h, t, k)
  }

  ghost predicate KeptUpOn(r: Router, sub: Subscription, j: Join, h: seq<Post>, t: string, k: string)
    requires r.Valid() && j.at <= |h|
  {
    WithKey(sub.received, t, k)
    == WithKey(Fitting(Backlog(r, j.log, j.topics)), t, k) + PublishedWithKey(h[j.at..], t, k)
  }

  lemma StartsKeptUp(r: Router, log: Log, h: seq<Post>, topics: seq<string>)
    requires r.Valid() && r.Holds(log, h)
    ensures KeptUp(r, Subscription(SetOf(topics), Fitting(Backlog(r, log, topics))), Join(|h|, topics, log), h)
  {
    assert h[..|h|] == h && h[|h|..] == [];
  }

  lemma OneKeyKeepsUp(
    r: Router, sub: Subscription, j: Join, h: seq<Post>, ms: seq<Message>, xs: seq<Post>, t: string, k: string)
    requires r.Valid() && j.at <= |h| && KeptUpOn(r, sub, j, h, t, k) && t in sub.topics
    requires |ms| == |xs| && forall i | 0 <= i < |ms| :: ms[i].post == xs[i]
    ensures KeptUpOn(r, sub.(received := sub.received + Wanted(ms, sub.topics)), j, h + xs, t, k)
  {
    assert (h + xs)[j.at..] == h[j.at..] + xs;
    WithKeySplits(sub.received, Wanted(ms, sub.topics), t, k);
    WantedWithKey(ms, sub.topics, t, k);
    SamePosts(ms, xs, t, k);
    PublishedSplits(h[j.at..], xs, t, k);
  }

  lemma StaysKeptUp(r: Router, sub: Subscription, j: Join, h: seq<Post>, ms: seq<Message>, xs: seq<Post>)
    requires r.Valid() && KeptUp(r, sub, j, h)
    requires |ms| == |xs| && forall i | 0 <= i < |ms| :: ms[i].post == xs[i]
    ensures KeptUp(r, sub.(received := sub.received + Wanted(ms, sub.topics)), j, h + xs)
  {
    var sub' := sub.(received := sub.received + Wanted(ms, sub.topics));
    assert (h + xs)[..j.at] == h[..j.at];
    forall t, k | t in sub.topics ensures KeptUpOn(r, sub', j, h + xs, t, k) {
      OneKeyKeepsUp(r, sub, j, h, ms, xs, t, k);
    }
  }

  ghost predicate AllKeptUp(r: Router, subs: seq<Subscription>, joins: seq<Join>, h: seq<Post>, behind: set<nat>)
    requires r.Valid()
  {
    && |joins| == |subs| && (forall i | i in behind :: i < |subs|)
    && forall i | 0 <= i < |subs| && i !in behind :: KeptUp(r, subs[i], joins[i], h)
  }

  lemma StayKeptUp(
    r: Router, before: seq<Subscription>, after: seq<Subscription>, joins: seq<Join>, h: seq<Post>, ms: seq<Message>,
    xs: seq<Post>, sends: nat, result: Published, behind: set<nat>)
    requires r.Valid() && Served(before, after, ms, sends, result) && AllKeptUp(r, before, joins, h, behind)
    requires |ms| == |xs| && forall i | 0 <= i < |ms| :: ms[i].post == xs[i]
    ensures AllKeptUp(r, after, joins, h + xs, behind + Unserved(Targets(before, ms), sends, |after|))
  {
    var d := Targets(before, ms);
    forall i | 0 <= i < |after| && i !in behind + Unserved(d, sends, |after|)
      ensures KeptUp(r, after[i], joins[i], h + xs)
    {
      ServedIsFanned(before, d, ms, sends, i, after[i]);
      StaysKeptUp(r, before[i], joins[i], h, ms, xs);
    }
  }

  lemma PublishingKeepsUp(
    r: Router, log: Log, h: seq<Post>, xs: seq<Post>, before: seq<Subscription>, after: seq<Subscription>,
    joins: seq<Join>, sends: nat, result: Published, behind: set<nat>)
    requires r.Valid() && r.Holds(log, h) && AllKeptUp(r, before, joins, h, behind)
    requires Served(before, after, r.Stamps(log, xs, |xs|), sends, result)
    ensures r.Holds(r.AppendAll(log, xs, |xs|), h + xs)
    ensures AllKeptUp(
      r, after, joins, h + xs, behind + Unserved(Targets(before, r.Stamps(log, xs, |xs|)), sends, |after|))
  {
    assert xs[..|xs|] == xs;
    r.AppendAllHolds(log, h, xs, |xs|);
    StampedPosts(r, log, xs, |xs|);
    StayKeptUp(r, before, after, joins, h, r.Stamps(log, xs, |xs|), xs, sends, result, behind);
  }

  lemma {:induction false} BacklogTopics(r: Router, log: Log, h: seq<Post>, topics: seq<string>, i: nat)
    requires r.Valid() && r.Holds(log, h) && i < |Backlog(r, log, topics)|
    ensures Backlog(r, log, topics)[i].post.topic in topics
  {
    var init, u := topics[..|topics| - 1], topics[|topics| - 1];
    if i < |Backlog(r, log, init)| {
      BacklogTopics(r, log, h, init, i);
    } else {
      ListingTopic(r, log, h, u, r.partitions, i - |Backlog(r, log, init)|);
    }
  }

  lemma {:induction false} SelectedTopic(r: Router, h: seq<Post>, t: string, p: nat, i: nat)
    requires r.Valid() && i < |r.Select(h, t, p)|
    ensures r.Select(h, t, p)[i].topic == t
  {
    if i < |r.Select(h[..|h| - 1], t, p)| {
      SelectedTopic(r, h[..|h| - 1], t, p, i);
    }
  }

  lemma {:induction false} ListingTopic(r: Router, log: Log, h: seq<Post>, t: string, n: nat, i: nat)
    requires r.Valid() && r.Holds(log, h) && i < |r.Listing(log, t, n)|
    ensures r.Listing(log, t, n)[i].post.topic == t
  {
    if i < |r.Listing(log, t, n - 1)| {
      ListingTopic(r, log, h, t, n - 1, i);
    } else {
      assert r.HoldsAt(log, h, t, n - 1);
      SelectedTopic(r, h, t, n - 1, i - |r.Listing(log, t, n - 1)|);
    }
  }

  /** Each topic once, where it is first named. */
  function Once(topics: seq<string>): seq<string> {
    if topics == [] then []
    else
      var init, u := topics[..|topics| - 1], topics[|topics| - 1];
      Once(init) + if u in init then [] else [u]
  }

  lemma {:induction false} OnceIsDistinct(topics: seq<string>)
    ensures DistinctTopics(Once(topics)) && forall t :: t in Once(topics) <==> t in topics
    ensures DistinctTopics(topics) ==> Once(topics) == topics
  {
    if topics != [] {
      var init := topics[..|topics| - 1];
      OnceIsDistinct(init);
      assert topics == init + [topics[|topics| - 1]];
    }
  }

  /** These messages are, key by key, what was published on the topics. */
  ghost predicate Tells(ms: seq<Message>, h: seq<Post>, topics: seq<string>) {
    forall t, k | t in topics :: ToldAll(ms, h, t, k)
  }

  lemma {:induction false} BacklogHasAll(r: Router, log: Log, h: seq<Post>, topics: seq<string>, t: string, k: string)
    requires r.Valid() && r.Holds(log, h) && t in topics
    ensures |WithKey(Backlog(r, log, topics), t, k)| >= |PublishedWithKey(h, t, k)|
  {
    var init, u := topics[..|topics| - 1], topics[|topics| - 1];
    var rest, last := Backlog(r, log, init), r.Listing(log, u, r.partitions);
    WithKeySplits(rest, last, t, k);
    if t in init {
      BacklogHasAll(r, log, h, init, t, k);
    } else {
      assert t == u;
      r.ListingWithKey(log, h, t, u, k);
    }
  }

  lemma {:induction false} NoneOfTopic(ms: seq<Message>, t: string, k: string)
    requires forall i | 0 <= i < |ms| :: ms[i].post.topic != t
    ensures WithKey(ms, t, k) == []
  {
    if ms != [] {
      NoneOfTopic(ms[..|ms| - 1], t, k);
    }
  }

  /** What a cut backlog holds of its last topic. */
  function Tail(rest: seq<Message>, last: seq<Message>, n: nat): seq<Message> {
    if |rest| < n then Cut(last, n - |rest|) else []
  }

  lemma CutSplits(rest: seq<Message>, last: seq<Message>, n: nat)
    ensures Cut(rest + last, n) == Cut(rest, n) + Tail(rest, last, n)
  {}

  lemma TailIsOfTopic(r: Router, log: Log, h: seq<Post>, u: string, rest: seq<Message>, n: nat)
    requires r.Valid() && r.Holds(log, h)
    ensures var tail := Tail(rest, r.Listing(log, u, r.partitions), n);
      forall i | 0 <= i < |tail| :: tail[i].post.topic == u
  {
    var last := r.Listing(log, u, r.partitions);
    var tail := Tail(rest, last, n);
    forall i | 0 <= i < |tail| ensures tail[i].post.topic == u {
      assert tail[i] == last[i];
      ListingTopic(r, log, h, u, r.partitions, i);
    }
  }

  lemma CutIsOfTopics(r: Router, log: Log, h: seq<Post>, topics: seq<string>, n: nat, t: string, k: string)
    requires r.Valid() && r.Holds(log, h) && t !in topics
    ensures WithKey(Cut(Backlog(r, log, topics), n), t, k) == []
  {
    var ms := Cut(Backlog(r, log, topics), n);
    forall i | 0 <= i < |ms| ensures ms[i].post.topic != t {
      BacklogTopics(r, log, h, topics, i);
    }
    NoneOfTopic(ms, t, k);
  }

  /** A repeated topic has its messages on the list already: any more would be too many. */
  lemma RepeatedAddsNothing(
    r: Router, log: Log, h: seq<Post>, init: seq<string>, u: string, n: nat, tail: seq<Message>)
    requires r.Valid() && r.Holds(log, h) && u in init
    requires tail == Tail(Backlog(r, log, init), r.Listing(log, u, r.partitions), n)
    requires Tells(Cut(Backlog(r, log, init), n) + tail, h, init)
    ensures tail == []
  {
    var rest := Backlog(r, log, init);
    TailIsOfTopic(r, log, h, u, rest, n);
    if tail != [] {
      var k := tail[0].post.key;
      assert ToldAll(rest + tail, h, u, k);
      WithKeySplits(rest, tail, u, k);
      BacklogHasAll(r, log, h, init, u, k);
      FirstIsThere(tail);
    }
  }

  lemma FirstIsThere(ms: seq<Message>)
    requires ms != []
    ensures |WithKey(ms, ms[0].post.topic, ms[0].post.key)| > 0
  {
    var x := ms[0].post;
    assert ms == [ms[0]] + ms[1..] && [ms[0]][..0] == [];
    WithKeySplits([ms[0]], ms[1..], x.topic, x.key);
    assert WithKey([ms[0]], x.topic, x.key) == WithKey([], x.topic, x.key) + [x];
  }

  /** A new topic must be on the list completely. */
  lemma NewIsComplete(
    r: Router, log: Log, h: seq<Post>, init: seq<string>, u: string, n: nat, head: seq<Message>, tail: seq<Message>)
    requires r.Valid() && r.Holds(log, h) && u !in init
    requires head == Cut(Backlog(r, log, init), n)
    requires tail == Tail(Backlog(r, log, init), r.Listing(log, u, r.partitions), n)
    requires forall k :: ToldAll(head + tail, h, u, k)
    ensures tail == r.Listing(log, u, r.partitions)
  {
    var last := r.Listing(log, u, r.partitions);
    assert tail == last[..|tail|];
    if |tail| < |last| {
      var x := last[|tail|].post;
      ListingTopic(r, log, h, u, r.partitions, |tail|);
      assert ToldAll(head + tail, h, u, x.key);
      WithKeySplits(head, tail, u, x.key);
      CutIsOfTopics(r, log, h, init, n, u, x.key);
      r.ListingWithKey(log, h, u, u, x.key);
      DroppedIsMissing(last, |tail|);
    }
  }

  lemma OlderTopicsAreTold(
    r: Router, log: Log, h: seq<Post>, init: seq<string>, u: string, n: nat, head: seq<Message>, tail: seq<Message>)
    requires r.Valid() && r.Holds(log, h) && u !in init && Tells(head + tail, h, init)
    requires tail == Tail(Backlog(r, log, init), r.Listing(log, u, r.partitions), n)
    ensures Tells(head, h, init)
  {
    TailIsOfTopic(r, log, h, u, Backlog(r, log, init), n);
    forall t, k | t in init ensures ToldAll(head, h, t, k) {
      assert ToldAll(head + tail, h, t, k);
      WithKeySplits(head, tail, t, k);
      NoneOfTopic(tail, t, k);
    }
  }

  /** A cut backlog that tells everything is the backlog of the topics named once. */
  lemma {:induction false} TellsOnlyOnce(r: Router, log: Log, h: seq<Post>, topics: seq<string>, n: nat)
    requires r.Valid() && r.Holds(log, h) && Tells(Cut(Backlog(r, log, topics), n), h, topics)
    ensures Cut(Backlog(r, log, topics), n) == Backlog(r, log, Once(topics))
  {
    if topics != [] {
      var init, u := topics[..|topics| - 1], topics[|topics| - 1];
      var rest, last := Backlog(r, log, init), r.Listing(log, u, r.partitions);
      var head, tail := Cut(rest, n), Tail(rest, last, n);
      CutSplits(rest, last, n);
      assert topics == init + [u];
      assert Tells(head + tail, h, init) && forall k :: ToldAll(head + tail, h, u, k);
      if u in init {
        RepeatedAddsNothing(r, log, h, init, u, n, tail);
        assert head + tail == head && Once(topics) == Once(init);
      } else {
        OlderTopicsAreTold(r, log, h, init, u, n, head, tail);
        NewIsComplete(r, log, h, init, u, n, head, tail);
        assert Once(topics) == Once(init) + [u] && Once(topics)[..|Once(init)|] == Once(init);
      }
      TellsOnlyOnce(r, log, h, init, n);
    }
  }

  lemma OnceTells(r: Router, log: Log, h: seq<Post>, topics: seq<string>)
    requires r.Valid() && r.Holds(log, h)
    ensures Tells(Backlog(r, log, Once(topics)), h, topics)
  {
    OnceIsDistinct(topics);
    forall t, k | t in topics ensures ToldAll(Backlog(r, log, Once(topics)), h, t, k) {
      BacklogWithKey(r, log, h, Once(topics), t, k);
    }
  }

  lemma TheRestOfAKey(r: Router, sub: Subscription, j: Join, h: seq<Post>, t: string, k: string)
    requires r.Valid() && j.at <= |h| && KeptUpOn(r, sub, j, h, t, k)
    ensures ToldAll(sub.received, h, t, k) <==> ToldAll(Fitting(Backlog(r, j.log, j.topics)), h[..j.at], t, k)
  {
    PublishedSplits(h[..j.at], h[j.at..], t, k);
    assert h[..j.at] + h[j.at..] == h;
    SameWithout(WithKey(Fitting(Backlog(r, j.log, j.topics)), t, k), PublishedWithKey(h[..j.at], t, k),
                PublishedWithKey(h[j.at..], t, k));
  }

  lemma SameWithout(a: seq<Post>, b: seq<Post>, c: seq<Post>)
    ensures a + c == b + c <==> a == b
  {
    if a + c == b + c {
      assert a == (a + c)[..|a|] && b == (b + c)[..|b|];
    }
  }

  /** A late consumer is told of every key completely, once and in publish order if and
      only if its buffer got the backlog of each topic once: for topics named once, if and
      only if the whole backlog fitted. */
  lemma LateConsumer(r: Router, sub: Subscription, j: Join, h: seq<Post>)
    requires r.Valid() && KeptUp(r, sub, j, h)
    ensures (forall t, k | t in sub.topics :: ToldAll(sub.received, h, t, k)) <==>
      Fitting(Backlog(r, j.log, j.topics)) == Backlog(r, j.log, Once(j.topics))
    ensures DistinctTopics(j.topics) ==>
      ((forall t, k | t in sub.topics :: ToldAll(sub.received, h, t, k)) <==>
        |Backlog(r, j.log, j.topics)| <= BUFFER)
  {
    var got := Fitting(Backlog(r, j.log, j.topics));
    forall t, k | t in sub.topics
      ensures ToldAll(sub.received, h, t, k) <==> ToldAll(got, h[..j.at], t, k)
    {
      assert KeptUpOn(r, sub, j, h, t, k);
      TheRestOfAKey(r, sub, j, h, t, k);
    }
    OnceTells(r, j.log, h[..j.at], j.topics);
    OnceIsDistinct(j.topics);
    if Tells(got, h[..j.at], j.topics) {
      TellsOnlyOnce(r, j.log, h[..j.at], j.topics, BUFFER);
    }
  }

  lemma DroppedIsMissing(all: seq<Message>, n: nat)
    requires n < |all|
    ensures var x := all[n].post; |WithKey(all[..n], x.topic, x.key)| < |WithKey(all, x.topic, x.key)|
  {
    var x := all[n].post;
    assert all == all[..n + 1] + all[n + 1..] && all[..n + 1] == all[..n] + [all[n]];
    WithKeySplits(all[..n + 1], all[n + 1..], x.topic, x.key);
    assert all[..n + 1][..n] == all[..n];
  }
}
