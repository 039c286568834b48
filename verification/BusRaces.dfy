/** Publishers on the in-process bus at once (go/internal/bus/memory.go, Publish): storing
    is atomic under the lock, but each publisher then delivers on its own. One consumer as
    it sees the messages it wants, numbered in the order they were stored. */
module BusRaces {
  type Publisher = nat

  /** `keys[m]` is the topic and key of message `m`; `pending` what each publisher has yet to send. */
  datatype System = System(keys: seq<string>, received: seq<nat>, pending: map<Publisher, seq<nat>>)

  datatype Action = Store(w: Publisher, keys: seq<string>) | Send(w: Publisher)

  const EMPTY := System([], [], map[])

  function Numbers(start: nat, n: nat): (ms: seq<nat>)
    ensures |ms| == n && forall i | 0 <= i < n :: ms[i] == start + i
  {
    seq(n, i requires 0 <= i < n => start + i)
  }

  /** A publisher stores its next batch once the last is out. */
  function Act(sys: System, a: Action): System {
    match a
    case Store(w, ks) =>
      if w in sys.pending && sys.pending[w] != [] then sys
      else System(sys.keys + ks, sys.received, sys.pending[w := Numbers(|sys.keys|, |ks|)])
    case Send(w) =>
      if w !in sys.pending || sys.pending[w] == [] then sys
      else sys.(received := sys.received + [sys.pending[w][0]], pending := sys.pending[w := sys.pending[w][1..]])
  }

  function Play(xs: seq<Action>): System {
    if xs == [] then EMPTY else Act(Play(xs[..|xs| - 1]), xs[|xs| - 1])
  }

  ghost predicate Waits(sys: System, m: nat) {
    exists w :: w in sys.pending && m in sys.pending[w]
  }

  /** The messages of any one key were received in the order they were stored. */
  ghost predicate InOrder(sys: System) {
    forall i, j | 0 <= i < j < |sys.received| && SameKey(sys, sys.received[i], sys.received[j]) ::
      sys.received[i] < sys.received[j]
  }

  ghost predicate SameKey(sys: System, m: nat, n: nat) {
    m < |sys.keys| && n < |sys.keys| && sys.keys[m] == sys.keys[n]
  }

  ghost predicate Sends(sys: System, a: Action) {
    a.Send? && a.w in sys.pending && sys.pending[a.w] != []
  }

  /** The message about to be sent passes an older one of its key that still waits. */
  ghost predicate Overtakes(sys: System, a: Action) {
    Sends(sys, a) && exists m: nat :: m < sys.pending[a.w][0] && SameKey(sys, m, sys.pending[a.w][0]) && Waits(sys, m)
  }

  ghost predicate OvertakesAt(xs: seq<Action>, n: nat) {
    n < |xs| && Overtakes(Play(xs[..n]), xs[n])
  }

  /** Every message stored waits with one publisher or has been received, and not both. */
  ghost predicate Accounted(sys: System) {
    && (forall m: nat :: m < |sys.keys| <==> m in sys.received || Waits(sys, m))
    && (forall m: nat | m in sys.received :: !Waits(sys, m))
    && (forall w | w in sys.pending :: Ascends(sys.pending[w]))
    && (forall v, w | v in sys.pending && w in sys.pending && v != w :: Apart(sys.pending[v], sys.pending[w]))
  }

  ghost predicate Ascends(ms: seq<nat>) {
    forall i, j | 0 <= i < j < |ms| :: ms[i] < ms[j]
  }

  ghost predicate Apart(ms: seq<nat>, ns: seq<nat>) {
    forall m | m in ms :: m !in ns
  }

  lemma StoreWaits(sys: System, w: Publisher, ks: seq<string>, m: nat)
    requires w in sys.pending ==> sys.pending[w] == []
    ensures Waits(Act(sys, Store(w, ks)), m) <==> Waits(sys, m) || |sys.keys| <= m < |sys.keys| + |ks|
  {
    var next, ns := Act(sys, Store(w, ks)), Numbers(|sys.keys|, |ks|);
    if |sys.keys| <= m < |sys.keys| + |ks| {
      assert ns[m - |sys.keys|] == m && m in next.pending[w];
    }
    if v :| v in sys.pending && m in sys.pending[v] {
      assert v != w && m in next.pending[v];
    }
  }

  lemma SendWaits(sys: System, w: Publisher, m: nat)
    requires Accounted(sys) && Sends(sys, Send(w))
    ensures Waits(sys, sys.pending[w][0])
    ensures Waits(Act(sys, Send(w)), m) <==> Waits(sys, m) && m != sys.pending[w][0]
  {
    var ms, next := sys.pending[w], Act(sys, Send(w));
    assert ms == [ms[0]] + ms[1..] && ms[0] in ms;
    assert Ascends(ms);
    if v :| v in sys.pending && m in sys.pending[v] && m != ms[0] {
      assert m in next.pending[v];
    }
    if v :| v in next.pending && m in next.pending[v] {
      assert m in sys.pending[v];
      if v != w {
        assert Apart(ms, sys.pending[v]);
      }
    }
  }

  lemma StoreAccounts(sys: System, w: Publisher, ks: seq<string>)
    requires Accounted(sys) && (w in sys.pending ==> sys.pending[w] == [])
    ensures Accounted(Act(sys, Store(w, ks)))
  {
    var next, ns := Act(sys, Store(w, ks)), Numbers(|sys.keys|, |ks|);
    forall m: nat ensures Waits(next, m) <==> Waits(sys, m) || |sys.keys| <= m < |next.keys| {
      StoreWaits(sys, w, ks, m);
    }
    forall v | v in sys.pending && v != w ensures Apart(ns, sys.pending[v]) && Apart(sys.pending[v], ns) {
      forall m | m in sys.pending[v] ensures m < |sys.keys| {
        assert Waits(sys, m);
      }
    }
  }

  lemma SendAccounts(sys: System, w: Publisher)
    requires Accounted(sys) && Sends(sys, Send(w))
    ensures Accounted(Act(sys, Send(w)))
  {
    var ms, next := sys.pending[w], Act(sys, Send(w));
    assert Ascends(ms);
    forall m: nat ensures Waits(sys, ms[0]) && (Waits(next, m) <==> Waits(sys, m) && m != ms[0]) {
      SendWaits(sys, w, m);
    }
    forall v | v in next.pending && v != w ensures Apart(ms[1..], sys.pending[v]) && Apart(sys.pending[v], ms[1..]) {
      assert Apart(ms, sys.pending[v]) && Apart(sys.pending[v], ms);
    }
  }

  lemma {:induction false} PlayAccounts(xs: seq<Action>)
    ensures Accounted(Play(xs))
  {
    if xs != [] {
      var sys, a := Play(xs[..|xs| - 1]), xs[|xs| - 1];
      PlayAccounts(xs[..|xs| - 1]);
      if a.Send? && Sends(sys, a) {
        SendAccounts(sys, a.w);
      } else if a.Store? && (a.w in sys.pending ==> sys.pending[a.w] == []) {
        StoreAccounts(sys, a.w, a.keys);
      }
    }
  }

  lemma {:induction false} PlayGrows(xs: seq<Action>, n: nat)
    requires n <= |xs|
    ensures Play(xs[..n]).received <= Play(xs).received && Play(xs[..n]).keys <= Play(xs).keys
    decreases |xs|
  {
    if n == |xs| {
      assert xs[..n] == xs;
    } else {
      assert xs[..|xs| - 1][..n] == xs[..n];
      PlayGrows(xs[..|xs| - 1], n);
    }
  }

  /** Whatever was received, everything older of its key was too. */
  ghost predicate Closed(sys: System) {
    forall m: nat, r: nat | r in sys.received && m < r && SameKey(sys, m, r) :: m in sys.received
  }

  lemma SendStaysInOrder(sys: System, w: Publisher)
    requires Accounted(sys) && InOrder(sys) && Closed(sys) && Sends(sys, Send(w)) && !Overtakes(sys, Send(w))
    ensures InOrder(Act(sys, Send(w))) && Closed(Act(sys, Send(w)))
  {
    var x := sys.pending[w][0];
    SendStaysClosed(sys, w);
    SendWaits(sys, w, x);
    forall r: nat | r in sys.received && SameKey(sys, r, x) ensures r < x {
      assert r == x || r < x || x < r;
    }
    assert forall i | 0 <= i < |sys.received| :: sys.received[i] in sys.received;
  }

  lemma SendStaysClosed(sys: System, w: Publisher)
    requires Accounted(sys) && Closed(sys) && Sends(sys, Send(w)) && !Overtakes(sys, Send(w))
    ensures Closed(Act(sys, Send(w)))
  {
    var x := sys.pending[w][0];
    forall m: nat | m < x && SameKey(sys, m, x) ensures m in sys.received {
      assert m in sys.received || Waits(sys, m);
    }
  }

  lemma StoreStaysInOrder(sys: System, w: Publisher, ks: seq<string>)
    requires Accounted(sys) && InOrder(sys) && Closed(sys)
    ensures InOrder(Act(sys, Store(w, ks))) && Closed(Act(sys, Store(w, ks)))
  {
    var next := Act(sys, Store(w, ks));
    forall m: nat, r: nat | r in sys.received && m <= r ensures SameKey(next, m, r) <==> SameKey(sys, m, r) {}
    forall i, j | 0 <= i < j < |sys.received| && SameKey(next, sys.received[i], sys.received[j])
      ensures sys.received[i] < sys.received[j]
    {
      assert sys.received[i] in sys.received && sys.received[j] in sys.received;
      assert SameKey(sys, sys.received[i], sys.received[j]);
    }
  }

  lemma {:induction false} NoOvertakingKeepsOrder(xs: seq<Action>)
    requires forall n: nat :: !OvertakesAt(xs, n)
    ensures InOrder(Play(xs)) && Closed(Play(xs))
  {
    if xs != [] {
      var k := |xs| - 1;
      var sys, a := Play(xs[..k]), xs[k];
      forall n: nat ensures !OvertakesAt(xs[..k], n) {
        assert n < k ==> xs[..k][..n] == xs[..n];
        assert !OvertakesAt(xs, n);
      }
      NoOvertakingKeepsOrder(xs[..k]);
      PlayAccounts(xs[..k]);
      assert !OvertakesAt(xs, k);
      if Sends(sys, a) {
        SendStaysInOrder(sys, a.w);
      } else if a.Store? {
        StoreStaysInOrder(sys, a.w, a.keys);
      }
    }
  }

  /** A message that was overtaken comes after what overtook it. */
  lemma OvertakingShows(xs: seq<Action>, n: nat)
    requires OvertakesAt(xs, n) && forall m: nat :: !Waits(Play(xs), m)
    ensures !InOrder(Play(xs))
  {
    var sys, end := Play(xs[..n]), Play(xs);
    var x := sys.pending[xs[n].w][0];
    var m: nat :| m < x && SameKey(sys, m, x) && Waits(sys, m);
    PlayAccounts(xs[..n]);
    PlayAccounts(xs);
    PlayGrows(xs, n);
    PlayGrows(xs, n + 1);
    assert xs[..n + 1][..n] == xs[..n];
    var p := |sys.received|;
    assert end.received[p] == x;
    assert m in end.received;
    var q :| 0 <= q < |end.received| && end.received[q] == m;
    assert m !in sys.received && end.received[..p] == sys.received;
    assert q > p;
    assert SameKey(end, x, m);
  }

  /** Once everything stored has been delivered: a consumer got every key in the order it
      was stored if and only if no send ever passed an older message of its key. */
  lemma KeyOrderSurvivesExactlyWhen(xs: seq<Action>)
    requires forall m: nat :: !Waits(Play(xs), m)
    ensures InOrder(Play(xs)) <==> forall n: nat :: !OvertakesAt(xs, n)
  {
    if n: nat :| OvertakesAt(xs, n) {
      OvertakingShows(xs, n);
    } else {
      NoOvertakingKeepsOrder(xs);
    }
  }

  /** Publishers keep off each other's keys: a batch is stored only when nothing of its keys
      waits with another. */
  ghost predicate KeepsOff(sys: System, a: Action) {
    a.Store? ==> forall m: nat | Waits(sys, m) && m < |sys.keys| :: sys.keys[m] !in a.keys
  }

  ghost predicate AllKeepOff(xs: seq<Action>) {
    forall n: nat | n < |xs| :: KeepsOff(Play(xs[..n]), xs[n])
  }

  /** No key waits with two publishers. */
  ghost predicate OneCarrier(sys: System) {
    forall v, w, m, n | v in sys.pending && w in sys.pending && v != w && m in sys.pending[v] && n in sys.pending[w] ::
      !SameKey(sys, m, n)
  }

  lemma StoreKeepsOneCarrier(sys: System, w: Publisher, ks: seq<string>)
    requires Accounted(sys) && OneCarrier(sys) && KeepsOff(sys, Store(w, ks))
    requires w in sys.pending ==> sys.pending[w] == []
    ensures OneCarrier(Act(sys, Store(w, ks)))
  {
    var next, ns := Act(sys, Store(w, ks)), Numbers(|sys.keys|, |ks|);
    forall v, n | v in sys.pending && v != w && n in sys.pending[v]
      ensures n < |sys.keys| && next.keys[n] !in ks
    {
      assert Waits(sys, n);
    }
    forall m | m in ns ensures m < |next.keys| && next.keys[m] in ks {
      assert next.keys[m] == ks[m - |sys.keys|];
    }
    forall u, v, m, n |
      u in next.pending && v in next.pending && u != v && m in next.pending[u] && n in next.pending[v]
      ensures !SameKey(next, m, n)
    {
      if u != w && v != w {
        assert Waits(sys, m) && Waits(sys, n);
        assert !SameKey(sys, m, n);
      }
    }
  }

  lemma SendKeepsOneCarrier(sys: System, w: Publisher)
    requires OneCarrier(sys) && Sends(sys, Send(w))
    ensures OneCarrier(Act(sys, Send(w)))
  {
    var next := Act(sys, Send(w));
    forall u, v, m, n |
      u in next.pending && v in next.pending && u != v && m in next.pending[u] && n in next.pending[v]
      ensures !SameKey(next, m, n)
    {
      assert m in sys.pending[u] && n in sys.pending[v];
      assert !SameKey(sys, m, n);
    }
  }

  lemma ActKeepsOneCarrier(sys: System, a: Action)
    requires Accounted(sys) && OneCarrier(sys) && KeepsOff(sys, a)
    ensures OneCarrier(Act(sys, a))
  {
    if Sends(sys, a) {
      SendKeepsOneCarrier(sys, a.w);
    } else if a.Store? && (a.w in sys.pending ==> sys.pending[a.w] == []) {
      StoreKeepsOneCarrier(sys, a.w, a.keys);
    }
  }

  lemma OneCarrierNeverOvertakes(sys: System, a: Action)
    requires Accounted(sys) && OneCarrier(sys)
    ensures !Overtakes(sys, a)
  {
    if Sends(sys, a) {
      var ms := sys.pending[a.w];
      assert Ascends(ms);
      forall m: nat | m < ms[0] && SameKey(sys, m, ms[0]) ensures !Waits(sys, m) {
        forall w | w in sys.pending ensures m !in sys.pending[w] {
          assert ms[0] in ms;
        }
      }
    }
  }

  /** Then every consumer gets every key in order, at all times. */
  lemma {:induction false} KeepingOffKeepsOrder(xs: seq<Action>)
    requires AllKeepOff(xs)
    ensures OneCarrier(Play(xs)) && InOrder(Play(xs))
  {
    forall n: nat | n <= |xs| ensures OneCarrier(Play(xs[..n])) {
      CarriersStayApart(xs, n);
    }
    forall n: nat ensures !OvertakesAt(xs, n) {
      if n < |xs| {
        PlayAccounts(xs[..n]);
        OneCarrierNeverOvertakes(Play(xs[..n]), xs[n]);
      }
    }
    NoOvertakingKeepsOrder(xs);
    assert xs[..|xs|] == xs;
  }

  lemma {:induction false} CarriersStayApart(xs: seq<Action>, n: nat)
    requires AllKeepOff(xs) && n <= |xs|
    ensures OneCarrier(Play(xs[..n]))
  {
    if n > 0 {
      CarriersStayApart(xs, n - 1);
      PlayAccounts(xs[..n - 1]);
      ActKeepsOneCarrier(Play(xs[..n - 1]), xs[n - 1]);
      assert xs[..n][..n - 1] == xs[..n - 1];
    }
  }

  // ---- what can still go wrong from here ----

  function From(sys: System, xs: seq<Action>): System {
    if xs == [] then sys else Act(From(sys, xs[..|xs| - 1]), xs[|xs| - 1])
  }

  ghost predicate OnlySends(xs: seq<Action>) {
    forall i | 0 <= i < |xs| :: xs[i].Send?
  }

  function SendsOf(w: Publisher, n: nat): (xs: seq<Action>)
    ensures |xs| == n && forall i | 0 <= i < n :: xs[i] == Send(w)
  {
    seq(n, _ => Send(w))
  }

  lemma {:induction false} FromSplits(sys: System, xs: seq<Action>, ys: seq<Action>)
    ensures From(sys, xs + ys) == From(From(sys, xs), ys)
  {
    if ys == [] {
      assert xs + ys == xs;
    } else {
      assert (xs + ys)[..|xs + ys| - 1] == xs + ys[..|ys| - 1];
      FromSplits(sys, xs, ys[..|ys| - 1]);
    }
  }

  /** One publisher sends its next `n` messages. */
  lemma {:induction false} Drained(sys: System, w: Publisher, n: nat)
    requires w in sys.pending && n <= |sys.pending[w]|
    ensures From(sys, SendsOf(w, n))
      == System(sys.keys, sys.received + sys.pending[w][..n], sys.pending[w := sys.pending[w][n..]])
  {
    var ms := sys.pending[w];
    if n == 0 {
      assert ms[..0] == [] && ms[0..] == ms && sys.pending[w := ms] == sys.pending;
    } else {
      Drained(sys, w, n - 1);
      assert SendsOf(w, n)[..n - 1] == SendsOf(w, n - 1);
      assert ms[n - 1..][1..] == ms[n..] && ms[..n] == ms[..n - 1] + [ms[n - 1..][0]];
      assert sys.pending[w := ms[n - 1..]][w := ms[n..]] == sys.pending[w := ms[n..]];
    }
  }

  lemma {:induction false} SendsKeepOneCarrier(sys: System, xs: seq<Action>)
    requires Accounted(sys) && OneCarrier(sys) && InOrder(sys) && Closed(sys) && OnlySends(xs)
    ensures var end := From(sys, xs); Accounted(end) && OneCarrier(end) && InOrder(end) && Closed(end)
  {
    if xs != [] {
      var before, a := From(sys, xs[..|xs| - 1]), xs[|xs| - 1];
      SendsKeepOneCarrier(sys, xs[..|xs| - 1]);
      if Sends(before, a) {
        OneCarrierNeverOvertakes(before, a);
        SendAccounts(before, a.w);
        SendKeepsOneCarrier(before, a.w);
        SendStaysInOrder(before, a.w);
      }
    }
  }

  /** The publisher of the newer message goes first. */
  lemma NewerFirst(sys: System, v: Publisher, i: nat, w: Publisher, j: nat) returns (xs: seq<Action>)
    requires v in sys.pending && w in sys.pending && v != w && i < |sys.pending[v]| && j < |sys.pending[w]|
    requires sys.pending[v][i] < sys.pending[w][j] && SameKey(sys, sys.pending[v][i], sys.pending[w][j])
    ensures OnlySends(xs) && !InOrder(From(sys, xs))
  {
    var first, second := SendsOf(w, j + 1), SendsOf(v, i + 1);
    var middle, end := From(sys, first), From(sys, first + second);
    Drained(sys, w, j + 1);
    Drained(middle, v, i + 1);
    FromSplits(sys, first, second);
    xs := first + second;
    var p, q := |sys.received| + j, |sys.received| + j + 1 + i;
    assert end.received[p] == sys.pending[w][j] && end.received[q] == sys.pending[v][i];
    assert SameKey(end, end.received[p], end.received[q]);
  }

  /** A message overtaken already arrives late. */
  lemma OvertakenArrivesLate(sys: System, m: nat, r: nat) returns (xs: seq<Action>)
    requires Accounted(sys) && r in sys.received && m < r && SameKey(sys, m, r) && m !in sys.received
    ensures OnlySends(xs) && !InOrder(From(sys, xs))
  {
    assert Waits(sys, m);
    var w :| w in sys.pending && m in sys.pending[w];
    var j :| 0 <= j < |sys.pending[w]| && sys.pending[w][j] == m;
    var p :| 0 <= p < |sys.received| && sys.received[p] == r;
    Drained(sys, w, j + 1);
    xs := SendsOf(w, j + 1);
    var end := From(sys, xs);
    assert end.received[p] == r && end.received[|sys.received| + j] == m;
    assert SameKey(end, end.received[p], end.received[|sys.received| + j]);
  }

  lemma TwoCarriersAreARisk(sys: System) returns (xs: seq<Action>)
    requires Accounted(sys) && !OneCarrier(sys)
    ensures OnlySends(xs) && !InOrder(From(sys, xs))
  {
    var v, w, m, n :| v in sys.pending && w in sys.pending && v != w && m in sys.pending[v] && n in sys.pending[w]
      && SameKey(sys, m, n);
    var i :| 0 <= i < |sys.pending[v]| && sys.pending[v][i] == m;
    var j :| 0 <= j < |sys.pending[w]| && sys.pending[w][j] == n;
    assert Apart(sys.pending[v], sys.pending[w]);
    if m < n {
      xs := NewerFirst(sys, v, i, w, j);
    } else {
      xs := NewerFirst(sys, w, j, v, i);
    }
  }

  /** From any reachable state still in order, some sends break the order of a key if and
      only if a key waits with two publishers, or a waiting message was overtaken already. */
  lemma OrderIsAtRiskExactlyWhen(xs: seq<Action>)
    requires InOrder(Play(xs))
    ensures (exists ys :: OnlySends(ys) && !InOrder(From(Play(xs), ys)))
      <==> !OneCarrier(Play(xs)) || !Closed(Play(xs))
  {
    var sys := Play(xs);
    PlayAccounts(xs);
    if !OneCarrier(sys) {
      var ys := TwoCarriersAreARisk(sys);
    } else if !Closed(sys) {
      var m: nat, r: nat :| r in sys.received && m < r && SameKey(sys, m, r) && m !in sys.received;
      var ys := OvertakenArrivesLate(sys, m, r);
    } else {
      forall ys | OnlySends(ys) ensures InOrder(From(sys, ys)) {
        SendsKeepOneCarrier(sys, ys);
      }
    }
  }

  /** Two publishers with one message each under one key: the second delivers first. */
  lemma SecondPublisherGoesFirst(k: string)
    ensures var xs := [Store(1, [k]), Store(2, [k]), Send(2), Send(1)];
      Play(xs).received == [1, 0] && !InOrder(Play(xs))
  {
    var s1 := Act(EMPTY, Store(1, [k]));
    var s2 := Act(s1, Store(2, [k]));
    var s3 := Act(s2, Send(2));
    var s4 := Act(s3, Send(1));
    var xs := [Store(1, [k]), Store(2, [k]), Send(2), Send(1)];
    assert xs[..3][..2][..1][..0] == [];
    assert Play(xs[..3][..2][..1]) == s1;
    assert Play(xs[..3][..2]) == s2;
    assert Play(xs[..3]) == s3;
    assert Numbers(0, 1) == [0] && Numbers(1, 1) == [1];
    assert Play(xs) == s4 && s4.received == [1, 0];
    assert SameKey(s4, s4.received[0], s4.received[1]);
  }
}
