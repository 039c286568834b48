/** The tamper-evident decision log (go/internal/audit/audit.go): one hash chain per
    arrival in one table. SHA-256 is an injective function with non-empty output that
    never contains the separator, as its hexadecimal form does not; times and record ids
    are numbers with an injective text form. */
module Audit {
  import opened Basics

  const SEPARATOR := '\U{1f}'

  datatype Record = Record(
    id: nat, arrival: string, at: int, component: string, decision: string, inputs: string, outcome: string,
    actor: string, prevHash: string, recordHash: string)

  datatype Entry = Entry(
    arrival: string, component: string, decision: string, inputs: string, outcome: string, actor: string)

  datatype Reason = BadLink | BadHash

  datatype Break = Break(arrival: string, id: nat, position: nat, reason: Reason)

  ghost predicate Clean(s: string) {
    SEPARATOR !in s
  }

  datatype Hasher = Hasher(sha: string -> string, timeText: int -> string, idText: nat -> string) {
    ghost predicate Sound() {
      && (forall x, y | sha(x) == sha(y) :: x == y)
      && (forall x :: sha(x) != "" && Clean(sha(x)))
      && (forall s, t | timeText(s) == timeText(t) :: s == t)
      && (forall t :: Clean(timeText(t)))
      && (forall i, j | idText(i) == idText(j) :: i == j)
      && (forall i :: Clean(idText(i)))
    }

    function Parts(r: Record): seq<string> {
      [idText(r.id), r.arrival, timeText(r.at), r.component, r.decision, r.inputs, r.outcome, r.actor, r.prevHash]
    }

    function Hash(r: Record): string {
      sha(Encode(Parts(r)))
    }

    method ComputeHash(r: Record) returns (h: string)
      ensures h == Hash(r)
    {
      var parts, buffer := Parts(r), "";
      for i := 0 to |parts|
        invariant buffer == Encode(parts[..i])
      {
        buffer := buffer + parts[i];
        buffer := buffer + [SEPARATOR];
        EncodeGrows(parts[..i], parts[i]);
        assert parts[..i + 1] == parts[..i] + [parts[i]];
      }
      assert parts[..|parts|] == parts;
      h := sha(buffer);
    }
  }

  /** Every part, each closed by the separator. */
  function Encode(parts: seq<string>): string {
    if parts == [] then "" else Encode(parts[..|parts| - 1]) + parts[|parts| - 1] + [SEPARATOR]
  }

  lemma EncodeGrows(parts: seq<string>, last: string)
    ensures Encode(parts + [last]) == Encode(parts) + last + [SEPARATOR]
  {
    assert (parts + [last])[..|parts|] == parts;
  }

  ghost predicate AllClean(parts: seq<string>) {
    forall i | 0 <= i < |parts| :: Clean(parts[i])
  }

  /** The encoding is injective on parts without separators, however many there are. */
  lemma {:induction false} EncodeIsInjective(a: seq<string>, b: seq<string>)
    requires AllClean(a) && AllClean(b) && Encode(a) == Encode(b)
    ensures a == b
    decreases |a|
  {
    if a != [] && b != [] {
      var m, n := |a| - 1, |b| - 1;
      var x, y := Encode(a[..m]) + a[m], Encode(b[..n]) + b[n];
      assert x == Encode(a)[..|x|] && y == Encode(b)[..|y|];
      EndsSeparated(a[..m]);
      EndsSeparated(b[..n]);
      LastPiece(SEPARATOR, Encode(a[..m]), a[m], Encode(b[..n]), b[n]);
      EncodeIsInjective(a[..m], b[..n]);
      assert a == a[..m] + [a[m]] && b == b[..n] + [b[n]];
    }
  }

  lemma EndsSeparated(parts: seq<string>)
    ensures Encode(parts) == "" || Encode(parts)[|Encode(parts)| - 1] == SEPARATOR
  {}

  ghost predicate CleanRecord(r: Record) {
    && Clean(r.arrival) && Clean(r.component) && Clean(r.decision) && Clean(r.inputs) && Clean(r.outcome)
    && Clean(r.actor) && Clean(r.prevHash)
  }

  ghost predicate CleanRecords(rs: seq<Record>) {
    forall i | 0 <= i < |rs| :: CleanRecord(rs[i])
  }

  /** Everything but the stored hash. */
  ghost predicate SameContent(r: Record, s: Record) {
    r.(recordHash := "") == s.(recordHash := "")
  }

  lemma HashCoversContent(h: Hasher, r: Record, s: Record)
    requires h.Sound() && CleanRecord(r) && CleanRecord(s) && h.Hash(r) == h.Hash(s)
    ensures SameContent(r, s)
  {
    var a, b := h.Parts(r), h.Parts(s);
    EncodeIsInjective(a, b);
    assert a[0] == b[0] && a[1] == b[1] && a[2] == b[2] && a[3] == b[3] && a[4] == b[4];
    assert a[5] == b[5] && a[6] == b[6] && a[7] == b[7] && a[8] == b[8];
  }

  // ---- verification of one chain ----

  function PrevAt(rs: seq<Record>, i: nat): string
    requires i <= |rs|
  {
    if i == 0 then "" else rs[i - 1].recordHash
  }

  predicate OkAt(h: Hasher, rs: seq<Record>, i: nat)
    requires i < |rs|
  {
    rs[i].prevHash == PrevAt(rs, i) && h.Hash(rs[i]) == rs[i].recordHash
  }

  ghost predicate Verifies(h: Hasher, rs: seq<Record>) {
    forall i | 0 <= i < |rs| :: OkAt(h, rs, i)
  }

  /** `p` is where a walk from the front first finds fault. */
  ghost predicate BreaksAt(h: Hasher, rs: seq<Record>, p: nat) {
    p < |rs| && !OkAt(h, rs, p) && forall i | 0 <= i < p :: OkAt(h, rs, i)
  }

  method VerifyRecords(h: Hasher, arrival: string, rs: seq<Record>) returns (b: Option<Break>)
    ensures b.None? <==> Verifies(h, rs)
    ensures b.Some? ==>
      && BreaksAt(h, rs, b.value.position)
      && b.value.arrival == arrival && b.value.id == rs[b.value.position].id
      && (b.value.reason == BadLink <==> rs[b.value.position].prevHash != PrevAt(rs, b.value.position))
  {
    var prev := "";
    for i := 0 to |rs|
      invariant prev == PrevAt(rs, i)
      invariant forall j | 0 <= j < i :: OkAt(h, rs, j)
    {
      if rs[i].prevHash != prev {
        assert !OkAt(h, rs, i);
        return Some(Break(arrival, rs[i].id, i, BadLink));
      }
      var want := h.ComputeHash(rs[i]);
      if want != rs[i].recordHash {
        assert !OkAt(h, rs, i);
        return Some(Break(arrival, rs[i].id, i, BadHash));
      }
      prev := rs[i].recordHash;
    }
    b := None;
  }

  // ---- what a head hash determines ----

  lemma PrefixVerifies(h: Hasher, rs: seq<Record>, n: nat)
    requires Verifies(h, rs) && n <= |rs|
    ensures Verifies(h, rs[..n])
  {
    forall i | 0 <= i < n ensures OkAt(h, rs[..n], i) {
      assert OkAt(h, rs, i);
    }
  }

  lemma EqualHeads(h: Hasher, a: seq<Record>, b: seq<Record>)
    requires h.Sound() && Verifies(h, a) && Verifies(h, b) && CleanRecords(a) && CleanRecords(b)
    requires a != [] && b != [] && a[|a| - 1].recordHash == b[|b| - 1].recordHash
    ensures a[|a| - 1] == b[|b| - 1] && (|a| == 1 <==> |b| == 1)
    ensures |a| > 1 ==> a[|a| - 2].recordHash == b[|b| - 2].recordHash
  {
    var m, n := |a| - 1, |b| - 1;
    assert OkAt(h, a, m) && OkAt(h, b, n);
    HashCoversContent(h, a[m], b[n]);
    assert m > 0 ==> OkAt(h, a, m - 1);
    assert n > 0 ==> OkAt(h, b, n - 1);
  }

  /** Two chains that verify and end in the same hash are the same chain. */
  lemma {:induction false} HeadDeterminesTheChain(h: Hasher, a: seq<Record>, b: seq<Record>)
    requires h.Sound() && Verifies(h, a) && Verifies(h, b) && CleanRecords(a) && CleanRecords(b)
    requires a != [] && b != [] && a[|a| - 1].recordHash == b[|b| - 1].recordHash
    ensures a == b
    decreases |a|
  {
    var m, n := |a| - 1, |b| - 1;
    EqualHeads(h, a, b);
    if m > 0 {
      PrefixVerifies(h, a, m);
      PrefixVerifies(h, b, n);
      HeadDeterminesTheChain(h, a[..m], b[..n]);
    }
    assert a == a[..m] + [a[m]] && b == b[..n] + [b[n]];
  }

  lemma SameHashSamePlace(h: Hasher, rs: seq<Record>, i: nat, j: nat)
    requires h.Sound() && Verifies(h, rs) && CleanRecords(rs) && i < |rs| && j < |rs|
    requires rs[i].recordHash == rs[j].recordHash
    ensures i == j
  {
    PrefixVerifies(h, rs, i + 1);
    PrefixVerifies(h, rs, j + 1);
    HeadDeterminesTheChain(h, rs[..i + 1], rs[..j + 1]);
    assert |rs[..i + 1]| == i + 1 && |rs[..j + 1]| == j + 1;
  }

  lemma HashesAreDistinct(h: Hasher, rs: seq<Record>, i: nat, j: nat)
    requires h.Sound() && Verifies(h, rs) && CleanRecords(rs) && i < j < |rs|
    ensures rs[i].recordHash != rs[j].recordHash && rs[i].recordHash != "" && rs[j].recordHash != ""
  {
    assert OkAt(h, rs, i) && OkAt(h, rs, j);
    if rs[i].recordHash == rs[j].recordHash {
      SameHashSamePlace(h, rs, i, j);
    }
  }

  // ---- where tampering shows ----

  /** Editing any hashed field of record `p`, hash left alone, is reported at `p`. */
  lemma EditShowsAt(h: Hasher, rs: seq<Record>, p: nat, r: Record)
    requires h.Sound() && Verifies(h, rs) && CleanRecords(rs) && p < |rs|
    requires CleanRecord(r) && r.recordHash == rs[p].recordHash && !SameContent(r, rs[p])
    ensures BreaksAt(h, rs[p := r], p)
  {
    var es := rs[p := r];
    assert OkAt(h, rs, p);
    if OkAt(h, es, p) {
      HashCoversContent(h, r, rs[p]);
    }
    forall i | 0 <= i < p ensures OkAt(h, es, i) {
      assert OkAt(h, rs, i);
    }
  }

  /** Editing a record and hashing it again is reported at its successor, and not at all
      when it was the last. */
  lemma RehashShowsAfter(h: Hasher, rs: seq<Record>, p: nat, r: Record)
    requires h.Sound() && Verifies(h, rs) && CleanRecords(rs) && p < |rs|
    requires CleanRecord(r) && r.prevHash == rs[p].prevHash && !SameContent(r, rs[p]) && r.recordHash == h.Hash(r)
    ensures if p + 1 < |rs| then BreaksAt(h, rs[p := r], p + 1) else Verifies(h, rs[p := r])
  {
    var es := rs[p := r];
    assert OkAt(h, rs, p);
    if h.Hash(r) == h.Hash(rs[p]) {
      HashCoversContent(h, r, rs[p]);
    }
    forall i | 0 <= i < p ensures OkAt(h, es, i) {
      assert OkAt(h, rs, i);
    }
    assert OkAt(h, es, p);
    if p + 1 < |rs| {
      assert OkAt(h, rs, p + 1);
    }
  }

  /** Deleting records `p` up to `q` is reported at `p`, and not at all when they were
      the last. */
  lemma DeletionShowsAt(h: Hasher, rs: seq<Record>, p: nat, q: nat)
    requires h.Sound() && Verifies(h, rs) && CleanRecords(rs) && p < q <= |rs|
    ensures if q < |rs| then BreaksAt(h, rs[..p] + rs[q..], p) else Verifies(h, rs[..p] + rs[q..])
  {
    var es := rs[..p] + rs[q..];
    forall i | 0 <= i < p ensures OkAt(h, es, i) {
      assert OkAt(h, rs, i);
    }
    if q < |rs| {
      assert OkAt(h, rs, q) && OkAt(h, rs, q - 1);
      assert es[p] == rs[q];
      if p > 0 {
        HashesAreDistinct(h, rs, p - 1, q - 1);
      }
    }
  }

  // ---- the table ----

  predicate Before(r: Record, s: Record) {
    r.at < s.at || (r.at == s.at && r.id < s.id)
  }

  /** ORDER BY at ASC, record_id ASC. */
  function Insert(s: seq<Record>, x: Record): (r: seq<Record>)
    ensures |r| == |s| + 1
    decreases |s|
  {
    if s == [] || Before(x, s[0]) then [x] + s else [s[0]] + Insert(s[1..], x)
  }

  function Read(rows: seq<Record>, arrival: string): seq<Record> {
    if rows == [] then []
    else
      var rest, last := Read(rows[..|rows| - 1], arrival), rows[|rows| - 1];
      if last.arrival == arrival then Insert(rest, last) else rest
  }

  /** The hash the next record of this arrival must link to. */
  function HeadHash(rows: seq<Record>, arrival: string): string {
    PrevAt(Read(rows, arrival), |Read(rows, arrival)|)
  }

  /** Times are cut to the microseconds the database can store back. */
  function Linked(h: Hasher, rows: seq<Record>, e: Entry, now: int, id: nat): Record {
    var r := Record(id, e.arrival, now / 1000, e.component, e.decision, e.inputs, e.outcome,
                    if e.actor == "" then "system" else e.actor, HeadHash(rows, e.arrival), "");
    r.(recordHash := h.Hash(r))
  }

  /** The record says what the entry does, to the microsecond, and who did it. */
  predicate IsEntryOf(r: Record, e: Entry, now: int, id: nat) {
    && r.id == id && r.arrival == e.arrival && r.component == e.component && r.decision == e.decision
    && r.inputs == e.inputs && r.outcome == e.outcome
    && r.actor == (if e.actor != "" then e.actor else "system")
    && r.at * 1000 <= now < r.at * 1000 + 1000
  }

  class Chain {
    const hasher: Hasher
    var rows: seq<Record>

    constructor (hasher: Hasher)
      ensures this.hasher == hasher && rows == []
    {
      this.hasher, rows := hasher, [];
    }

    /** One serializable transaction: read the head, insert the linked record. */
    method Append(e: Entry, now: int, id: nat)
      modifies this
      ensures rows == old(rows) + [Linked(hasher, old(rows), e, now, id)]
      ensures IsEntryOf(rows[|rows| - 1], e, now, id)
      ensures var chain, r := Read(old(rows), e.arrival), rows[|rows| - 1];
        && r.prevHash == (if chain == [] then "" else chain[|chain| - 1].recordHash)
        && r.recordHash == hasher.Hash(r)
    {
      var actor := e.actor;
      if actor == "" {
        actor := "system";
      }
      var prev, chain := "", Read(rows, e.arrival);
      if chain != [] {
        prev := chain[|chain| - 1].recordHash;
      }
      var rec := Record(id, e.arrival, now / 1000, e.component, e.decision, e.inputs, e.outcome, actor, prev, "");
      var hash := hasher.ComputeHash(rec);
      rec := rec.(recordHash := hash);
      rows := rows + [rec];
    }

    method Verify(arrival: string) returns (b: Option<Break>)
      ensures b.None? <==> Verifies(hasher, Read(rows, arrival))
      ensures b.Some? ==> b.value.arrival == arrival && BreaksAt(hasher, Read(rows, arrival), b.value.position)
    {
      b := VerifyRecords(hasher, arrival, Read(rows, arrival));
    }

    /** One break per chain that does not verify. */
    method VerifyAll() returns (breaks: seq<Break>)
      ensures forall b | b in breaks :: BreaksAt(hasher, Read(rows, b.arrival), b.position)
      ensures forall a :: Verifies(hasher, Read(rows, a)) <==> forall b | b in breaks :: b.arrival != a
    {
      var ids := set i | 0 <= i < |rows| :: rows[i].arrival;
      breaks := [];
      ghost var done: set<string> := {};
      while ids != {}
        invariant forall b | b in breaks :: b.arrival in done && BreaksAt(hasher, Read(rows, b.arrival), b.position)
        invariant forall a | a in done :: Reported(hasher, rows, breaks, a)
        invariant forall i | 0 <= i < |rows| :: rows[i].arrival in ids || rows[i].arrival in done
        decreases ids
      {
        var id :| id in ids;
        ids := ids - {id};
        var b := Verify(id);
        ghost var before := breaks;
        if b.Some? {
          breaks := breaks + [b.value];
          assert b.value in breaks;
        }
        forall a | a in done ensures Reported(hasher, rows, breaks, a) {
          assert Reported(hasher, rows, before, a);
        }
        done := done + {id};
      }
      forall a ensures Verifies(hasher, Read(rows, a)) <==> forall b | b in breaks :: b.arrival != a {
        if a in done {
          assert Reported(hasher, rows, breaks, a);
        } else {
          NoRowsNoChain(rows, a);
        }
      }
    }
  }

  ghost predicate Reported(h: Hasher, rows: seq<Record>, breaks: seq<Break>, a: string) {
    Verifies(h, Read(rows, a)) || exists b :: b in breaks && b.arrival == a
  }

  lemma {:induction false} NoRowsNoChain(rows: seq<Record>, a: string)
    requires forall i | 0 <= i < |rows| :: rows[i].arrival != a
    ensures Read(rows, a) == []
  {
    if rows != [] {
      NoRowsNoChain(rows[..|rows| - 1], a);
    }
  }

  // ---- appending keeps every chain ----

  /** Where a record lands in a chain. */
  function Place(s: seq<Record>, x: Record): (p: nat)
    ensures p <= |s|
    decreases |s|
  {
    if s == [] || Before(x, s[0]) then 0 else 1 + Place(s[1..], x)
  }

  lemma {:induction false} PlaceIsFirst(s: seq<Record>, x: Record)
    ensures forall k | 0 <= k < Place(s, x) :: !Before(x, s[k])
    ensures Place(s, x) < |s| ==> Before(x, s[Place(s, x)])
    decreases |s|
  {
    if s != [] && !Before(x, s[0]) {
      PlaceIsFirst(s[1..], x);
      assert forall k | 0 <= k < |s| - 1 :: s[1..][k] == s[k + 1];
    }
  }

  lemma {:induction false} InsertedAtPlace(s: seq<Record>, x: Record)
    ensures Insert(s, x) == s[..Place(s, x)] + [x] + s[Place(s, x)..]
    decreases |s|
  {
    if s == [] || Before(x, s[0]) {
      assert s[..0] == [] && s[0..] == s;
    } else {
      var rest, p := s[1..], Place(s[1..], x);
      InsertedAtPlace(rest, x);
      assert s[..p + 1] == [s[0]] + rest[..p] && s[p + 1..] == rest[p..];
    }
  }

  ghost predicate IsLatest(s: seq<Record>, x: Record) {
    forall k | 0 <= k < |s| :: !Before(x, s[k])
  }

  lemma LatestGoesLast(s: seq<Record>, x: Record)
    ensures Place(s, x) == |s| <==> IsLatest(s, x)
    ensures IsLatest(s, x) ==> Insert(s, x) == s + [x]
  {
    PlaceIsFirst(s, x);
    InsertedAtPlace(s, x);
  }

  lemma ReadGrows(rows: seq<Record>, x: Record, arrival: string)
    ensures Read(rows + [x], arrival) ==
      if x.arrival == arrival then Insert(Read(rows, arrival), x) else Read(rows, arrival)
  {
    assert (rows + [x])[..|rows|] == rows;
  }

  lemma HashIgnoresItself(h: Hasher, r: Record, hash: string)
    ensures h.Hash(r.(recordHash := hash)) == h.Hash(r)
  {}

  lemma LinkedIsOkAtTheEnd(h: Hasher, s: seq<Record>, x: Record)
    requires Verifies(h, s) && x.prevHash == PrevAt(s, |s|) && x.recordHash == h.Hash(x)
    ensures Verifies(h, s + [x])
  {
    var t := s + [x];
    forall i | 0 <= i < |t| ensures OkAt(h, t, i) {
      if i < |s| {
        assert OkAt(h, s, i);
      }
    }
  }

  lemma MisplacedLinkShows(h: Hasher, s: seq<Record>, x: Record, p: nat)
    requires h.Sound() && Verifies(h, s) && CleanRecords(s) && p < |s| && x.prevHash == PrevAt(s, |s|)
    ensures !Verifies(h, s[..p] + [x] + s[p..])
  {
    var t := s[..p] + [x] + s[p..];
    assert OkAt(h, s, |s| - 1);
    if p > 0 {
      HashesAreDistinct(h, s, p - 1, |s| - 1);
    }
    assert t[p] == x && !OkAt(h, t, p);
  }

  /** Appending leaves a chain that verified verifying if and only if no record of the
      chain is later than the new one: a clock that steps back forks the chain. */
  lemma AppendNeedsTheLatest(h: Hasher, rows: seq<Record>, e: Entry, now: int, id: nat)
    requires h.Sound() && Verifies(h, Read(rows, e.arrival)) && CleanRecords(Read(rows, e.arrival))
    ensures var x := Linked(h, rows, e, now, id);
      Verifies(h, Read(rows + [x], e.arrival)) <==> IsLatest(Read(rows, e.arrival), x)
  {
    var s, x := Read(rows, e.arrival), Linked(h, rows, e, now, id);
    ReadGrows(rows, x, e.arrival);
    LatestGoesLast(s, x);
    InsertedAtPlace(s, x);
    HashIgnoresItself(h, x, "");
    if IsLatest(s, x) {
      LinkedIsOkAtTheEnd(h, s, x);
    } else {
      MisplacedLinkShows(h, s, x, Place(s, x));
    }
  }

  datatype Call = Call(e: Entry, now: int, id: nat)

  /** The table after the first `n` of these calls, for any arrivals in any order. */
  function Appended(h: Hasher, calls: seq<Call>, n: nat): (rows: seq<Record>)
    requires n <= |calls|
    ensures |rows| == n
  {
    if n == 0 then []
    else
      var rows, c := Appended(h, calls, n - 1), calls[n - 1];
      rows + [Linked(h, rows, c.e, c.now, c.id)]
  }

  ghost predicate Increasing(calls: seq<Call>) {
    forall i, j | 0 <= i < j < |calls| ::
      calls[i].now / 1000 < calls[j].now / 1000
      || (calls[i].now / 1000 == calls[j].now / 1000 && calls[i].id < calls[j].id)
  }

  ghost predicate CleanEntry(e: Entry) {
    && Clean(e.arrival) && Clean(e.component) && Clean(e.decision) && Clean(e.inputs) && Clean(e.outcome)
    && Clean(e.actor)
  }

  /** Every stored record is the trace of one call, and holds no separator. */
  ghost predicate Traces(h: Hasher, calls: seq<Call>, n: nat, r: Record) {
    CleanRecord(r) && Clean(r.recordHash) && exists i :: 0 <= i < n && i < |calls| && From(calls[i], r)
  }

  ghost predicate From(c: Call, r: Record) {
    r.at == c.now / 1000 && r.id == c.id && r.arrival == c.e.arrival
  }

  lemma {:induction false} ReadIsFromRows(rows: seq<Record>, arrival: string)
    ensures forall r | r in Read(rows, arrival) :: r in rows && r.arrival == arrival
  {
    if rows != [] {
      var init := rows[..|rows| - 1];
      ReadIsFromRows(init, arrival);
      InsertedAtPlace(Read(init, arrival), rows[|rows| - 1]);
      assert rows == init + [rows[|rows| - 1]];
    }
  }

  lemma {:induction false} ReadHoldsRows(rows: seq<Record>, p: nat)
    requires p < |rows|
    ensures rows[p] in Read(rows, rows[p].arrival)
  {
    var n := |rows| - 1;
    var arrival := rows[p].arrival;
    InsertedAtPlace(Read(rows[..n], arrival), rows[n]);
    if p < n {
      assert rows[..n][p] == rows[p];
      ReadHoldsRows(rows[..n], p);
    }
  }

  lemma StoredRecordHashes(h: Hasher, rows: seq<Record>, p: nat)
    requires p < |rows| && Verifies(h, Read(rows, rows[p].arrival))
    ensures h.Hash(rows[p]) == rows[p].recordHash
  {
    var s := Read(rows, rows[p].arrival);
    ReadHoldsRows(rows, p);
    var i :| 0 <= i < |s| && s[i] == rows[p];
    assert OkAt(h, s, i);
  }

  /** Editing any hashed field of any stored row, its time, id and arrival included, leaves
      the chain it is then read in not verifying. */
  lemma StoredEditShows(h: Hasher, rows: seq<Record>, p: nat, r: Record)
    requires h.Sound() && p < |rows| && Verifies(h, Read(rows, rows[p].arrival))
    requires CleanRecord(rows[p]) && CleanRecord(r) && r.recordHash == rows[p].recordHash && !SameContent(r, rows[p])
    ensures !Verifies(h, Read(rows[p := r], r.arrival))
  {
    StoredRecordHashes(h, rows, p);
    if Verifies(h, Read(rows[p := r], r.arrival)) {
      StoredRecordHashes(h, rows[p := r], p);
      HashCoversContent(h, r, rows[p]);
    }
  }

  lemma HeadHashIsClean(rows: seq<Record>, arrival: string)
    requires forall r | r in rows :: Clean(r.recordHash)
    ensures Clean(HeadHash(rows, arrival))
  {
    ReadIsFromRows(rows, arrival);
    var s := Read(rows, arrival);
    assert s != [] ==> s[|s| - 1] in s;
  }

  lemma {:induction false} RowsAreTraces(h: Hasher, calls: seq<Call>, n: nat)
    requires h.Sound() && n <= |calls| && forall i | 0 <= i < |calls| :: CleanEntry(calls[i].e)
    ensures forall r | r in Appended(h, calls, n) :: Traces(h, calls, n, r)
  {
    if n > 0 {
      RowsAreTraces(h, calls, n - 1);
      var rows, c := Appended(h, calls, n - 1), calls[n - 1];
      var x := Linked(h, rows, c.e, c.now, c.id);
      HeadHashIsClean(rows, c.e.arrival);
      assert From(calls[n - 1], x);
      forall r | r in rows ensures Traces(h, calls, n, r) {
        assert Traces(h, calls, n - 1, r);
      }
    }
  }

  lemma StoredRecordsAreClean(h: Hasher, calls: seq<Call>, n: nat, arrival: string)
    requires h.Sound() && n <= |calls| && forall i | 0 <= i < |calls| :: CleanEntry(calls[i].e)
    ensures CleanRecords(Read(Appended(h, calls, n), arrival))
  {
    var s := Read(Appended(h, calls, n), arrival);
    RowsAreTraces(h, calls, n);
    ReadIsFromRows(Appended(h, calls, n), arrival);
    forall i | 0 <= i < |s| ensures CleanRecord(s[i]) {
      assert s[i] in s;
      assert Traces(h, calls, n, s[i]);
    }
  }

  lemma OneMoreAppend(h: Hasher, rows: seq<Record>, c: Call, arrival: string)
    requires h.Sound() && Verifies(h, Read(rows, arrival)) && CleanRecords(Read(rows, arrival))
    requires IsLatest(Read(rows, arrival), Linked(h, rows, c.e, c.now, c.id))
    ensures Verifies(h, Read(rows + [Linked(h, rows, c.e, c.now, c.id)], arrival))
  {
    if c.e.arrival == arrival {
      AppendNeedsTheLatest(h, rows, c.e, c.now, c.id);
    } else {
      ReadGrows(rows, Linked(h, rows, c.e, c.now, c.id), arrival);
    }
  }

  /** Any sequence of appends, interleaved over any arrivals, with increasing (time, id)
      leaves every chain verifying. */
  lemma {:induction false} EveryChainVerifies(h: Hasher, calls: seq<Call>, n: nat, arrival: string)
    requires h.Sound() && n <= |calls| && Increasing(calls)
    requires forall i | 0 <= i < |calls| :: CleanEntry(calls[i].e)
    ensures Verifies(h, Read(Appended(h, calls, n), arrival))
  {
    if n > 0 {
      EveryChainVerifies(h, calls, n - 1, arrival);
      NewestIsLatest(h, calls, n, arrival);
      StoredRecordsAreClean(h, calls, n - 1, arrival);
      OneMoreAppend(h, Appended(h, calls, n - 1), calls[n - 1], arrival);
    }
  }

  lemma NewestIsLatest(h: Hasher, calls: seq<Call>, n: nat, arrival: string)
    requires h.Sound() && 0 < n <= |calls| && Increasing(calls)
    requires forall i | 0 <= i < |calls| :: CleanEntry(calls[i].e)
    ensures var rows, c := Appended(h, calls, n - 1), calls[n - 1];
      IsLatest(Read(rows, arrival), Linked(h, rows, c.e, c.now, c.id))
  {
    var rows, c := Appended(h, calls, n - 1), calls[n - 1];
    var s, x := Read(rows, arrival), Linked(h, rows, c.e, c.now, c.id);
    RowsAreTraces(h, calls, n - 1);
    ReadIsFromRows(rows, arrival);
    forall k | 0 <= k < |s| ensures !Before(x, s[k]) {
      assert s[k] in s;
      assert Traces(h, calls, n - 1, s[k]);
      var i :| 0 <= i < n - 1 && From(calls[i], s[k]);
    }
  }
}
