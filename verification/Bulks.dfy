/** The streaming view of one bulk: bulkReader of resp/bufio.go, and its clients. */
module Bulks {
  import opened Bytes
  import opened Delivery
  import opened Readers

  /** Payload bytes among the last `n` bytes of a bulk with its two-byte trailer. */
  function Left(n: nat): nat {
    if n > 2 then n - 2 else 0
  }

  /** bulkReader: `n` bytes of payload and trailer are still to come from `rd`. */
  class BulkReader {
    const rd: Reader
    var n: nat

    constructor (rd: Reader, n: nat)
      ensures this.rd == rd && this.n == n
    {
      this.rd := rd;
      this.n := n;
    }

    /** One Read into a buffer of `k` bytes: the bytes copied there, and the count that
        is reported to the caller. The count is the number of payload bytes delivered
        exactly when the read does not start on the last trailer byte. */
    method Read(k: nat) returns (data: bytes, count: int, err: Option<SourceError>)
      requires rd.Valid()
      modifies this, rd, rd.buf
      ensures rd.Kept() && rd.buf == old(rd.buf) && rd.Faults(count < 0)
      ensures |data| <= k && |data| <= old(n) && n == old(n) - |data|
      ensures old(rd.Unread()) == data + rd.Unread()
      ensures old(n) == 0 ==> count == 0 && err == Some(EOF) && data == []
      ensures old(n) == 0 ==> rd.r == old(rd.r) && rd.w == old(rd.w) && rd.rd == old(rd.rd)
      ensures old(n) != 0 && err.Some? ==> data == [] && rd.rd.chunks == [] && rd.Unread() == []
      ensures old(n) != 0 && err.None? && k > 0 ==> data != []
      ensures old(n) != 1 ==> count == Left(old(n)) - Left(n)
      ensures count < 0 <==> old(n) == 1
      ensures old(rd.Buffered() > 0) ==> rd.Buffered() == old(rd.Buffered()) - |data|
      ensures old(rd.Buffered() > 0) ==> |data| == Min(Min(k, old(n)), old(rd.Buffered())) && (err.Some? ==> old(n) == 0)
      ensures old(rd.Smooth() && !rd.plan.seated && rd.Buffered() + |rd.rd.Rest()| >= rd.plan.low + n) ==>
                && rd.Smooth() && (err.Some? ==> old(n) == 0)
                && (n == 0 || |data| == k || (rd.Buffered() == 0 && |rd.rd.Rest()| in rd.plan.cuts))
    {
      hide OnCuts, Flatten;
      if n == 0 { return [], 0, Some(EOF); }
      data, err := rd.ReadSome(Min(k, n));
      n := n - |data|;
      count := |data|;
      var pad := 2 - n;
      if pad > 0 { count := count - pad; }
      rd.Blame(count < 0);
    }

    /** Discards what is left of the bulk. */
    method Close() returns (err: Option<SourceError>)
      requires rd.Valid()
      modifies this, rd, rd.buf
      ensures rd.Kept() && rd.buf == old(rd.buf) && rd.Faults(false) && n == 0
      ensures err.None? <==> |old(rd.Unread())| >= old(n)
      ensures err.None? ==> rd.Unread() == old(rd.Unread())[old(n)..]
      ensures err.Some? ==> rd.rd.chunks == []
      ensures old(rd.Smooth() && (n == 0 || !rd.plan.seated) && rd.Buffered() + |rd.rd.Rest()| >= rd.plan.low + n) ==> rd.Smooth()
    {
      if n == 0 { return None; }
      err := rd.SkipN(n);
      n := 0;
    }
  }

  function Min(a: nat, b: nat): nat { if a < b then a else b }

  /** The payload bytes of the bulk at the front of `s` with `n0` bytes in all, when `n`
      of them are still to come. */
  ghost function Seen(s: bytes, n0: nat, n: nat): (seen: bytes)
    requires 2 <= n0 && n <= n0 && n0 - n <= |s|
    ensures seen <= s && |seen| == n0 - 2 - Left(n)
  {
    s[..n0 - 2 - Left(n)]
  }

  lemma SeenEnds(s: bytes, n0: nat)
    requires 2 <= n0
    ensures Seen(s, n0, n0) == []
    ensures n0 <= |s| ==> Seen(s, n0, 0) == s[..n0 - 2]
  {
  }

  lemma SeenStep(s: bytes, n0: nat, before: nat, data: bytes, unread: bytes)
    requires 2 <= n0 && before <= n0 && n0 - before <= |s|
    requires s[n0 - before..] == data + unread && |data| <= before
    ensures n0 - (before - |data|) <= |s| && unread == s[n0 - (before - |data|)..]
    ensures before != 1 ==>
              var count := Left(before) - Left(before - |data|);
              Seen(s, n0, before) + data[..count] == Seen(s, n0, before - |data|)
  {
    var k := n0 - before;
    assert s == s[..k] + data + unread by { assert s == s[..k] + s[k..]; }
    if before != 1 {
      var count := Left(before) - Left(before - |data|);
      if before > 2 {
        assert s[..k + count] == s[..k] + data[..count];
      }
    }
  }

  /** Any Reads of any sizes, then Close. A close that succeeds leaves the stream right
      behind the bulk. If no count came back negative, what was delivered is a prefix of
      the payload, and all of it if a Read reported the end and the close succeeds. (A
      source that runs dry inside the bulk reports the same end; the close then fails.) */
  method ReadsThenClose(b: BulkReader, sizes: seq<nat>)
    returns (delivered: bytes, clean: bool, ended: bool, err: Option<SourceError>)
    requires b.rd.Valid() && b.n >= 2
    modifies b, b.rd, b.rd.buf
    ensures b.rd.Kept() && b.rd.Faults(!clean)
    ensures err.None? <==> |old(b.rd.Unread())| >= old(b.n)
    ensures err.None? ==> b.rd.Unread() == old(b.rd.Unread())[old(b.n)..]
    ensures clean ==> delivered <= old(b.rd.Unread()) && |delivered| <= old(b.n) - 2
    ensures clean && ended && err.None? ==> |delivered| == old(b.n) - 2
  {
    hide Seen, SplitHit, OnCuts, Flatten;
    ghost var s, n0 := b.rd.Unread(), b.n;
    delivered, clean, ended := [], true, false;
    for i := 0 to |sizes|
      invariant b.rd.Kept() && b.rd.buf == old(b.rd.buf) && b.rd.Faults(!clean)
      invariant Tracked(b, s, n0) && (clean ==> delivered == Seen(s, n0, b.n))
      invariant clean && ended ==> b.n == 0 || |s| < n0
    {
      var more, count, e := TrackedRead(b, sizes[i], s, n0);
      if count < 0 {
        clean := false;
      } else if clean {
        delivered := delivered + more;
        if e == Some(EOF) { ended := true; }
      }
    }
    err := b.Close();
    assert err.None? ==> b.rd.Unread() == s[n0..];
  }

  /** `b` stands inside the bulk of `n0` bytes at the front of `s`. */
  ghost predicate Tracked(b: BulkReader, s: bytes, n0: nat)
    reads b, b.rd, b.rd.buf
  {
    && b.rd.Valid() && 2 <= n0 && b.n <= n0 && n0 - b.n <= |s|
    && b.rd.Unread() == s[n0 - b.n..]
  }

  /** One Read, and the payload bytes the caller gets to see. */
  method TrackedRead(b: BulkReader, k: nat, ghost s: bytes, ghost n0: nat)
    returns (more: bytes, count: int, err: Option<SourceError>)
    requires Tracked(b, s, n0)
    modifies b, b.rd, b.rd.buf
    ensures b.rd.Kept() && b.rd.buf == old(b.rd.buf) && b.rd.Faults(count < 0) && Tracked(b, s, n0)
    ensures b.n <= old(b.n) <= b.n + k && (err.None? && k > 0 ==> b.n < old(b.n))
    ensures count < 0 <==> old(b.n) == 1
    ensures count >= 0 ==> Seen(s, n0, b.n) == Seen(s, n0, old(b.n)) + more
    ensures old(b.n) == 0 ==> err == Some(EOF) && b.rd.Buffered() == old(b.rd.Buffered())
    ensures old(b.n) != 0 && err.Some? ==> more == [] && |s| < n0 && b.rd.Unread() == [] && b.rd.rd.chunks == []
    ensures old(b.n > 0 && AtHand(b)) ==> err.None? && AtHand(b) && b.n == old(b.n) - Min(k, old(b.n))
    ensures old(b.n > 0 && OnTheWay(b)) ==>
              err.None? && OnTheWay(b) && MayStop(old(b.n), k, old(b.n) - b.n, |s| - n0, b.rd.plan.cuts)
    ensures old(b.n == 0 && OnTheWay(b)) ==> OnTheWay(b)
  {
    hide Seen, OnCuts, Flatten;
    ghost var before := b.n;
    var data;
    data, count, err := b.Read(k);
    SeenStep(s, n0, before, data, b.rd.Unread());
    more := if count < 0 then [] else data[..count];
    if before != 1 { assert Seen(s, n0, before) + data[..count] == Seen(s, n0, b.n); }
  }

  /** The delivery keeps to its plan and has all of the bulk. */
  ghost predicate OnTheWay(b: BulkReader)
    reads b, b.rd
  {
    b.rd.Smooth() && !b.rd.plan.seated && b.rd.Buffered() + |b.rd.rd.Rest()| >= b.rd.plan.low + b.n
  }

  lemma AllThere(b: BulkReader)
    requires b.rd.Valid()
    ensures OnTheWay(b) ==> |b.rd.Unread()| >= b.n
  {
  }

  /** No Read stops inside the bulk for want of bytes: it is buffered, or on the way, and
      no cut falls inside. */
  ghost predicate AtHand(b: BulkReader)
    reads b, b.rd
  {
    var total := b.rd.w - b.rd.r + |b.rd.rd.Rest()|;
    && b.rd.Valid()
    && (b.rd.Buffered() >= b.n || (OnTheWay(b) && NoCut(total - b.n, total, b.rd.plan.cuts)))
  }

  /** Where a Read of `k` bytes into a bulk can stop that is on the way, `n` bytes before
      its end at `end`: after `m` bytes, all that it asks for or those up to a cut. */
  predicate MayStop(n: nat, k: nat, m: nat, end: nat, cuts: set<nat>) {
    m <= Min(k, n) && (k > 0 ==> m > 0) && (m == Min(k, n) || end + n - m in cuts)
  }

  /** How large a buffer the next Read of a bulk uses, by the number of Reads before it. */
  type Sizes = nat -> nat

  ghost predicate Positive(size: Sizes) {
    forall j :: size(j) > 0
  }

  /** Whether Reads of these sizes, the next of which is the `j`-th, stop on the last
      trailer byte of a bulk at hand. */
  ghost predicate HitBy(n: nat, size: Sizes, j: nat)
    requires Positive(size)
    decreases n
  {
    n == 1 || (n > 1 && HitBy(n - Min(size(j), n), size, j + 1))
  }

  /** Wherever Reads of these sizes stop in a bulk on the way, it is not on its last byte. */
  ghost predicate SafeBy(n: nat, size: Sizes, j: nat, end: nat, cuts: set<nat>)
    requires Positive(size)
    decreases n
  {
    n == 0 || (n != 1 && forall m :: 0 < m && MayStop(n, size(j), m, end, cuts) ==> SafeBy(n - m, size, j + 1, end, cuts))
  }

  /** Reads an argument to its end with buffers of any sizes, as ioutil.ReadAll,
      bytes.Buffer.ReadFrom and io.CopyBuffer do, each with its own. The negative count,
      which makes those panic, is `Split`. The end of a source that runs dry inside the
      bulk looks like the end of the bulk. */
  method Drain(b: BulkReader, size: Sizes) returns (res: Result<bytes>)
    requires b.rd.Valid() && b.n >= 2 && Positive(size)
    modifies b, b.rd, b.rd.buf
    ensures b.rd.Kept() && b.rd.buf == old(b.rd.buf) && b.rd.Faults(Lost(res))
    ensures res.Ok? && |old(b.rd.Unread())| >= old(b.n) ==>
              && b.n == 0
              && res.value == old(b.rd.Unread())[..old(b.n) - 2]
              && b.rd.Unread() == old(b.rd.Unread())[old(b.n)..]
    ensures res.Ok? && |old(b.rd.Unread())| < old(b.n) ==>
              b.n > 0 && b.rd.Unread() == [] && b.rd.rd.chunks == [] && res.value <= old(b.rd.Unread())
    ensures res.Err? ==> res.error == Split || (res.error.IO? && |old(b.rd.Unread())| < old(b.n) && b.rd.rd.chunks == [])
    ensures old(AtHand(b)) ==> (res.Ok? <==> !HitBy(old(b.n), size, 0)) && (res.Err? ==> res == Err(Split))
    ensures old(OnTheWay(b)) && SafeBy(old(b.n), size, 0, |old(b.rd.Unread())| - old(b.n), old(b.rd.plan.cuts)) ==> res.Ok?
    ensures old(OnTheWay(b)) && res.Ok? ==> OnTheWay(b)
  {
    hide Seen, HitBy, SafeBy, OnCuts, Flatten, OnTheWay, AtHand, MayStop, NoCut, Reader.Unread, Reader.Smooth;
    ghost var s, n0 := b.rd.Unread(), b.n;
    ghost var atHand, coming := AtHand(b), OnTheWay(b);
    AllThere(b);
    SeenEnds(s, n0);
    ghost var safe := coming && SafeBy(n0, size, 0, |s| - n0, b.rd.plan.cuts);
    var payload, j := [], 0;
    while true
      invariant b.rd.Kept() && b.rd.buf == old(b.rd.buf) && b.rd.Faults(false)
      invariant Tracked(b, s, n0) && payload == Seen(s, n0, b.n)
      invariant atHand ==> AtHand(b) && HitBy(n0, size, 0) == HitBy(b.n, size, j)
      invariant coming ==> OnTheWay(b)
      invariant safe ==> SafeBy(b.n, size, j, |s| - n0, b.rd.plan.cuts)
      decreases b.n
    {
      HitStep(b.n, size, j);
      ghost var before := b.n;
      var more, count, e := TrackedRead(b, size(j), s, n0);
      if safe { SafeStep(before, b.n, size, j, |s| - n0, b.rd.plan.cuts); }
      if count < 0 { return Err(Split); }
      payload := payload + more;
      if e == Some(EOF) { break; }
      if e.Some? { return Err(IO(e.value)); }
      j := j + 1;
    }
    return Ok(payload);
  }

  lemma HitStep(n: nat, size: Sizes, j: nat)
    requires Positive(size)
    ensures n > 1 ==> HitBy(n, size, j) == HitBy(n - Min(size(j), n), size, j + 1)
    ensures n <= 1 ==> HitBy(n, size, j) == (n == 1)
  {
  }

  lemma SafeStep(n: nat, n': nat, size: Sizes, j: nat, end: nat, cuts: set<nat>)
    requires Positive(size) && SafeBy(n, size, j, end, cuts)
    ensures n != 1
    ensures n' < n && MayStop(n, size(j), n - n', end, cuts) ==> SafeBy(n', size, j + 1, end, cuts)
    ensures n == 0 && n' == 0 ==> SafeBy(n', size, j, end, cuts)
  {
  }

  // ---------------------------------------------------------------- pieces of one size

  /** Whether reading `n` bytes that are at hand `k` at a time stops on the last trailer byte. */
  predicate SplitHit(n: nat, k: nat)
    requires k > 0
    decreases n
  {
    if n <= 1 then n == 1 else if n <= k then false else SplitHit(n - k, k)
  }

  lemma ModShift(n: nat, k: nat)
    requires 0 < k <= n
    ensures (n - k) % k == n % k
  {
    var q, m := n / k, n % k;
    assert n - k == (q - 1) * k + m;
    assert (n - k) / k == q - 1 by { ModUnique(n - k, k, q - 1, m); }
  }

  lemma ModUnique(n: nat, k: nat, q: int, m: nat)
    requires n == q * k + m && m < k
    ensures n / k == q && n % k == m
  {
    var d := n / k - q;
    assert d * k + n % k == m;
    MulAtLeast(d, k);
  }

  lemma MulAtLeast(d: int, k: nat)
    ensures d >= 1 ==> d * k >= k
    ensures d <= -1 ==> d * k + k <= 0
  {
    if d >= 1 { assert d * k == (d - 1) * k + k; }
    if d <= -1 { assert (-d) * k == (-d - 1) * k + k; }
  }

  /** It does exactly for payloads one byte short of a multiple of the buffer length
      (and always for a buffer of one byte). */
  lemma {:induction false} SplitHitExactly(n: nat, k: nat)
    requires k > 0
    ensures SplitHit(n, k) <==> n > 0 && (k == 1 || n % k == 1)
    decreases n
  {
    if n > 1 && n > k {
      SplitHitExactly(n - k, k);
      ModShift(n, k);
    } else if n == k && k > 1 {
      ModUnique(n, k, 1, 0);
    } else if 1 < n < k {
      ModUnique(n, k, 0, n);
    } else if n == 1 && k > 1 {
      ModUnique(1, k, 0, 1);
    }
  }

  /** Buffers that are all of one size. */
  lemma {:induction false} OneSize(n: nat, k: nat, size: Sizes, j: nat)
    requires k > 0 && Positive(size) && forall i :: size(i) == k
    ensures HitBy(n, size, j) <==> SplitHit(n, k)
    decreases n
  {
    if n > 1 { OneSize(n - Min(k, n), k, size, j + 1); }
  }

  /** Without cuts, safe is what does not hit. */
  lemma {:induction false} SafeAtHand(n: nat, size: Sizes, j: nat, end: nat, cuts: set<nat>)
    requires Positive(size) && NoCut(end, end + n, cuts)
    ensures SafeBy(n, size, j, end, cuts) <==> !HitBy(n, size, j)
    decreases n
  {
    if n > 1 {
      var k := Min(size(j), n);
      assert MayStop(n, size(j), k, end, cuts);
      forall m | 0 < m && MayStop(n, size(j), m, end, cuts) ensures SafeBy(n - m, size, j + 1, end, cuts) <==> !HitBy(n, size, j) {
        assert m == k;
        SafeAtHand(n - m, size, j + 1, end, cuts);
      }
    }
  }

  /** With cuts, it is enough that pieces of one size suit the bulk from its start and from
      every cut inside it. */
  lemma {:induction false} OneSizeSuits(n: nat, k: nat, size: Sizes, j: nat, end: nat, cuts: set<nat>)
    requires k > 0 && Positive(size) && forall i :: size(i) == k
    requires !SplitHit(n, k) && forall c :: c in cuts && end < c < end + n ==> !SplitHit(c - end, k)
    ensures SafeBy(n, size, j, end, cuts)
    decreases n
  {
    if n > 1 {
      forall m | 0 < m && MayStop(n, size(j), m, end, cuts) ensures SafeBy(n - m, size, j + 1, end, cuts) {
        if end + n - m in cuts && m < n { assert !SplitHit(end + n - m - end, k); }
        OneSizeSuits(n - m, k, size, j + 1, end, cuts);
      }
    }
  }

  /** A 511-byte argument that is at hand cannot be read with a 512-byte buffer. */
  lemma SplitAt511()
    ensures SplitHit(511 + 2, 512)
  {
    assert SplitHit(1, 512);
  }
}
