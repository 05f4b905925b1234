/** The buffered writer of resp/bufio.go. */
module Writers {
  import opened Bytes
  import opened Decimal
  import opened Lines
  import opened Syntax
  import opened Delivery
  import opened Layout

  /** The io.Writer behind the buffer: what it has taken so far, and how many more bytes
      it takes before it fails. */
  datatype Sink = Sink(written: bytes, room: nat)

  /** Write(p): all of `p`, or as much as there is room for and an error. */
  function Write(s: Sink, p: bytes): (Sink, bool) {
    if |p| <= s.room then (Sink(s.written + p, s.room - |p|), true)
    else (Sink(s.written + p[..s.room], 0), false)
  }

  /** bufioW: data[..len] is the Go slice `buf`, data.Length its capacity. */
  class Writer {
    var sink: Sink
    var data: array<byte>
    var len: nat

    ghost predicate Valid()
      reads this
    {
      len <= data.Length && 0 < data.Length
    }

    function Pending(): bytes
      reads this, data
      requires Valid()
    {
      data[..len]
    }

    /** The abstract state: everything handed to the writer so far. */
    ghost function Wire(): bytes
      reads this, data
      requires Valid()
    {
      sink.written + data[..len]
    }

    /** How many bytes the sink takes in all. */
    function Limit(): nat
      reads this
    {
      |sink.written| + sink.room
    }

    /** `p` was appended and nothing was sent. */
    twostate predicate Extends(p: bytes)
      reads this, data
      requires old(Valid())
    {
      && Valid() && (data == old(data) || fresh(data)) && sink == old(sink)
      && Pending() == old(Pending()) + p && Wire() == old(Wire()) + p && Limit() == old(Limit())
    }

    constructor (capacity: nat, sink: Sink)
      requires capacity > 0
      ensures Valid() && fresh(data) && data.Length == capacity
      ensures this.sink == sink && len == 0 && Wire() == sink.written
    {
      data := new byte[capacity];
      this.sink := sink;
      len := 0;
    }

    /** Room for `n` bytes in all. */
    method Room(n: nat)
      requires Valid()
      modifies this`data
      ensures Valid() && n <= data.Length && (data == old(data) || fresh(data))
      ensures Pending() == old(Pending())
      ensures n <= old(data.Length) ==> data == old(data)
    {
      if n > data.Length {
        var bigger := new byte[2 * n];
        forall i | 0 <= i < len { bigger[i] := data[i]; }
        data := bigger;
      }
    }

    /** b.buf = append(b.buf, p...). */
    method AppendRaw(p: bytes)
      requires Valid()
      modifies this, data
      ensures Extends(p)
      ensures old(len + |p| <= data.Length) ==> data == old(data)
    {
      Room(len + |p|);
      ghost var was := data[..];
      PutAt(len, p);
      OverlayEnd(was, len, p);
      assert data[..len + |p|] == data[..][..len + |p|] && was[..len] == old(Pending());
      len := len + |p|;
    }

    method AppendSize(c: byte, n: int)
      requires Valid()
      modifies this, data
      ensures Extends(SizeLine(c, n)) && IsNumberLine(SizeLine(c, n), c, n)
    {
      hide IsNumberLine;
      SizeLineOnWire(SizeLine(c, n), c, n);
      AppendRaw([c]);
      AppendRaw(FormatInt(n));
      AppendRaw(CRLF);
      assert [c] + FormatInt(n) + CRLF == SizeLine(c, n);
    }

    method AppendArrayLen(n: int)
      requires Valid()
      modifies this, data
      ensures Extends(SizeLine(STAR, n)) && IsNumberLine(SizeLine(STAR, n), 42, n)
    {
      AppendSize(STAR, n);
    }

    method AppendBulk(p: bytes)
      requires Valid()
      modifies this, data
      ensures Extends(EncodeBulk(p)) && IsBulk(EncodeBulk(p), p)
    {
      hide IsBulk;
      BulkOnWire(EncodeBulk(p), p);
      AppendSize(DOLLAR, |p|);
      AppendRaw(p);
      AppendRaw(CRLF);
    }

    /** AppendInline with '+', AppendError with '-'. */
    method AppendText(prefix: byte, p: bytes)
      requires Valid()
      modifies this, data
      ensures Extends(EncodeText(prefix, p))
    {
      AppendRaw([prefix]);
      AppendRaw(p);
      AppendRaw(CRLF);
    }

    method AppendInline(p: bytes)
      requires Valid()
      modifies this, data
      ensures Extends(EncodeText(PLUS, p)) && EncodeText(PLUS, p) == [43] + p + [13, 10]
    {
      AppendText(PLUS, p);
    }

    method AppendError(msg: bytes)
      requires Valid()
      modifies this, data
      ensures Extends(EncodeText(MINUS, msg)) && EncodeText(MINUS, msg) == [45] + msg + [13, 10]
    {
      AppendText(MINUS, msg);
    }

    method AppendInt(n: int)
      requires Valid()
      modifies this, data
      ensures Extends(SizeLine(COLON, n)) && IsNumberLine(SizeLine(COLON, n), 58, n)
    {
      hide IsNumberLine;
      SizeLineOnWire(SizeLine(COLON, n), COLON, n);
      if n == 0 {
        AppendRaw([COLON, 48, CR, LF]);
      } else if n == 1 {
        AppendRaw([COLON, 49, CR, LF]);
      } else {
        AppendSize(COLON, n);
      }
    }

    method AppendNil()
      requires Valid()
      modifies this, data
      ensures Extends(NIL) && NIL == [36, 45, 49, 13, 10]
    {
      AppendRaw(NIL);
    }

    /** A flush either moves all pending bytes to the sink, or fails and keeps them. */
    method Flush() returns (ok: bool)
      requires Valid()
      modifies this
      ensures Valid() && data == old(data)
      ensures ok <==> old(len) <= old(sink).room
      ensures ok ==> len == 0 && Wire() == old(Wire()) && sink.room == old(sink).room - old(len)
      ensures !ok ==> len == old(len) && sink == Sink(old(sink).written + old(Pending())[..old(sink).room], 0)
      ensures Limit() == old(Limit()) && (ok <==> |old(Wire())| <= Limit())
    {
      if len == 0 {
        assert sink.written + data[..0] == old(Wire());
        return true;
      }
      var w := Write(sink, data[..len]);
      sink := w.0;
      if !w.1 { return false; }
      len := 0;
      assert Wire() == sink.written;
      return true;
    }

    method PutAt(at: nat, p: bytes)
      requires at + |p| <= data.Length
      modifies data
      ensures data[..] == Overlay(old(data[..]), at, p)
    {
      forall i | 0 <= i < |p| { data[at + i] := p[i]; }
    }

    /** io.ReadFull(src, buf[start:start+n]), `buf` already extended over the `n` bytes.
        When the source ends early, all that came is there. */
    method ReadFull(src: Source, n: nat) returns (rest: Source, err: Option<SourceError>)
      requires Valid() && src.Valid() && n <= len
      modifies data
      ensures rest.Valid()
      ensures err.None? <==> |src.Rest()| >= n
      ensures err.Some? ==> err.value == ShortError(src)
      ensures rest.Rest() == src.Rest()[Avail(src, n)..]
      ensures data[..] == Overlay(old(data[..]), len - n, src.Rest()[..Avail(src, n)])
    {
      hide Read, Overlay;
      ghost var all, start, was := src.Rest(), len - n, data[..];
      OverlayNothing(was, start);
      var got := 0;
      rest, err := src, None;
      while got < n && err.None?
        invariant got <= n && rest.Valid()
        invariant got <= |all| && all[got..] == rest.Rest()
        invariant data[..] == Overlay(was, start, all[..got])
        invariant err.Some? ==> got < n && rest.Rest() == [] && err.value == rest.end
        invariant rest.end == src.end
        decreases n - got, err.None?
      {
        var r := Read(rest, n - got);
        PutAt(len - n + got, r.data);
        ReadStep(all, got, r.data, r.next.Rest());
        OverlayStep(was, start, all[..got], r.data);
        rest, err := r.next, r.err;
        got := got + |r.data|;
      }
      if err == Some(EOF) && got > 0 { err := Some(UnexpectedEOF); }
    }

    /** One Read of io.CopyN, and the Write of what it got. */
    method CopyChunk(src: Source, left: nat) returns (r: ReadResult, ok: bool)
      requires Valid() && len == 0 && src.Valid()
      modifies this, data
      ensures Valid() && data == old(data) && len == 0
      ensures r == Read(src, if left < data.Length then left else data.Length)
      ensures ok <==> |r.data| <= old(sink).room
      ensures ok ==> sink.written == old(sink).written + r.data && sink.room == old(sink).room - |r.data|
    {
      hide Read;
      r := Read(src, if left < data.Length then left else data.Length);
      forall i | 0 <= i < |r.data| { data[i] := r.data[i]; }
      var w := Write(sink, r.data);
      sink, ok := w.0, w.1;
    }

    /** io.CopyBuffer(b, io.LimitReader(src, n), buf): straight from the source to the
        sink. A source that ends early with EOF is no error here. */
    method CopyDirect(src: Source, n: nat) returns (rest: Source, err: Option<SourceError>)
      requires Valid() && len == 0 && src.Valid()
      modifies this, data
      ensures Valid() && data == old(data) && len == 0 && rest.Valid()
      ensures err.None? <==> old(sink).room >= Avail(src, n) && (src.end == EOF || |src.Rest()| >= n)
      ensures err.None? ==> sink.written == old(sink).written + src.Rest()[..Avail(src, n)]
      ensures err.None? ==> rest.Rest() == src.Rest()[Avail(src, n)..]
    {
      hide Read;
      ghost var all := src.Rest();
      var left := n;
      ghost var done := 0;
      rest, err := src, None;
      while left > 0
        invariant 0 <= left && done + left == n && done <= |all| && all[done..] == rest.Rest()
        invariant Valid() && data == old(data) && len == 0 && rest.Valid() && rest.end == src.end
        invariant err.None? && sink.written == old(sink).written + all[..done]
        invariant sink.room == old(sink).room - done
        decreases left
      {
        var r, ok := CopyChunk(rest, left);
        if r.err.Some? {
          assert rest.Rest() == [];
          if r.err.value != EOF { err := r.err; }
          break;
        }
        ReadStep(all, done, r.data, r.next.Rest());
        rest := r.next;
        if !ok { return rest, Some(Failed([])); }
        left := left - |r.data|;
        done := done + |r.data|;
      }
    }

    /** Header, payload and trailer of a bulk whose `n` payload bytes come from `src`. A
        call that succeeds writes what AppendBulk would, on both of its paths, if the
        source holds the `n` bytes. The direct path can also succeed with fewer, and has
        then sent a bulk that is shorter than its header says. A call that fails leaves the
        header pending: in front of what came and of stale bytes, `n` in all, or alone where
        the flush failed; or it leaves nothing pending, where the copying failed. */
    method CopyBulk(src: Source, n: nat) returns (rest: Source, err: Option<SourceError>)
      requires Valid() && src.Valid() && n + 2 <= MAX_INT64
      modifies this, data
      ensures Valid() && (data == old(data) || fresh(data)) && rest.Valid()
      ensures err.None? ==>
                Wire() == old(Wire()) + SizeLine(DOLLAR, n) + src.Rest()[..Avail(src, n)] + CRLF
                && rest.Rest() == src.Rest()[Avail(src, n)..]
      ensures err.None? && |src.Rest()| >= n ==>
                Wire() == old(Wire()) + EncodeBulk(src.Rest()[..n]) && rest.Rest() == src.Rest()[n..]
      ensures err.None? && |src.Rest()| < n ==> src.end == EOF
      ensures |src.Rest()| >= n && old(len) + |SizeLine(DOLLAR, n)| + n <= old(sink).room ==> err.None?
      ensures err.Some? ==>
                var header := old(Pending()) + SizeLine(DOLLAR, n);
                || (sink == old(sink) && header + src.Rest() <= Pending() && |Pending()| == |header| + n)
                || Pending() == header || Pending() == []
    {
      AppendSize(DOLLAR, n);
      if data.Length - len >= n + 2 {
        rest, err := CopyBuffered(src, n);
      } else {
        rest, err := CopyFlushed(src, n);
      }
      if err.None? && |src.Rest()| >= n {
        assert old(Wire()) + SizeLine(DOLLAR, n) + src.Rest()[..n] + CRLF
            == old(Wire()) + EncodeBulk(src.Rest()[..n]);
      }
    }

    /** The in-buffer path, behind the header. When the source ends early, all that came is
        pending, and behind it what the storage held before. */
    method CopyBuffered(src: Source, n: nat) returns (rest: Source, err: Option<SourceError>)
      requires Valid() && src.Valid() && data.Length - len >= n + 2
      modifies this, data
      ensures Valid() && data == old(data) && rest.Valid()
      ensures err.None? <==> |src.Rest()| >= n
      ensures err.Some? ==> err.value == ShortError(src)
      ensures err.None? ==> Wire() == old(Wire()) + src.Rest()[..n] + CRLF && rest.Rest() == src.Rest()[n..]
      ensures err.Some? ==>
                && sink == old(sink) && rest.Rest() == []
                && Pending() == old(Pending()) + src.Rest() + old(data[len + |src.Rest()|..len + n])
    {
      rest, err := ReadInPlace(src, n);
      if err.Some? {
        assert src.Rest()[..|src.Rest()|] == src.Rest();
        return;
      }
      assert Pending() == old(Pending()) + src.Rest()[..n];
      AppendRaw(CRLF);
    }

    /** `buf` extended over `n` bytes and filled: behind what came, the storage shows. */
    method ReadInPlace(src: Source, n: nat) returns (rest: Source, err: Option<SourceError>)
      requires Valid() && src.Valid() && data.Length - len >= n
      modifies this, data
      ensures Valid() && data == old(data) && sink == old(sink) && len == old(len) + n && rest.Valid()
      ensures err.None? <==> |src.Rest()| >= n
      ensures err.Some? ==> err.value == ShortError(src)
      ensures rest.Rest() == src.Rest()[Avail(src, n)..]
      ensures Pending() == old(Pending()) + src.Rest()[..Avail(src, n)] + old(data[len + Avail(src, n)..len + n])
    {
      ghost var was, start := data[..], len;
      len := len + n;
      rest, err := ReadFull(src, n);
      OverlayParts(was, start, src.Rest()[..Avail(src, n)], n);
      assert Pending() == data[..][..len] && was[..start] == old(Pending());
      assert was[start + Avail(src, n)..start + n] == old(data[len + Avail(src, n)..len + n]);
    }

    /** The flush-and-copy path, behind the header. */
    method CopyFlushed(src: Source, n: nat) returns (rest: Source, err: Option<SourceError>)
      requires Valid() && src.Valid()
      modifies this, data
      ensures Valid() && (data == old(data) || fresh(data)) && rest.Valid()
      ensures err.None? <==>
                old(sink).room >= old(len) + Avail(src, n) && (src.end == EOF || |src.Rest()| >= n)
      ensures err.None? ==>
                Wire() == old(Wire()) + src.Rest()[..Avail(src, n)] + CRLF
                && rest.Rest() == src.Rest()[Avail(src, n)..]
      ensures err.Some? ==> Pending() == old(Pending()) || Pending() == []
    {
      ghost var wire := Wire();
      var ok := Flush();
      if !ok { return src, Some(Failed([])); }
      rest, err := CopyDirect(src, n);
      if err.Some? { return; }
      assert Wire() == wire + src.Rest()[..Avail(src, n)];
      AppendRaw(CRLF);
    }
  }

  /** `p` written over `s` at index `at`. */
  function Overlay(s: bytes, at: nat, p: bytes): bytes
    requires at + |p| <= |s|
  {
    s[..at] + p + s[at + |p|..]
  }

  lemma OverlayNothing(s: bytes, at: nat)
    requires at <= |s|
    ensures Overlay(s, at, []) == s
  {
  }

  lemma OverlayEnd(s: bytes, at: nat, p: bytes)
    requires at + |p| <= |s|
    ensures Overlay(s, at, p)[..at + |p|] == s[..at] + p
  {
  }

  lemma OverlayStep(s: bytes, at: nat, p: bytes, q: bytes)
    requires at + |p| + |q| <= |s|
    ensures Overlay(Overlay(s, at, p), at + |p|, q) == Overlay(s, at, p + q)
  {
  }

  lemma OverlayParts(s: bytes, at: nat, p: bytes, n: nat)
    requires |p| <= n && at + n <= |s|
    ensures Overlay(s, at, p)[..at + n] == s[..at] + p + s[at + |p|..at + n]
  {
  }

  lemma ReadStep(all: bytes, done: nat, data: bytes, rest: bytes)
    requires done <= |all| && all[done..] == data + rest
    ensures done + |data| <= |all|
    ensures all[done + |data|..] == rest
    ensures all[..done + |data|] == all[..done] + data
  {
    assert all == all[..done] + data + rest by { assert all == all[..done] + all[done..]; }
  }

  function Avail(src: Source, n: nat): nat {
    if |src.Rest()| < n then |src.Rest()| else n
  }
}
