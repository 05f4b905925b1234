/** The buffered reader and the bulk reader of resp/bufio.go. */
module Readers {
  import opened Bytes
  import opened Decimal
  import opened Lines
  import opened Syntax
  import opened Delivery
  import opened Slices

  /** How the result of a reading operation relates to the parse of the stream it
      started from: it is that parse, or an error of the content, or the source has run
      dry with the item incomplete, or a failure of delivery. */
  ghost predicate Agrees<T>(p: Parsed<T>, res: Result<T>, rest: bytes, src: Source) {
    match res
    case Ok(v) => p == Done(v, rest)
    case Err(IO(_)) => p.Incomplete? && src.chunks == []
    case Err(e) => e.Delivery() || p == Bad(e)
  }

  /** bufioR: a window buf[r..w] in front of a source. `faulty` says that the delivery has
      failed the reader. Blame alone sets it, and is called in two places only: by PeekLine,
      with whether its result is too long or torn, and by BulkReader.Read, when it is entered
      with one trailer byte left. */
  class Reader {
    var rd: Source
    var buf: array<byte>
    var r: nat
    var w: nat
    ghost var plan: Plan
    ghost var faulty: bool

    ghost predicate Valid()
      reads this
    {
      r <= w <= buf.Length && 0 < buf.Length && rd.Valid()
    }

    ghost function Window(): bytes
      reads this, buf
      requires Valid()
    {
      buf[r..w]
    }

    /** The abstract state: everything that is still to be read. */
    ghost function Unread(): bytes
      reads this, buf
      requires Valid()
    {
      buf[r..w] + rd.Rest()
    }

    /** The delivery keeps to the plan, and the current batch fits the buffer. */
    ghost predicate Smooth()
      reads this
    {
      && Valid()
      && OnCuts(rd.chunks, plan.cuts) && plan.low in plan.cuts
      && ((!plan.seated && r == w) || |rd.Rest()| in plan.cuts)
      && plan.low <= |rd.Rest()|
      && w - r + |rd.Rest()| - plan.low <= buf.Length
    }

    /** What every operation keeps. */
    twostate predicate Kept()
      reads this
    {
      && Valid() && (buf == old(buf) || fresh(buf)) && buf.Length >= old(buf.Length)
      && rd.end == old(rd.end) && plan == old(plan)
    }

    /** What an operation does to `faulty`. */
    twostate predicate Faults(now: bool)
      reads this
    {
      faulty == (old(faulty) || now)
    }

    /** Where the delivery has failed the reader on the way, the operation fails. */
    twostate predicate FaultShows(failed: bool)
      reads this
    {
      (old(faulty) ==> faulty) && (faulty && !failed ==> old(faulty))
    }

    constructor (capacity: nat, source: Source)
      requires capacity > 0 && source.Valid()
      ensures Valid() && fresh(buf) && buf.Length == capacity
      ensures r == w == 0 && rd == source && !faulty
      ensures Unread() == source.Rest()
    {
      buf := new byte[capacity];
      rd := source;
      r, w, faulty := 0, 0, false;
    }

    function Buffered(): nat
      reads this
      requires Valid()
    {
      w - r
    }

    method Blame(now: bool)
      requires Valid()
      modifies this`faulty
      ensures Kept() && Faults(now) && Window() == old(Window()) && Unread() == old(Unread())
      ensures Smooth() <==> old(Smooth())
    {
      hide OnCuts, Flatten;
      faulty := faulty || now;
    }

    method Compact()
      requires Valid()
      modifies this, buf
      ensures Kept() && Faults(false) && buf == old(buf) && rd == old(rd)
      ensures r == 0 && w == old(w - r) && Window() == old(Window())
    {
      if r > 0 {
        forall i | 0 <= i < w - r { buf[i] := buf[r + i]; }
        w := w - r;
        r := 0;
      }
    }

    /** Appends what one Read delivered to the window. */
    method Accept(data: bytes)
      requires Valid() && w + |data| <= buf.Length
      modifies this, buf
      ensures Kept() && Faults(false) && buf == old(buf) && rd == old(rd) && r == old(r)
      ensures w == old(w) + |data| && Window() == old(Window()) + data
    {
      forall i | 0 <= i < |data| { buf[w + i] := data[i]; }
      w := w + |data|;
    }

    method Fill() returns (err: Option<SourceError>)
      requires Valid()
      modifies this, buf
      ensures Kept() && Faults(false) && buf == old(buf) && Unread() == old(Unread()) && r == 0
      ensures Window() == old(Window()) + Read(old(rd), buf.Length - old(w - r)).data
      ensures rd == Read(old(rd), buf.Length - old(w - r)).next
      ensures err == Read(old(rd), buf.Length - old(w - r)).err
      ensures err.Some? ==> Window() == old(Window()) && rd.Rest() == [] && rd.chunks == []
      ensures Unread() == [] ==> err == Some(rd.end)
      ensures old(w - r == buf.Length) ==> err.None? && rd == old(rd) && Window() == old(Window())
      ensures old(Smooth() && plan.low < |rd.Rest()|) ==> Smooth() && |rd.Rest()| < |old(rd).Rest()|
    {
      hide OnCuts, Flatten;
      Compact();
      err := None;
      if w < buf.Length {
        var n;
        n, err := ReadOnce();
      }
    }

    /** Makes the buffer at least `n` bytes long, keeping buf[..w]. */
    method Grow(n: nat)
      requires Valid() && r == 0
      modifies this
      ensures Kept() && Faults(false) && rd == old(rd) && r == 0 && w == old(w)
      ensures buf.Length == if n > old(buf.Length) then n else old(buf.Length)
      ensures Window() == old(Window())
    {
      if n > buf.Length {
        var bigger := new byte[n];
        forall i | 0 <= i < w { bigger[i] := buf[i]; }
        assert bigger[..w] == buf[..w];
        buf := bigger;
      }
    }

    /** The delivery goes on as planned and the whole batch fits behind the window. */
    ghost predicate Roomy()
      reads this
    {
      Valid() && OnCuts(rd.chunks, plan.cuts) && plan.low in plan.cuts
      && plan.low <= |rd.Rest()| && w - r + |rd.Rest()| - plan.low <= buf.Length - r
    }

    /** One Read into the free end of the buffer. */
    method ReadOnce() returns (n: nat, err: Option<SourceError>)
      requires Valid() && r == 0 && w < buf.Length
      modifies this, buf
      ensures Kept() && Faults(false) && buf == old(buf) && r == 0 && w == old(w) + n
      ensures Unread() == old(Unread())
      ensures Window() == old(Window()) + Read(old(rd), buf.Length - old(w)).data
      ensures rd == Read(old(rd), buf.Length - old(w)).next
      ensures err == Read(old(rd), buf.Length - old(w)).err
      ensures err.None? <==> n > 0
      ensures old(Roomy()) && plan.low < |old(rd).Rest()| ==> Roomy() && |rd.Rest()| in plan.cuts
    {
      if Roomy() { ReadKeepsPlan(rd, buf.Length - w, plan); }
      var got := Read(rd, buf.Length - w);
      Accept(got.data);
      rd := got.next;
      return |got.data|, got.err;
    }

    /** io.ReadAtLeast(rd, buf[w:], extra). */
    method ReadAtLeast(extra: nat) returns (err: Option<SourceError>)
      requires Valid() && r == 0 && 0 < extra <= buf.Length - w
      modifies this, buf
      ensures Kept() && Faults(false) && r == 0 && buf == old(buf) && Unread() == old(Unread())
      ensures err.None? <==> w >= old(w) + extra
      ensures err.Some? ==> rd.chunks == [] && err.value == ShortError(old(rd))
      ensures old(Roomy() && w + |rd.Rest()| >= plan.low + w + extra) ==> Roomy() && |rd.Rest()| in plan.cuts
    {
      ghost var smooth := Roomy() && |rd.Rest()| >= plan.low + extra;
      var n := 0;
      err := None;
      while n < extra && err.None?
        invariant Kept() && Faults(false) && r == 0 && buf == old(buf) && w == old(w) + n
        invariant Unread() == old(Unread())
        invariant err.Some? ==> rd.chunks == [] && err.value == rd.end && rd.Rest() == []
        invariant n + |rd.Rest()| == |old(rd).Rest()|
        invariant smooth ==> Roomy() && (n > 0 ==> |rd.Rest()| in plan.cuts)
        decreases extra - n, err.None?
      {
        ghost var before := Unread();
        var got, e := ReadOnce();
        n, err := n + got, e;
      }
      if n >= extra {
        err := None;
      } else if n > 0 && err == Some(EOF) {
        err := Some(UnexpectedEOF);
      }
    }

    /** Succeeds exactly when the stream holds `sz` more bytes; then they are buffered. */
    method Require(sz: nat) returns (err: Option<SourceError>)
      requires Valid()
      modifies this, buf
      ensures Kept() && Faults(false) && Unread() == old(Unread())
      ensures err.None? <==> w - r >= sz
      ensures err.None? <==> |Unread()| >= sz
      ensures err.Some? ==> rd.chunks == [] && err.value == ShortError(old(rd))
      ensures old(Smooth() && w - r + |rd.Rest()| >= plan.low + sz) ==> Smooth()
    {
      if sz <= w - r { return None; }
      var extra := sz - (w - r);
      Compact();
      Grow(w + extra);
      err := ReadAtLeast(extra);
    }

    method PeekByte() returns (res: Result<byte>)
      requires Valid()
      modifies this, buf
      ensures Kept() && Faults(false) && Unread() == old(Unread())
      ensures res.Ok? <==> Unread() != []
      ensures res.Ok? ==> res.value == Unread()[0] && w > r
      ensures res.Err? ==> res == Err(IO(rd.end)) && rd.chunks == []
      ensures old(Smooth() && |Unread()| > plan.low) ==> Smooth()
    {
      var err := Require(1);
      if err.Some? { return Err(IO(err.value)); }
      return Ok(buf[r]);
    }

    /** Looks for the end of the line at `offset` in the window. */
    method FindLine(offset: nat) returns (res: Result<bytes>)
      requires Valid() && offset <= w - r
      ensures res == LineIn(Window()[offset..])
    {
      var start := r + offset;
      var index := FindCR(buf[start..w]);
      assert buf[start..w] == Window()[offset..];
      if start + index == w { return Err(TooLong); }
      if start + index + 2 > w { return Err(Torn); }
      assert buf[start..start + index + 2] == Window()[offset..][..index + 2];
      return Ok(buf[start..start + index + 2]);
    }

    /** What the code makes of the line at `offset`. */
    ghost function PeekedLine(offset: nat): Result<bytes>
      reads this, buf
      requires Valid() && offset <= w - r
    {
      LineAfterFill(Window()[offset..], Read(rd, buf.Length - (w - r)))
    }

    /** Where the source has ended and no CR is buffered, that is its error; where the buffer
        is full without one, the line is too long. */
    lemma NoLine(offset: nat)
      requires Valid() && offset <= w - r && CR !in Window()[offset..]
      ensures w - r < buf.Length && rd.chunks == [] ==> PeekedLine(offset) == Err(IO(rd.end))
      ensures w - r == buf.Length ==> PeekedLine(offset) == Err(TooLong)
    {
      LineInVerdict(Window()[offset..]);
      hide LineIn;
      assert Window()[offset..] + [] == Window()[offset..];
    }

    /** The line at `offset`, exactly when the window and one Read hold it. Otherwise the
        delivery fails the reader: the code reports a line that is too long or reads past
        the window; or the code passes on the error of a source that has run dry. A full
        window without a line end stays as it is. */
    method PeekLine(offset: nat) returns (res: Result<bytes>)
      requires Valid() && offset <= w - r
      modifies this, buf
      ensures Kept() && Unread() == old(Unread())
      ensures res == old(PeekedLine(offset)) && Faults(Lost(res))
      ensures res.Ok? ==> offset + |res.value| <= w - r
      ensures res.Ok? ==> SplitLine(Unread()[offset..]) == Done(res.value, Unread()[offset + |res.value|..])
      ensures res.Err? ==> res.error in {TooLong, Torn, IO(rd.end)}
      ensures Unread() == [] ==> res == Err(IO(rd.end))
      ensures res.Err? && res.error.IO? ==> SplitLine(Unread()[offset..]).Incomplete? && rd.chunks == []
      ensures old(w - r == buf.Length && LineIn(Window()[offset..]) == Err(TooLong)) ==>
                res == Err(TooLong) && rd == old(rd) && Window() == old(Window())
      ensures old(Smooth() && ClearLine(Unread()[offset..], plan)) ==> res.Ok? && Smooth()
    {
      hide SplitLine, LineIn, FindCR, ClearLine, OnCuts, Read, Flatten, Window, Unread, Smooth, PeekedLine;
      res := LookForLine(offset);
      Blame(Lost(res));
      LineFound(res, offset);
    }

    lemma Parts()
      requires Valid()
      ensures |Window()| == w - r && Unread() == Window() + rd.Rest()
    {
    }

    /** The source has ended, and there is no CR at `offset` or behind it. */
    ghost predicate RanDry(res: Result<bytes>, offset: nat)
      reads this, buf
      requires Valid() && offset <= w - r
    {
      res == Err(IO(rd.end)) && rd.chunks == [] && rd.Rest() == [] && LineIn(Window()[offset..]) == Err(TooLong)
    }

    /** What such a result says about the unread stream. */
    lemma LineFound(res: Result<bytes>, offset: nat)
      requires Valid() && offset <= w - r
      requires res == LineIn(Window()[offset..]) || RanDry(res, offset)
      ensures res.Ok? ==> offset + |res.value| <= w - r
      ensures res.Ok? ==> SplitLine(Unread()[offset..]) == Done(res.value, Unread()[offset + |res.value|..])
      ensures res.Err? ==> res.error in {TooLong, Torn, IO(rd.end)}
      ensures res.Err? && res.error.IO? ==> SplitLine(Unread()[offset..]).Incomplete? && rd.chunks == []
    {
      hide SplitLine, LineIn, FindCR;
      LineOfStream(Window(), rd.Rest(), offset);
    }

    /** The line at `offset`, with one Read when it is not yet in the window. */
    method LookForLine(offset: nat) returns (res: Result<bytes>)
      requires Valid() && offset <= w - r
      modifies this, buf
      ensures Kept() && Faults(false) && buf == old(buf) && Unread() == old(Unread()) && offset <= w - r
      ensures res == old(PeekedLine(offset))
      ensures res == LineIn(Window()[offset..]) || RanDry(res, offset)
      ensures Unread() == [] ==> res == Err(IO(rd.end))
      ensures old(w - r == buf.Length && LineIn(Window()[offset..]) == Err(TooLong)) ==>
                res == Err(TooLong) && rd == old(rd) && Window() == old(Window())
      ensures old(Smooth() && ClearLine(Unread()[offset..], plan)) ==> res.Ok? && Smooth()
    {
      hide SplitLine, LineIn, FindCR, ClearLine, OnCuts, Read, Flatten;
      if Smooth() && ClearLine(Unread()[offset..], plan) {
        LineOfStream(Window(), rd.Rest(), offset);
        ClearLineBuffered(Unread()[offset..], Window()[offset..], rd.Rest(), plan);
      }
      res := FindLine(offset);
      if res == Err(TooLong) { res := FillLine(offset); }
    }

    /** The second attempt of PeekLine, after one Read. */
    method FillLine(offset: nat) returns (res: Result<bytes>)
      requires Valid() && offset <= w - r && LineIn(Window()[offset..]) == Err(TooLong)
      modifies this, buf
      ensures Kept() && Faults(false) && buf == old(buf) && Unread() == old(Unread()) && offset <= w - r
      ensures res == old(PeekedLine(offset)) && (res == LineIn(Window()[offset..]) || RanDry(res, offset))
      ensures Unread() == [] ==> res == Err(IO(rd.end))
      ensures old(w - r == buf.Length) ==> res == Err(TooLong) && rd == old(rd) && Window() == old(Window())
      ensures old(Smooth() && ClearLine(Unread()[offset..], plan)) ==> res.Ok? && Smooth()
    {
      hide SplitLine, LineIn, FindCR, ClearLine, OnCuts, Read, Flatten, Window, Unread;
      Parts();
      ghost var s, before := Unread()[offset..], rd.Rest();
      ghost var smooth := Smooth() && ClearLine(s, plan);
      if smooth { ClearLineBuffered(s, Window()[offset..], before, plan); }
      ghost var front, got := Window()[offset..], Read(rd, buf.Length - (w - r));
      var err := Fill();
      Parts();
      assert Window()[offset..] == front + got.data;
      if smooth { ClearLineFilled(s, Window()[offset..], rd.Rest(), |before|, plan); }
      if err.Some? { return Err(IO(err.value)); }
      res := FindLine(offset);
    }

    /** b.r += n, over buffered bytes. */
    method Drop(n: nat)
      requires Valid() && n <= w - r
      modifies this
      ensures Kept() && Faults(false) && buf == old(buf) && rd == old(rd) && w == old(w) && r == old(r) + n
      ensures Unread() == old(Unread())[n..]
      ensures old(Smooth()) ==> Smooth()
    {
      ghost var s := Unread();
      r := r + n;
      assert Unread() == s[n..];
    }

    method ReadLine() returns (res: Result<bytes>)
      requires Valid()
      modifies this, buf
      ensures Kept() && Faults(Lost(res))
      ensures Agrees(SplitLine(old(Unread())), res, Unread(), rd)
      ensures res.Err? ==> !res.error.Protocol? && Unread() == old(Unread())
      ensures old(Smooth() && ClearLine(Unread(), plan)) ==> res.Ok? && Smooth()
    {
      hide SplitLine, ClearLine, Flatten, OnCuts, FindCR, LineIn;
      ghost var s := Unread();
      assert s[0..] == s;
      res := PeekLine(0);
      if res.Ok? { Drop(|res.value|); }
    }

    method ReadArrayLen() returns (res: Result<nat>)
      requires Valid()
      modifies this, buf
      ensures Kept() && Faults(Lost(res)) && |Unread()| <= |old(Unread())|
      ensures Agrees(ParseHeader(old(Unread()), STAR, InvalidMultiBulkLength), res, Unread(), rd)
      ensures old(Smooth() && ClearLine(Unread(), plan)) ==> Smooth() && !Lost(res)
    {
      var line := ReadLine();
      if line.Err? { return Err(line.error); }
      res := ParseSize(line.value, STAR, InvalidMultiBulkLength);
    }

    method ReadBulkLen() returns (res: Result<nat>)
      requires Valid()
      modifies this, buf
      ensures Kept() && Faults(Lost(res)) && |Unread()| <= |old(Unread())|
      ensures Agrees(ParseHeader(old(Unread()), DOLLAR, InvalidBulkLength), res, Unread(), rd)
      ensures old(Smooth() && ClearLine(Unread(), plan)) ==> Smooth() && !Lost(res)
    {
      var line := ReadLine();
      if line.Err? { return Err(line.error); }
      res := ParseSize(line.value, DOLLAR, InvalidBulkLength);
    }

    /** The part of ReadBulk and ReadBulkString that buffers the payload. */
    method RequireBulk() returns (res: Result<nat>)
      requires Valid()
      modifies this, buf
      ensures Kept() && Faults(Lost(res)) && |Unread()| <= |old(Unread())|
      ensures res.Ok? ==> w - r >= res.value + 2
      ensures res.Ok? ==> ParseBulk(old(Unread())) == Done(Unread()[..res.value], Unread()[res.value + 2..])
      ensures res.Err? ==> Agrees(ParseBulk(old(Unread())), Err(res.error), [], rd)
      ensures old(Smooth() && ClearBulk(Unread(), plan)) ==> res.Ok? && Smooth()
    {
      hide ParseHeader, ParseBulk, ClearLine, Smooth, Unread;
      ghost var s, clear := Unread(), Smooth() && ClearBulk(Unread(), plan);
      BulkOfHeader(s);
      if clear { ClearBulkParts(s, plan); }
      res := ReadBulkLen();
      Parts();
      if res.Err? { return; }
      if res.value + 2 > MAX_INT64 { return Err(Overflow); }
      var err := Require(res.value + 2);
      if err.Some? { return Err(IO(err.value)); }
    }

    /** Consumes a buffered payload of `n` bytes and its trailer. */
    method TakeBulk(n: nat) returns (data: bytes)
      requires Valid() && w - r >= n + 2
      modifies this
      ensures Kept() && Faults(false) && buf == old(buf)
      ensures data == old(Unread())[..n] && Unread() == old(Unread())[n + 2..]
      ensures old(Smooth()) ==> Smooth()
    {
      ghost var s := Unread();
      data := buf[r..r + n];
      assert data == s[..n];
      Drop(n + 2);
    }

    method ReadBulkString() returns (res: Result<bytes>)
      requires Valid()
      modifies this, buf
      ensures Kept() && Faults(Lost(res)) && |Unread()| <= |old(Unread())|
      ensures Agrees(ParseBulk(old(Unread())), res, Unread(), rd)
      ensures old(Smooth() && ClearBulk(Unread(), plan)) ==> res.Ok? && Smooth()
    {
      var n := RequireBulk();
      if n.Err? { return Err(n.error); }
      var data := TakeBulk(n.value);
      return Ok(data);
    }

    /** Appends the payload to `p`; on an error `p` comes back as it was. */
    method ReadBulk(p: Slice) returns (q: Slice, err: Option<Error>)
      requires Valid() && p.Valid() && buf !in p.Backing()
      modifies this, buf, p.Backing()
      ensures Kept() && Faults(LostBy(err)) && buf !in p.Backing()
      ensures q.Valid() && (q.Backing() == p.Backing() || fresh(q.Backing()))
      ensures buf !in q.Backing()
      ensures err.None? ==>
                && ParseBulk(old(Unread())).Done?
                && q.Contents() == old(p.Contents()) + ParseBulk(old(Unread())).value
                && Unread() == ParseBulk(old(Unread())).rest
      ensures err.Some? ==> q == p && q.Contents() == old(p.Contents())
      ensures err.Some? ==> Agrees(ParseBulk(old(Unread())), Err(err.value), [], rd)
      ensures old(Smooth() && ClearBulk(Unread(), plan)) ==> err.None? && Smooth()
    {
      hide ParseBulk, ClearBulk, Agrees, Smooth, OnCuts, Flatten;
      var n := RequireBulk();
      if n.Err? { return p, Some(n.error); }
      var data := TakeBulk(n.value);
      ghost var rest := Unread();
      q := Append(p, data);
      assert Unread() == rest;
      err := None;
    }

    /** One Read of at most `k` bytes into an empty buffer, dropped at once. */
    method DropRead(k: nat) returns (n: nat, err: Option<SourceError>)
      requires Valid() && r == w == 0 && 0 < k <= buf.Length
      modifies this, buf
      ensures Kept() && Faults(false) && buf == old(buf) && r == w == 0
      ensures n <= k && n <= |old(rd).Rest()| && rd.Rest() == old(rd).Rest()[n..]
      ensures err.None? <==> n > 0
      ensures err.Some? ==> rd.Rest() == [] && rd.chunks == []
      ensures old(Roomy()) && |old(rd).Rest()| >= plan.low + k ==> Roomy()
    {
      hide OnCuts, Flatten;
      if Roomy() { ReadKeepsPlan(rd, k, plan); }
      var got := Read(rd, k);
      forall i | 0 <= i < |got.data| { buf[i] := got.data[i]; }
      rd := got.next;
      return |got.data|, got.err;
    }

    /** Reads `x` bytes from the source into an empty buffer and drops them. */
    method DiscardDirect(x: nat) returns (err: Option<SourceError>)
      requires Valid() && r == w == 0
      modifies this, buf
      ensures Kept() && Faults(false) && buf == old(buf) && r == w == 0
      ensures err.None? <==> |old(rd).Rest()| >= x
      ensures err.None? ==> rd.Rest() == old(rd).Rest()[x..]
      ensures err.Some? ==> rd.chunks == []
      ensures old(Roomy()) && |old(rd).Rest()| >= plan.low + x ==> Roomy()
    {
      hide OnCuts, Flatten, Roomy;
      var left := x;
      ghost var s, done := rd.Rest(), 0;
      // io.LimitReader(rd, x), read until it reports an error
      err := None;
      while left > 0 && err.None?
        invariant Kept() && Faults(false) && buf == old(buf) && r == w == 0
        invariant 0 <= left && done + left == x && done <= |s| && s[done..] == rd.Rest()
        invariant err.Some? ==> left > 0 && rd.Rest() == [] && rd.chunks == []
        invariant old(Roomy()) && |s| >= plan.low + x ==> Roomy()
        decreases left, err.None?
      {
        var n, e := DropRead(if left < buf.Length then left else buf.Length);
        assert s[done..][n..] == s[done + n..];
        left, done, err := left - n, done + n, e;
      }
    }

    /** Removes exactly `sz` bytes, past the buffer when they are not all in it. */
    method SkipN(sz: nat) returns (err: Option<SourceError>)
      requires Valid()
      modifies this, buf
      ensures Kept() && Faults(false) && buf == old(buf)
      ensures err.None? <==> |old(Unread())| >= sz
      ensures err.None? ==> Unread() == old(Unread())[sz..]
      ensures err.Some? ==> rd.chunks == []
      ensures old(Smooth() && !plan.seated && w - r + |rd.Rest()| >= plan.low + sz) ==> Smooth()
    {
      ghost var s, n := Unread(), w - r;
      var extra := sz - Buffered();
      if extra < 1 {
        Drop(sz);
        return None;
      }
      assert s[n..] == rd.Rest();
      r, w := 0, 0;
      err := DiscardDirect(extra);
      if err.None? { assert s[sz..] == s[n..][extra..]; }
      assert Unread() == rd.Rest();
    }

    method ReadDirect(k: nat) returns (data: bytes, err: Option<SourceError>)
      requires Valid() && r == w
      modifies this
      ensures Kept() && Faults(false) && buf == old(buf) && r == w
      ensures |data| <= k && old(Unread()) == data + Unread()
      ensures err.Some? ==> data == [] && rd.chunks == [] && Unread() == []
      ensures err.None? && k > 0 ==> data != []
      ensures old(Smooth() && !plan.seated && |rd.Rest()| >= plan.low + k && |rd.Rest()| > plan.low) ==>
                err.None? && Smooth() && (|data| == k || |rd.Rest()| in plan.cuts)
    {
      hide OnCuts;
      if Smooth() {
        ReadKeepsPlan(rd, k, plan);
        WholeOrAll(rd, k, plan);
      }
      var got := Read(rd, k);
      assert rd.chunks == [] ==> rd.Rest() == [];
      rd := got.next;
      return got.data, got.err;
    }

    /** Up to `k` bytes from the window, or straight from the source if it is empty. */
    method ReadSome(k: nat) returns (data: bytes, err: Option<SourceError>)
      requires Valid()
      modifies this
      ensures Kept() && Faults(false) && buf == old(buf)
      ensures |data| <= k && old(Unread()) == data + Unread()
      ensures err.Some? ==> data == [] && rd.chunks == [] && Unread() == []
      ensures err.None? && k > 0 ==> data != []
      ensures old(w > r) ==> w - r == old(w - r) - |data|
      ensures old(w > r) ==> err.None? && |data| == if k < old(w - r) then k else old(w - r)
      ensures old(Smooth() && !plan.seated && w - r + |rd.Rest()| >= plan.low + k && w - r + |rd.Rest()| > plan.low) ==>
                err.None? && Smooth() && (|data| == k || (w == r && |rd.Rest()| in plan.cuts))
    {
      if Buffered() == 0 {
        data, err := ReadDirect(k);
        return;
      }
      data := buf[r..r + if k < w - r then k else w - r];
      Drop(|data|);
      err := None;
    }

    method SkipBulk() returns (err: Option<Error>)
      requires Valid()
      modifies this, buf
      ensures Kept() && Faults(LostBy(err))
      ensures err.None? ==> ParseBulk(old(Unread())).Done? && Unread() == ParseBulk(old(Unread())).rest
      ensures err.Some? ==> Agrees(ParseBulk(old(Unread())), Err(err.value), [], rd)
      ensures old(Smooth() && !plan.seated && ClearBulk(Unread(), plan)) ==> err.None? && Smooth()
    {
      hide ClearLine, ParseHeader, Smooth, OnCuts, Flatten;
      var n := ReadBulkLen();
      if n.Err? { return Some(n.error); }
      if n.value + 2 > MAX_INT64 { return Some(Overflow); }
      var e := SkipN(n.value + 2);
      return if e.Some? then Some(IO(e.value)) else None;
    }

    method PeekN(offset: nat, n: nat) returns (res: Result<bytes>)
      requires Valid()
      modifies this, buf
      ensures Kept() && Faults(false) && Unread() == old(Unread())
      ensures offset + n > MAX_INT64 ==> res == Err(Overflow)
      ensures offset + n <= MAX_INT64 ==> (res.Ok? <==> |Unread()| >= offset + n)
      ensures res.Ok? ==> res.value == Unread()[offset..offset + n]
      ensures res.Err? && offset + n <= MAX_INT64 ==> res.error.IO? && rd.chunks == []
      ensures old(Smooth() && |Unread()| >= plan.low + offset + n) ==> Smooth()
    {
      hide Smooth, Unread, Flatten;
      if offset + n > MAX_INT64 { return Err(Overflow); }
      Parts();
      var err := Require(offset + n);
      Parts();
      if err.Some? { return Err(IO(err.value)); }
      SubSlice(buf[..], r, w, offset, offset + n);
      return Ok(buf[r + offset..r + offset + n]);
    }

    method ReadInt() returns (res: Result<int>)
      requires Valid()
      modifies this, buf
      ensures Kept() && Faults(Lost(res)) && |Unread()| <= |old(Unread())|
      ensures Agrees(ParseInteger(old(Unread())), res, Unread(), rd)
      ensures old(Smooth() && ClearLine(Unread(), plan)) ==> Smooth() && !Lost(res)
    {
      var line := ReadLine();
      if line.Err? { return Err(line.error); }
      res := ParseInt(line.value);
    }

    method ReadError() returns (res: Result<bytes>)
      requires Valid()
      modifies this, buf
      ensures Kept() && Faults(Lost(res)) && |Unread()| <= |old(Unread())|
      ensures Agrees(ParseText(old(Unread()), MINUS), res, Unread(), rd)
      ensures old(Smooth() && ClearLine(Unread(), plan)) ==> Smooth() && !Lost(res)
    {
      var line := ReadLine();
      if line.Err? { return Err(line.error); }
      res := ParseMessage(line.value, MINUS);
    }

    method ReadInlineString() returns (res: Result<bytes>)
      requires Valid()
      modifies this, buf
      ensures Kept() && Faults(Lost(res)) && |Unread()| <= |old(Unread())|
      ensures Agrees(ParseText(old(Unread()), PLUS), res, Unread(), rd)
      ensures old(Smooth() && ClearLine(Unread(), plan)) ==> Smooth() && !Lost(res)
    {
      var line := ReadLine();
      if line.Err? { return Err(line.error); }
      res := ParseMessage(line.value, PLUS);
    }

    method ReadNil() returns (res: Result<()>)
      requires Valid()
      modifies this, buf
      ensures Kept() && Faults(Lost(res)) && |Unread()| <= |old(Unread())|
      ensures Agrees(ParseNil(old(Unread())), res, Unread(), rd)
      ensures old(Smooth() && ClearLine(Unread(), plan)) ==> Smooth() && !Lost(res)
    {
      var line := ReadLine();
      if line.Err? { return Err(line.error); }
      var ln := line.value;
      if |ln| < 3 || ln[..3] != [DOLLAR, MINUS, 49] { return Err(Protocol(NotANil)); }
      return Ok(());
    }

    method PeekType() returns (res: Result<ReplyType>)
      requires Valid()
      modifies this, buf
      ensures Kept() && Faults(false) && Unread() == old(Unread())
      ensures res.Ok? <==> TypeOf(Unread()).Some?
      ensures res.Ok? ==> TypeOf(Unread()) == Some(res.value)
      ensures res.Err? ==> res.error.IO? && rd.chunks == []
      ensures Unread() == [] ==> res == Err(IO(rd.end))
      ensures old(Smooth() && |Unread()| >= plan.low + 2) ==> Smooth()
    {
      var err := Require(1);
      if err.Some? { return Err(IO(err.value)); }
      assert buf[r] == Unread()[0];
      if buf[r] == STAR { return Ok(ArrayReply); }
      if buf[r] == DOLLAR {
        err := Require(2);
        if err.Some? { return Err(IO(err.value)); }
        assert buf[r + 1] == Unread()[1];
        return Ok(if buf[r + 1] == MINUS then NilReply else BulkReply);
      }
      if buf[r] == PLUS { return Ok(InlineReply); }
      if buf[r] == MINUS { return Ok(ErrorReply); }
      if buf[r] == COLON { return Ok(IntReply); }
      return Ok(UnknownReply);
    }

    /** The payload of a bulk and its trailer, to be read piecemeal. */
    method StreamBulk() returns (res: Result<nat>)
      requires Valid()
      modifies this, buf
      ensures Kept() && Faults(Lost(res))
      ensures res.Ok? ==>
                ParseHeader(old(Unread()), DOLLAR, InvalidBulkLength) == Done(res.value - 2, Unread())
                && 2 <= res.value <= MAX_INT64
      ensures res.Err? ==> Agrees(ParseBulk(old(Unread())), Err(res.error), [], rd)
      ensures old(Smooth() && ClearBulk(Unread(), plan)) ==> res.Ok? && Smooth()
    {
      res := ReadBulkLen();
      if res.Err? { return; }
      if res.value + 2 > MAX_INT64 { return Err(Overflow); }
      return Ok(res.value + 2);
    }
  }

  /** A Read that does not fill its buffer stops at a planned cut. */
  lemma WholeOrAll(s: Source, k: nat, p: Plan)
    requires s.Valid() && OnCuts(s.chunks, p.cuts)
    ensures s.chunks != [] ==>
              |Read(s, k).data| == k || |Read(s, k).next.Rest()| in p.cuts
  {
  }

  /** The line at the front of a window, if its CR and one more byte are there. */
  function LineIn(win: bytes): (res: Result<bytes>)
    ensures res.Ok? ==> |res.value| <= |win|
    ensures res.Err? ==> res.error in {TooLong, Torn}
    ensures win == [] ==> res == Err(TooLong)
  {
    var i := FindCR(win);
    if i == |win| then Err(TooLong) else if i + 2 > |win| then Err(Torn) else Ok(win[..i + 2])
  }

  /** The line at the front of the window, or of the window and what one Read adds to it. */
  function LineAfterFill(win: bytes, got: ReadResult): Result<bytes> {
    if LineIn(win) != Err(TooLong) then LineIn(win)
    else if got.err.Some? then Err(IO(got.err.value))
    else LineIn(win + got.data)
  }

  /** A line found in the window is the line of the stream; a stream that ends with a
      window without a CR has none. */
  lemma SubSlice(s: bytes, i: nat, j: nat, a: nat, b: nat)
    requires i <= j <= |s| && a <= b <= j - i
    ensures s[i..j][a..b] == s[i + a..i + b]
  {
    var t := s[i..j];
    assert forall k :: 0 <= k < b - a ==> t[a..b][k] == t[a + k] == s[i + a + k] == s[i + a..i + b][k];
  }

  lemma BulkOfHeader(s: bytes)
    ensures var h, p := ParseHeader(s, DOLLAR, InvalidBulkLength), ParseBulk(s);
      && (h.Bad? ==> p == Bad(h.error)) && (h.Incomplete? ==> p.Incomplete?)
      && (h.Done? ==> p == if h.value + 2 > MAX_INT64 then Bad(Overflow)
                          else if |h.rest| < h.value + 2 then Incomplete
                          else Done(h.rest[..h.value], h.rest[h.value + 2..]))
  {
  }

  /** There is a line in the window exactly if a CR is in it that is not its last byte. */
  lemma LineInVerdict(win: bytes)
    ensures LineIn(win) == Err(TooLong) <==> CR !in win
    ensures LineIn(win) == Err(Torn) <==> win != [] && win[|win| - 1] == CR && CR !in win[..|win| - 1]
    ensures LineIn(win).Ok? ==>
              var line := LineIn(win).value; line <= win && |line| >= 2 && line[|line| - 2] == CR && CR !in line[..|line| - 2]
  {
    var i := FindCR(win);
    if i < |win| {
      assert win[i] in win;
      assert i + 1 < |win| ==> win[..|win| - 1][i] == CR;
      assert i + 1 == |win| ==> forall k :: 0 <= k < i ==> win[..|win| - 1][k] == win[k];
    }
  }

  lemma LineOfStream(win: bytes, tail: bytes, offset: nat)
    requires offset <= |win|
    ensures (win + tail)[offset..] == win[offset..] + tail
    ensures LineIn(win[offset..]).Ok? ==>
              var line := LineIn(win[offset..]).value;
              SplitLine((win + tail)[offset..]) == Done(line, (win + tail)[offset + |line|..])
    ensures LineIn(win[offset..]) == Err(TooLong) && tail == [] ==> SplitLine((win + tail)[offset..]).Incomplete?
  {
    var front, s := win[offset..], (win + tail)[offset..];
    assert s == front + tail;
    if LineIn(front).Ok? {
      var i := FindCR(front);
      assert forall k :: 0 <= k <= i ==> s[k] == front[k];
      FindCRUnique(s, i);
      assert s[..i + 2] == front[..i + 2];
      assert s[i + 2..] == (win + tail)[offset + (i + 2)..];
    }
  }

  /** Where the front of a clear line has been read up to a cut, either it is all there,
      or what is missing is a good deal of it, and the reader is at the start of the line
      or, if seated, on the only cut before the line's end. */
  lemma ClearLineBuffered(s: bytes, win: bytes, tail: bytes, p: Plan)
    requires s == win + tail && ClearLine(s, p)
    requires |tail| in p.cuts || (win == [] && !p.seated)
    ensures LineIn(win).Ok? || LineIn(win) == Err(TooLong)
    ensures LineIn(win) == Err(TooLong) ==> p.low < |tail| && (win == [] || p.seated)
  {
    var i := FindCR(s);
    if LineIn(win) != Err(TooLong) {
      var j := FindCR(win);
      assert forall k :: 0 <= k <= j ==> s[k] == win[k];
      FindCRUnique(s, j);
    } else {
      assert forall k :: 0 <= k < |win| ==> win[k] == s[k];
      assert i >= |win|;
    }
  }

  /** One more chunk, and it is all there. */
  lemma ClearLineFilled(s: bytes, win: bytes, tail: bytes, before: nat, p: Plan)
    requires s == win + tail && ClearLine(s, p)
    requires |tail| in p.cuts && |tail| < before <= |s| && (before in p.cuts || (before == |s| && !p.seated))
    ensures LineIn(win).Ok?
  {
    var i := FindCR(s);
    assert |tail| <= |SplitLine(s).rest|;
    assert forall k :: 0 <= k <= i ==> s[k] == win[k];
    FindCRUnique(win, i);
  }
}
