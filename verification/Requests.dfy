/** Reading requests: readCommand of resp/command.go and the RequestReader of
    resp/request.go. */
module Requests {
  import opened Bytes
  import opened Decimal
  import opened Lines
  import opened Tokens
  import opened Syntax
  import opened Delivery
  import opened Readers
  import opened Commands

  /** The command keeps its recycling invariant and shares nothing with the reader. */
  twostate predicate Settled(c: Command, r: Reader)
    reads c, c.slots, r
  {
    r.Kept() && c.Valid() && r.buf !in c.Repr() && fresh(c.Repr() - old(c.Repr()))
  }

  /** readCommand into a Command. It agrees with ParseCmd whatever storage the command
      brings along, and it meets no failure of delivery when the delivery is framed. */
  method ReadCommand(c: Command, r: Reader) returns (err: Option<Error>)
    requires c.Valid() && c.count == 0 && r.Valid() && r.buf !in c.Repr()
    modifies c.Repr(), r, r.buf
    ensures Settled(c, r) && r.Faults(LostBy(err))
    ensures err.None? ==> ParseCmd(old(r.Unread())) == Done(c.Cmd(), r.Unread())
    ensures err.Some? ==> Agrees(ParseCmd(old(r.Unread())), Err(err.value), [], r.rd)
    ensures old(r.Unread()) == [] ==> err == Some(IO(r.rd.end)) && r.Unread() == []
    ensures old(r.Smooth() && ClearCmd(r.Unread(), r.plan)) ==> err.None? && r.Smooth()
    decreases |r.Unread()|, 1
  {
    hide ClearLine, ClearCmd, ParseCmd, Agrees, Command.Args, Command.Valid, Reader.Smooth, ParseHeader, SplitLine, Tokens.InlineOf, Reader.Unread;
    ghost var s := r.Unread();
    if r.Smooth() && ClearCmd(s, r.plan) { ClearCmdParts(s, r.plan); }
    var x := PeekByteBeside(c, r);
    if x.Err? {
      EmptyStream(s, x.error, r.rd);
      return Some(x.error);
    }
    if x.value == STAR {
      err := ReadArray(c, r);
    } else {
      err := ReadLine(c, r);
    }
  }

  /** PeekByte, which leaves the command alone. */
  method PeekByteBeside(c: Command, r: Reader) returns (x: Result<byte>)
    requires c.Valid() && r.Valid() && r.buf !in c.Repr()
    modifies r, r.buf
    ensures r.Kept() && r.Faults(false) && r.buf !in c.Repr() && c.Valid() && c.count == old(c.count) && c.Repr() == old(c.Repr())
    ensures r.Unread() == old(r.Unread())
    ensures x.Ok? <==> r.Unread() != []
    ensures x.Ok? ==> x.value == r.Unread()[0]
    ensures x.Err? ==> x == Err(IO(r.rd.end)) && r.rd.chunks == []
    ensures old(r.Smooth() && |r.Unread()| > r.plan.low) ==> r.Smooth()
  {
    x := r.PeekByte();
  }

  /** The '*' branch of readCommand. */
  method ReadLenFor(c: Command, r: Reader) returns (sz: Result<nat>)
    requires c.Valid() && c.count == 0 && r.Valid() && r.buf !in c.Repr()
    modifies r, r.buf
    ensures r.Kept() && r.Faults(Lost(sz)) && r.buf !in c.Repr() && c.Valid() && c.Repr() == old(c.Repr())
    ensures |r.Unread()| <= |old(r.Unread())|
    ensures Agrees(ParseHeader(old(r.Unread()), STAR, InvalidMultiBulkLength), sz, r.Unread(), r.rd)
    ensures old(r.Smooth() && ClearLine(r.Unread(), r.plan)) ==> r.Smooth() && !Lost(sz)
  {
    sz := r.ReadArrayLen();
  }

  method ReadArray(c: Command, r: Reader) returns (err: Option<Error>)
    requires c.Valid() && c.count == 0 && r.Valid() && r.buf !in c.Repr()
    requires r.Unread() != [] && r.Unread()[0] == STAR
    modifies c.Repr(), r, r.buf
    ensures Settled(c, r) && r.Faults(LostBy(err))
    ensures err.None? ==> ParseCmd(old(r.Unread())) == Done(c.Cmd(), r.Unread())
    ensures err.Some? ==> Agrees(ParseCmd(old(r.Unread())), Err(err.value), [], r.rd)
    ensures old(r.Smooth() && ClearCmd(r.Unread(), r.plan)) ==> err.None? && r.Smooth()
    decreases |r.Unread()|, 0
  {
    hide ClearLine, ClearBulk, ClearBulks, ClearCmd, ParseCmd, ParseBulk, ParseBulks, ParseHeader;
    hide Command.Valid, Command.Args, Reader.Smooth, Reader.Unread;
    ghost var s, planned := r.Unread(), r.Smooth() && ClearCmd(r.Unread(), r.plan);
    if planned { ClearCmdParts(s, r.plan); }
    ParseCmdMultiBulk(s);
    var sz := ReadLenFor(c, r);
    if sz.Err? { return Some(sz.error); }
    if sz.value < 1 {
      err := ReadCommand(c, r);
      return;
    }
    err := ReadNamed(c, r, sz.value - 1);
  }

  /** A name and `nargs` arguments, each as a bulk. */
  method ReadNamed(c: Command, r: Reader, nargs: nat) returns (err: Option<Error>)
    requires c.Valid() && c.count == 0 && r.Valid() && r.buf !in c.Repr()
    modifies c.Repr(), r, r.buf
    ensures Settled(c, r) && r.Faults(LostBy(err))
    ensures err.None? ==>
              var name := ParseBulk(old(r.Unread()));
              && name.Done? && c.name == name.value
              && ParseBulks(name.rest, nargs) == Done(c.Args(), r.Unread())
    ensures err.Some? ==>
              var name := ParseBulk(old(r.Unread()));
              Agrees(name, Err(err.value), [], r.rd)
              || (name.Done? && Agrees(ParseBulks(name.rest, nargs), Err(err.value), [], r.rd))
    ensures old(r.Smooth() && ClearBulks(r.Unread(), nargs + 1, r.plan)) ==> err.None? && r.Smooth()
  {
    hide ClearBulk, ParseBulk, ParseBulks, Command.Valid, Command.Args, Reader.Smooth, Reader.Unread;
    var name := r.ReadBulkString();
    if name.Err? { return Some(name.error); }
    err := c.ReadMultiBulk(r, name.value, nargs);
  }

  /** The inline branch of readCommand. */
  method ReadLine(c: Command, r: Reader) returns (err: Option<Error>)
    requires c.Valid() && c.count == 0 && r.Valid() && r.buf !in c.Repr()
    requires r.Unread() != [] && r.Unread()[0] != STAR
    modifies c.Repr(), r, r.buf
    ensures Settled(c, r) && r.Faults(LostBy(err))
    ensures err.None? ==> ParseCmd(old(r.Unread())) == Done(c.Cmd(), r.Unread())
    ensures err.Some? ==> Agrees(ParseCmd(old(r.Unread())), Err(err.value), [], r.rd)
    ensures old(r.Smooth() && ClearCmd(r.Unread(), r.plan)) ==> err.None? && r.Smooth()
    decreases |r.Unread()|, 0
  {
    hide ParseCmd, ParseHeader, ParseBulks, SplitLine, InlineOf, ClearCmd, ClearLine, Command.Valid, Command.Args, Reader.Unread, Reader.Smooth;
    ghost var s := r.Unread();
    ParseCmdInline(s);
    if ClearCmd(s, r.plan) { ClearCmdParts(s, r.plan); }
    var ok := c.ReadInline(r);
    if ok.Err? { return Some(ok.error); }
    if !ok.value {
      err := ReadCommand(c, r);
      return;
    }
    return None;
  }

  lemma EmptyStream(s: bytes, e: Error, src: Source)
    requires s == [] && e.IO? && src.chunks == []
    ensures Agrees(ParseCmd(s), Err(e), [], src) && Agrees(ParseSkip(s), Err(e), [], src)
  {
  }

  /** ReadCmd with a command to recycle. */
  method ReadCmd(c: Command, r: Reader) returns (err: Option<Error>)
    requires c.Valid() && r.Valid() && r.buf !in c.Repr()
    modifies c.Repr(), r, r.buf
    ensures Settled(c, r) && r.Faults(LostBy(err))
    ensures err.None? ==> ParseCmd(old(r.Unread())) == Done(c.Cmd(), r.Unread())
    ensures err.Some? ==> Agrees(ParseCmd(old(r.Unread())), Err(err.value), [], r.rd)
    ensures old(r.Unread()) == [] ==> err == Some(IO(r.rd.end)) && r.Unread() == []
    ensures old(r.Smooth() && ClearCmd(r.Unread(), r.plan)) ==> err.None? && r.Smooth()
  {
    hide ParseCmd, ClearCmd, Agrees, Command.Valid, Command.Args;
    c.Reset();
    err := ReadCommand(c, r);
  }

  /** SkipCmd: on an inline command it drops one line. */
  method SkipCmd(r: Reader) returns (err: Option<Error>)
    requires r.Valid()
    modifies r, r.buf
    ensures r.Kept() && r.Faults(LostBy(err))
    ensures err.None? ==> ParseSkip(old(r.Unread())).Done? && r.Unread() == ParseSkip(old(r.Unread())).rest
    ensures err.Some? ==> Agrees(ParseSkip(old(r.Unread())), Err(err.value), [], r.rd)
    ensures old(r.Unread()) == [] ==> err == Some(IO(r.rd.end)) && r.Unread() == []
    ensures old(r.Smooth() && !r.plan.seated && ClearCmd(r.Unread(), r.plan)) ==> err.None? && r.Smooth()
    decreases |r.Unread()|
  {
    hide ClearLine, ClearBulk, ClearBulks, ClearCmd, ParseBulk, ParseBulks, ParseHeader, SplitLine, InlineOf;
    hide Reader.Smooth, Reader.Unread, Reader.Window, OnCuts, Flatten;
    ghost var s, planned := r.Unread(), r.Smooth() && !r.plan.seated && ClearCmd(r.Unread(), r.plan);
    if planned { ClearCmdParts(s, r.plan); }
    var c := r.PeekByte();
    if c.Err? { return Some(c.error); }
    if c.value != STAR {
      var line := r.ReadLine();
      return if line.Err? then Some(line.error) else None;
    }
    var n := r.ReadArrayLen();
    if n.Err? { return Some(n.error); }
    if n.value < 1 {
      err := SkipCmd(r);
      return;
    }
    err := SkipBulks(r, n.value);
  }

  /** The loops over SkipBulk in SkipCmd. */
  method SkipBulks(r: Reader, n: nat) returns (err: Option<Error>)
    requires r.Valid()
    modifies r, r.buf
    ensures r.Kept() && r.Faults(LostBy(err))
    ensures err.None? ==>
              ParseBulks(old(r.Unread()), n).Done? && r.Unread() == ParseBulks(old(r.Unread()), n).rest
    ensures err.Some? ==> Agrees(ParseBulks(old(r.Unread()), n), Err(err.value), [], r.rd)
    ensures old(r.Smooth() && !r.plan.seated && ClearBulks(r.Unread(), n, r.plan)) ==> err.None? && r.Smooth()
  {
    hide ParseBulk, ParseBulks, ClearBulk, Agrees, Reader.Smooth, Reader.Unread;
    ghost var s, planned := r.Unread(), r.Smooth() && !r.plan.seated && ClearBulks(r.Unread(), n, r.plan);
    ghost var bs: seq<bytes> := [];
    NoBulks(s);
    err := None;
    for i := 0 to n
      invariant r.Kept() && r.Faults(false) && err.None?
      invariant ParseBulks(s, i) == Done(bs, r.Unread())
      invariant planned ==> r.Smooth() && ClearBulks(r.Unread(), n - i, r.plan)
    {
      ghost var u := r.Unread();
      BulksStep(s, i, n, bs, u);
      err := r.SkipBulk();
      if err.Some? {
        AgreesWithAll(ParseBulk(u), ParseBulks(s, n), err.value, r.rd);
        return;
      }
      bs := bs + [ParseBulk(u).value];
    }
  }

  lemma NoBulks(s: bytes)
    ensures ParseBulks(s, 0) == Done([], s)
  {
  }

  /** How a peek that did not fail for delivery relates to the stream. */
  ghost predicate Sees(p: Peeked, res: Result<bytes>, src: Source) {
    match res
    case Ok(name) => p == Named(name)
    case Err(IO(_)) => p.Unseen? && src.chunks == []
    case Err(e) => e.Delivery() || p == Refused(e)
  }

  /** PeekCmd: the name of the next command; nothing is consumed. */
  method PeekCmd(r: Reader) returns (name: Result<bytes>)
    requires r.Valid()
    modifies r, r.buf
    ensures r.Kept() && r.Faults(Lost(name)) && r.Unread() == old(r.Unread())
    ensures Sees(PeekName(r.Unread(), 0), name, r.rd)
    ensures r.Unread() == [] ==> name == Err(IO(r.rd.end))
    ensures old(r.Smooth() && ClearCmd(r.Unread(), r.plan)) ==> (name.Ok? || name == Err(Overflow)) && r.Smooth()
  {
    assert r.Unread()[0..] == r.Unread();
    name := PeekCmdAt(r, 0);
  }

  /** PeekCmd and then ReadCmd: the name is the one peeked exactly if peeking is faithful
      there. */
  method PeekThenRead(c: Command, r: Reader) returns (name: Result<bytes>, err: Option<Error>)
    requires c.Valid() && r.Valid() && r.buf !in c.Repr()
    modifies c.Repr(), r, r.buf
    ensures r.Kept() && r.Faults(Lost(name) || LostBy(err)) && c.Valid()
    ensures err.None? ==> ParseCmd(old(r.Unread())) == Done(c.Cmd(), r.Unread())
    ensures name.Ok? && err.None? && |old(r.Unread())| - |r.Unread()| <= MAX_INT64 ==>
              (name.value == c.name <==> PeekFaithful(old(r.Unread())))
    ensures old(r.Smooth() && ClearCmd(r.Unread(), r.plan)) ==> (name.Ok? || name == Err(Overflow)) && err.None?
  {
    hide ParseCmd, ClearCmd, PeekName, PeekFaithful, NameAhead, Agrees, Command.Valid, Command.Args, Reader.Smooth, Reader.Unread;
    ghost var s := r.Unread();
    assert s[0..] == s;
    PeekAgrees(s, 0);
    name := PeekBeside(c, r);
    err := ReadCmd(c, r);
  }

  /** PeekCmd, which leaves the command alone. */
  method PeekBeside(c: Command, r: Reader) returns (name: Result<bytes>)
    requires c.Valid() && r.Valid() && r.buf !in c.Repr()
    modifies r, r.buf
    ensures r.Kept() && r.Faults(Lost(name)) && r.buf !in c.Repr() && c.Valid() && c.Repr() == old(c.Repr())
    ensures r.Unread() == old(r.Unread()) && Sees(PeekName(r.Unread(), 0), name, r.rd)
    ensures old(r.Smooth() && ClearCmd(r.Unread(), r.plan)) ==> (name.Ok? || name == Err(Overflow)) && r.Smooth()
  {
    hide PeekName, Sees, ClearCmd, Reader.Smooth, Reader.Unread;
    name := PeekCmd(r);
  }

  method PeekCmdAt(r: Reader, offset: nat) returns (name: Result<bytes>)
    requires r.Valid() && offset <= r.Buffered()
    modifies r, r.buf
    ensures r.Kept() && r.Faults(Lost(name)) && r.Unread() == old(r.Unread())
    ensures Sees(PeekName(r.Unread(), offset), name, r.rd)
    ensures r.Unread() == [] ==> name == Err(IO(r.rd.end))
    ensures old(r.Smooth() && ClearCmd(r.Unread()[offset..], r.plan)) ==> (name.Ok? || name == Err(Overflow)) && r.Smooth()
    decreases |r.Unread()| - offset
  {
    hide ClearLine, ClearBulk, ClearCmd, PeekName, PeekBulk, SplitLine, FirstWordOf, SizeOf, Reader.PeekedLine, Reader.Smooth, Reader.Unread;
    BufferedIsUnread(r);
    ghost var s := r.Unread();
    PeekNameAt(s, offset);
    ghost var t := s[offset..];
    ghost var planned := r.Smooth() && ClearCmd(t, r.plan);
    if planned { ClearCmdParts(t, r.plan); }
    var line := r.PeekLine(offset);
    if line.Err? { return Err(line.error); }
    BufferedIsUnread(r);
    assert line.value[0] == t[0];
    if line.value[0] != STAR {
      var word := FirstWord(line.value);
      return Ok(word);
    }
    var n := ParseSize(line.value, STAR, InvalidMultiBulkLength);
    if n.Err? { return Err(n.error); }
    if n.value < 1 {
      name := PeekCmdAt(r, offset + |line.value|);
    } else {
      name := PeekBulkAt(r, offset + |line.value|);
    }
  }

  lemma BufferedIsUnread(r: Reader)
    requires r.Valid()
    ensures r.Buffered() <= |r.Unread()|
  {
  }

  /** The name behind the multi-bulk header. */
  method PeekBulkAt(r: Reader, offset: nat) returns (name: Result<bytes>)
    requires r.Valid() && offset <= r.Buffered()
    modifies r, r.buf
    ensures r.Kept() && r.Faults(Lost(name)) && r.Unread() == old(r.Unread())
    ensures Sees(PeekBulk(r.Unread(), offset), name, r.rd)
    ensures old(r.Smooth() && ClearBulk(r.Unread()[offset..], r.plan)) ==> name.Ok? || name == Err(Overflow)
    ensures old(r.Smooth() && ClearBulk(r.Unread()[offset..], r.plan)) ==> r.Smooth()
  {
    hide ClearLine, ClearBulk, ParseBulk, SplitLine, FindCR, SizeOf, Reader.PeekedLine, Reader.Smooth, Reader.Unread;
    BufferedIsUnread(r);
    ghost var t := r.Unread()[offset..];
    if ClearBulk(t, r.plan) { ClearBulkParts(t, r.plan); }
    var line := r.PeekLine(offset);
    if line.Err? { return Err(line.error); }
    BufferedIsUnread(r);
    var n := ParseSize(line.value, DOLLAR, InvalidBulkLength);
    if n.Err? { return Err(n.error); }
    name := r.PeekN(offset + |line.value|, n.value);
  }
}
