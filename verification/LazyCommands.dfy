/** Commands whose arguments are read lazily: CommandStream of resp/command.go. */
module LazyCommands {
  import opened Bytes
  import opened Decimal
  import opened Tokens
  import opened Syntax
  import opened Delivery
  import opened Readers
  import opened Bulks
  import opened Commands
  import opened Requests

  /** What opening a command stream finds: a whole inline command, or the name of a
      multi-bulk and the number of bulks that follow. */
  datatype Opened = Line(cmd: Cmd) | Bulks(name: bytes, nargs: nat)

  function ParseOpen(s: bytes): (p: Parsed<Opened>)
    ensures p.Done? ==> |p.rest| < |s|
    decreases |s|
  {
    if s == [] then Incomplete
    else if s[0] == STAR then
      match ParseHeader(s, STAR, InvalidMultiBulkLength)
      case Incomplete => Incomplete
      case Bad(e) => Bad(e)
      case Done(n, rest) =>
        if n < 1 then ParseOpen(rest)
        else
          match ParseBulk(rest)
          case Incomplete => Incomplete
          case Bad(e) => Bad(e)
          case Done(name, u) => Done(Bulks(name, n - 1), u)
    else
      match SplitLine(s)
      case Incomplete => Incomplete
      case Bad(e) => Bad(e)
      case Done(line, rest) =>
        match InlineOf(line)
        case None => ParseOpen(rest)
        case Some(cmd) => Done(Line(cmd), rest)
  }

  /** The command that an opened stream turns into when all its arguments are read. */
  function Complete(p: Parsed<Opened>): Parsed<Cmd> {
    match p
    case Incomplete => Incomplete
    case Bad(e) => Bad(e)
    case Done(Line(cmd), rest) => Done(cmd, rest)
    case Done(Bulks(name, n), rest) =>
      match ParseBulks(rest, n)
      case Incomplete => Incomplete
      case Bad(e) => Bad(e)
      case Done(args, u) => Done(Cmd(name, args), u)
  }

  /** Opening lazily and completing is reading eagerly. */
  lemma {:induction false} OpenAgrees(s: bytes)
    ensures Complete(ParseOpen(s)) == ParseCmd(s)
    decreases |s|
  {
    hide ParseBulk, ParseBulks, InlineOf;
    if s != [] && s[0] == STAR {
      ParseCmdMultiBulk(s);
      match ParseHeader(s, STAR, InvalidMultiBulkLength)
      case Done(n, rest) => if n < 1 { OpenAgrees(rest); }
      case _ =>
    } else if SplitLine(s).Done? && InlineOf(SplitLine(s).value).None? {
      OpenAgrees(SplitLine(s).rest);
    }
  }

  /** The reader that Next hands out. */
  datatype Arg = Whole(data: bytes) | Streamed(b: BulkReader)

  class CommandStream {
    var name: bytes
    const inline: Command
    var isInline: bool
    var nargs: nat
    var pos: nat
    var arg: BulkReader?
    var rd: Reader?

    ghost predicate Valid()
      reads this, inline, inline.slots
    {
      && inline.Valid() && (nargs > 0 ==> rd != null)
      && (arg != null ==> rd != null && arg.rd == rd)
    }

    /** Nothing is open yet. */
    ghost predicate Closed()
      reads this, inline, inline.slots
    {
      Valid() && inline.count == 0 && nargs == 0 && pos == 0 && arg == null && rd == null
    }

    ghost function Repr(): set<object>
      reads this, inline, inline.slots
    {
      {this} + inline.Repr()
    }

    /** The stream stands at the first argument of what was opened on `r`. */
    ghost predicate Holds(o: Opened, r: Reader)
      reads this, inline, inline.slots, inline.Backing()
    {
      && Valid() && pos == 0 && arg == null
      && match o
         case Line(cmd) => isInline && inline.Cmd() == cmd && name == cmd.name && nargs == 0 && rd == null
         case Bulks(n, k) => name == n && nargs == k && rd == r && inline.count == 0
    }

    constructor ()
      ensures Closed() && !isInline && fresh(Repr())
    {
      var cmd := new Command();
      inline := cmd;
      name, isInline, nargs, pos, arg, rd := [], false, 0, 0, null, null;
    }

    method Reset()
      requires Valid()
      modifies this, inline, inline.slots
      ensures Closed() && !isInline && Repr() == old(Repr())
    {
      inline.Reset();
      name, isInline, nargs, pos, arg, rd := [], false, 0, 0, null, null;
    }

    function ArgN(): nat
      reads this, inline
    {
      if isInline then inline.count else nargs
    }

    predicate More()
      reads this, inline
    {
      pos < ArgN()
    }

    method ReadMultiBulk(r: Reader, name: bytes, nargs: nat)
      requires Closed()
      modifies this
      ensures Holds(Bulks(name, nargs), r) && isInline == old(isInline) && Repr() == old(Repr())
    {
      this.name := name;
      this.nargs := nargs;
      this.rd := r;
    }

    method ReadInline(r: Reader) returns (ok: Result<bool>)
      requires Closed() && r.Valid() && r.buf !in inline.Repr()
      modifies Repr(), r, r.buf
      ensures r.Kept() && r.Faults(Lost(ok)) && r.buf !in inline.Repr() && fresh(Repr() - old(Repr())) && Valid() && isInline
      ensures ok.Err? ==> Agrees(SplitLine(old(r.Unread())), Err(ok.error), r.Unread(), r.rd) && !ok.error.Protocol?
      ensures ok.Ok? ==> SplitLine(old(r.Unread())).Done? && r.Unread() == SplitLine(old(r.Unread())).rest
      ensures ok == Ok(true) ==>
                var cmd := InlineOf(SplitLine(old(r.Unread())).value); cmd.Some? && Holds(Line(cmd.value), r)
      ensures ok == Ok(false) ==> InlineOf(SplitLine(old(r.Unread())).value).None? && Closed()
      ensures old(r.Smooth() && ClearLine(r.Unread(), r.plan)) ==> ok.Ok? && r.Smooth()
    {
      hide SplitLine, InlineOf, ClearLine, Reader.Unread, Reader.Smooth, Command.Valid, Command.Args, Agrees;
      isInline := true;
      ok := inline.ReadInline(r);
      if ok == Ok(true) { name := inline.name; }
    }

    /** The next argument. Whatever was left of the previous one is not discarded. */
    method Next() returns (res: Result<Arg>)
      requires Valid() && (rd != null ==> rd.Valid())
      modifies this, rd, if rd != null then {rd.buf} else {}
      ensures Valid() && Repr() == old(Repr()) && inline.count == old(inline.count)
      ensures isInline == old(isInline) && nargs == old(nargs) && rd == old(rd) && name == old(name)
      ensures !old(More()) ==> res == Err(NoMoreArgs) && pos == old(pos) && arg == old(arg)
      ensures old(More()) ==> pos == old(pos) + 1
      ensures old(More() && isInline) ==> res == Ok(Whole(inline.Args()[pos - 1])) && arg == old(arg)
      ensures isInline || !old(More()) ==> rd != null ==> rd.Valid() && rd.Unread() == old(rd.Unread()) && rd.Kept() && rd.Faults(false)
      ensures old(More() && !isInline) ==>
                && rd.Kept() && rd.Faults(Lost(res))
                && (res.Ok? ==>
                     && res.value.Streamed? && fresh(res.value.b) && arg == res.value.b && res.value.b.rd == rd
                     && 2 <= res.value.b.n <= MAX_INT64
                     && ParseHeader(old(rd.Unread()), DOLLAR, InvalidBulkLength) == Done(res.value.b.n - 2, rd.Unread()))
                && (res.Err? ==> arg == null && Agrees(ParseBulk(old(rd.Unread())), Err(res.error), [], rd.rd))
      ensures old(More() && !isInline && rd.Smooth() && ClearBulk(rd.Unread(), rd.plan)) ==> res.Ok? && rd.Smooth()
    {
      hide ParseBulk, ParseHeader, ClearBulk, Agrees, Reader.Smooth, Reader.Unread, Command.Valid, Command.Backing;
      if !More() { return Err(NoMoreArgs); }
      if isInline {
        var data := inline.Args()[pos];
        pos := pos + 1;
        return Ok(Whole(data));
      }
      arg := null;
      var n := rd.StreamBulk();
      pos := pos + 1;
      if n.Err? { return Err(n.error); }
      var b := new BulkReader(rd, n.value);
      arg := b;
      return Ok(Streamed(b));
    }

    /** Bytes of the argument handed out last that were not read. */
    ghost function Pending(): nat
      reads this, arg
    {
      if arg == null then 0 else arg.n
    }

    /** Arguments that were not handed out. */
    function Remaining(): nat
      reads this
    {
      if pos < nargs then nargs - pos else 0
    }

    /** What is left of the command is there, on the unread stream `u`. */
    ghost predicate RestThere(u: bytes)
      reads this, arg
    {
      Pending() <= |u| && ParseBulks(u[Pending()..], Remaining()).Done?
    }

    /** What is left of the command is framed. */
    ghost predicate RestClear()
      reads this, arg, rd, if rd != null then {rd.buf} else {}
      requires rd != null && rd.Valid()
    {
      && rd.Smooth() && !rd.plan.seated && |rd.Unread()| >= rd.plan.low + Pending()
      && ClearBulks(rd.Unread()[Pending()..], Remaining(), rd.plan)
    }

    /** Discards the rest of the command: the end of the last argument that was handed
        out, and the arguments that never were. Where the delivery does not fail the reader,
        it succeeds exactly if they are there. */
    method Discard() returns (err: Option<Error>)
      requires Valid() && (rd != null ==> rd.Valid())
      modifies this, arg, rd, if rd != null then {rd.buf} else {}
      ensures Valid() && Repr() == old(Repr())
      ensures rd == old(rd) && (rd != null ==> rd.Kept())
      ensures old(rd == null) ==> err.None?
      ensures old(isInline && pos < inline.count) ==> err.None? && (rd != null ==> rd.Unread() == old(rd.Unread()))
      ensures !old(isInline && pos < inline.count) && rd != null && err.None? ==>
                && old(Pending()) <= |old(rd.Unread())|
                && ParseBulks(old(rd.Unread())[old(Pending())..], old(Remaining())).Done?
                && rd.Unread() == ParseBulks(old(rd.Unread())[old(Pending())..], old(Remaining())).rest
      ensures rd != null ==> rd.FaultShows(err.Some?)
      ensures rd != null && old(RestThere(rd.Unread())) && err.Some? ==> rd.faulty
      ensures old(!(isInline && pos < inline.count) && rd != null && RestClear()) ==> err.None? && rd.Smooth()
    {
      hide ParseBulk, ParseBulks, ClearBulk, ClearBulks, Reader.Smooth, Flatten;
      if isInline {
        if pos < inline.count {
          pos := inline.count;
          return None;
        }
      }
      err := None;
      if arg != null {
        var e := arg.Close();
        if e.Some? { err := Some(IO(e.value)); }
        arg := null;
      } else if rd != null {
        assert rd.Unread()[0..] == rd.Unread();
      }
      if rd != null {
        var e := SkipRest();
        if e.Some? { err := e; }
      }
    }

    /** The loop of Discard, which goes on past errors. */
    method SkipRest() returns (err: Option<Error>)
      requires Valid() && rd != null && rd.Valid()
      modifies this`pos, rd, rd.buf
      ensures Valid() && rd.Kept()
      ensures err.None? ==> ParseBulks(old(rd.Unread()), old(Remaining())).Done?
                            && rd.Unread() == ParseBulks(old(rd.Unread()), old(Remaining())).rest
      ensures rd.FaultShows(err.Some?)
      ensures ParseBulks(old(rd.Unread()), old(Remaining())).Done? && err.Some? ==> rd.faulty
      ensures old(rd.Smooth() && !rd.plan.seated && ClearBulks(rd.Unread(), Remaining(), rd.plan)) ==> err.None? && rd.Smooth()
    {
      hide ParseBulk, ParseBulks, ClearBulk, Reader.Smooth, Reader.Unread;
      ghost var s, n, i: nat := rd.Unread(), Remaining(), 0;
      ghost var planned := rd.Smooth() && !rd.plan.seated && ClearBulks(s, n, rd.plan);
      ghost var bs: seq<bytes> := [];
      NoBulks(s);
      err := None;
      while pos < nargs
        invariant Valid() && rd.Kept() && i <= n && Remaining() == n - i
        invariant err.None? ==> ParseBulks(s, i) == Done(bs, rd.Unread())
        invariant rd.FaultShows(err.Some?)
        invariant ParseBulks(s, n).Done? && err.Some? ==> rd.faulty
        invariant planned ==> err.None? && rd.Smooth() && ClearBulks(rd.Unread(), n - i, rd.plan)
      {
        ghost var u := rd.Unread();
        if err.None? { BulksStep(s, i, n, bs, u); }
        var e := rd.SkipBulk();
        if e.Some? { err := e; }
        if err.None? { bs := bs + [ParseBulk(u).value]; }
        pos, i := pos + 1, i + 1;
      }
    }
  }

  /** The command stream keeps its recycling invariant and shares nothing with the reader. */
  twostate predicate StreamSettled(c: CommandStream, r: Reader)
    reads c, c.inline, c.inline.slots, r
  {
    r.Kept() && c.Valid() && r.buf !in c.Repr() && fresh(c.Repr() - old(c.Repr()))
  }

  /** readCommand into a CommandStream. An inline line sets isInline before it is known
      not to be blank, so a multi-bulk behind a blank line counts as inline. */
  method OpenCommand(c: CommandStream, r: Reader) returns (err: Option<Error>)
    requires c.Closed() && r.Valid() && r.buf !in c.Repr()
    modifies c.Repr(), r, r.buf
    ensures StreamSettled(c, r) && r.Faults(LostBy(err))
    ensures err.None? ==>
              var p := ParseOpen(old(r.Unread()));
              && p.Done? && r.Unread() == p.rest && c.Holds(p.value, r)
              && (c.isInline <==> old(c.isInline) || p.value.Line? || BlankHead(old(r.Unread())))
    ensures err.Some? ==> Agrees(ParseOpen(old(r.Unread())), Err(err.value), [], r.rd)
    ensures old(r.Smooth() && ClearCmd(r.Unread(), r.plan)) ==> err.None? && r.Smooth()
    decreases |r.Unread()|, 1
  {
    hide ClearLine, ClearCmd, ParseOpen, ParseHeader, ParseBulk, SplitLine, InlineOf, BlankHead, Agrees;
    hide Command.Valid, Command.Args, CommandStream.Holds, Reader.Smooth, Reader.Unread;
    ghost var s := r.Unread();
    if r.Smooth() && ClearCmd(s, r.plan) { ClearCmdParts(s, r.plan); }
    var x := PeekByteFor(c, r);
    if x.Err? {
      NothingToOpen(s, x.error, r.rd);
      return Some(x.error);
    }
    if x.value == STAR {
      err := OpenArray(c, r);
    } else {
      err := OpenLine(c, r);
    }
  }

  /** PeekByte, which leaves the command stream alone. */
  method PeekByteFor(c: CommandStream, r: Reader) returns (x: Result<byte>)
    requires c.Closed() && r.Valid() && r.buf !in c.Repr()
    modifies r, r.buf
    ensures r.Kept() && r.Faults(false) && r.buf !in c.Repr() && c.Closed() && c.isInline == old(c.isInline) && c.Repr() == old(c.Repr())
    ensures r.Unread() == old(r.Unread())
    ensures x.Ok? <==> r.Unread() != []
    ensures x.Ok? ==> x.value == r.Unread()[0]
    ensures x.Err? ==> x.error.IO? && r.rd.chunks == []
    ensures old(r.Smooth() && |r.Unread()| > r.plan.low) ==> r.Smooth()
  {
    x := r.PeekByte();
  }

  lemma NothingToOpen(s: bytes, e: Error, src: Source)
    requires s == [] && e.IO? && src.chunks == []
    ensures Agrees(ParseOpen(s), Err(e), [], src)
  {
  }

  lemma OpenOfArray(s: bytes)
    requires s != [] && s[0] == STAR
    ensures var h, p := ParseHeader(s, STAR, InvalidMultiBulkLength), ParseOpen(s);
      match h
      case Incomplete => p.Incomplete?
      case Bad(e) => p == Bad(e)
      case Done(n, rest) =>
        if n < 1 then p == ParseOpen(rest) && (BlankHead(s) <==> BlankHead(rest))
        else
          && !BlankHead(s)
          && match ParseBulk(rest)
             case Incomplete => p.Incomplete?
             case Bad(e) => p == Bad(e)
             case Done(name, u) => p == Done(Bulks(name, n - 1), u)
  {
  }

  method ReadLenFor(c: CommandStream, r: Reader) returns (sz: Result<nat>)
    requires c.Closed() && r.Valid() && r.buf !in c.Repr()
    modifies r, r.buf
    ensures r.Kept() && r.Faults(Lost(sz)) && r.buf !in c.Repr() && c.Closed() && c.isInline == old(c.isInline) && c.Repr() == old(c.Repr())
    ensures |r.Unread()| <= |old(r.Unread())|
    ensures Agrees(ParseHeader(old(r.Unread()), STAR, InvalidMultiBulkLength), sz, r.Unread(), r.rd)
    ensures old(r.Smooth() && ClearLine(r.Unread(), r.plan)) ==> r.Smooth() && !Lost(sz)
  {
    sz := r.ReadArrayLen();
  }

  lemma ReadLenEnds(s: bytes, sz: Result<nat>, r: Reader)
    requires r.Valid() && s != [] && s[0] == STAR
    requires Agrees(ParseHeader(s, STAR, InvalidMultiBulkLength), sz, r.Unread(), r.rd)
    ensures sz.Ok? ==> ParseHeader(s, STAR, InvalidMultiBulkLength) == Done(sz.value, r.Unread())
    ensures sz.Err? ==> Agrees(ParseOpen(s), Err(sz.error), [], r.rd)
  {
    hide ParseHeader, ParseBulk, SplitLine;
  }

  method OpenArray(c: CommandStream, r: Reader) returns (err: Option<Error>)
    requires c.Closed() && r.Valid() && r.buf !in c.Repr()
    requires r.Unread() != [] && r.Unread()[0] == STAR
    modifies c.Repr(), r, r.buf
    ensures StreamSettled(c, r) && r.Faults(LostBy(err))
    ensures err.None? ==>
              var p := ParseOpen(old(r.Unread()));
              && p.Done? && r.Unread() == p.rest && c.Holds(p.value, r)
              && (c.isInline <==> old(c.isInline) || p.value.Line? || BlankHead(old(r.Unread())))
    ensures err.Some? ==> Agrees(ParseOpen(old(r.Unread())), Err(err.value), [], r.rd)
    ensures old(r.Smooth() && ClearCmd(r.Unread(), r.plan)) ==> err.None? && r.Smooth()
    decreases |r.Unread()|, 0
  {
    hide ClearLine, ClearBulk, ClearBulks, ClearCmd, ParseBulk, ParseHeader, SplitLine, InlineOf, ParseOpen, BlankHead, Agrees;
    hide Command.Valid, Command.Args, CommandStream.Holds, Reader.Smooth, Reader.Unread;
    ghost var s := r.Unread();
    if r.Smooth() && ClearCmd(s, r.plan) { ClearCmdParts(s, r.plan); }
    var sz := ReadLenFor(c, r);
    ReadLenEnds(s, sz, r);
    if sz.Err? { return Some(sz.error); }
    err := OpenBehind(c, r, s, sz.value);
  }

  /** The part of `OpenArray` behind the header of `s`. */
  method OpenBehind(c: CommandStream, r: Reader, ghost s: bytes, n: nat) returns (err: Option<Error>)
    requires c.Closed() && r.Valid() && r.buf !in c.Repr()
    requires s != [] && s[0] == STAR && ParseHeader(s, STAR, InvalidMultiBulkLength) == Done(n, r.Unread())
    modifies c.Repr(), r, r.buf
    ensures StreamSettled(c, r) && r.Faults(LostBy(err))
    ensures err.None? ==>
              var p := ParseOpen(s);
              && p.Done? && r.Unread() == p.rest && c.Holds(p.value, r)
              && (c.isInline <==> old(c.isInline) || p.value.Line? || BlankHead(s))
    ensures err.Some? ==> Agrees(ParseOpen(s), Err(err.value), [], r.rd)
    ensures old(r.Smooth()) && ClearCmd(s, old(r.plan)) ==> err.None? && r.Smooth()
    decreases |r.Unread()|, 2
  {
    hide ClearLine, ClearBulk, ClearBulks, ClearCmd, ParseBulk, ParseHeader, SplitLine, InlineOf, ParseOpen, BlankHead, Agrees;
    hide Command.Valid, Command.Args, CommandStream.Holds, Reader.Smooth, Reader.Unread;
    ghost var t := r.Unread();
    OpenOfArray(s);
    if ClearCmd(s, r.plan) {
      ClearCmdParts(s, r.plan);
      if n > 0 { ClearBulksStep(t, n, r.plan); }
    }
    if n < 1 {
      err := OpenCommand(c, r);
      return;
    }
    err := OpenNamed(c, r, n - 1);
    if err.Some? { AgreesWithAll(ParseBulk(t), ParseOpen(s), err.value, r.rd); }
  }

  /** The name of a multi-bulk, and the number of bulks behind it. */
  method OpenNamed(c: CommandStream, r: Reader, nargs: nat) returns (err: Option<Error>)
    requires c.Closed() && r.Valid() && r.buf !in c.Repr()
    modifies c, r, r.buf
    ensures StreamSettled(c, r) && r.Faults(LostBy(err)) && c.isInline == old(c.isInline)
    ensures err.None? ==>
              var p := ParseBulk(old(r.Unread()));
              p.Done? && r.Unread() == p.rest && c.Holds(Bulks(p.value, nargs), r)
    ensures err.Some? ==> Agrees(ParseBulk(old(r.Unread())), Err(err.value), [], r.rd)
    ensures old(r.Smooth() && ClearBulk(r.Unread(), r.plan)) ==> err.None? && r.Smooth()
  {
    hide ParseBulk, ClearBulk, Command.Valid, CommandStream.Holds, Reader.Smooth, Reader.Unread;
    var name := ReadNameFor(c, r);
    if name.Err? { return Some(name.error); }
    c.ReadMultiBulk(r, name.value, nargs);
    return None;
  }

  /** ReadBulkString, which leaves the command stream alone. */
  method ReadNameFor(c: CommandStream, r: Reader) returns (name: Result<bytes>)
    requires c.Closed() && r.Valid() && r.buf !in c.Repr()
    modifies r, r.buf
    ensures r.Kept() && r.Faults(Lost(name)) && r.buf !in c.Repr() && c.Closed() && c.isInline == old(c.isInline) && c.Repr() == old(c.Repr())
    ensures Agrees(ParseBulk(old(r.Unread())), name, r.Unread(), r.rd)
    ensures old(r.Smooth() && ClearBulk(r.Unread(), r.plan)) ==> name.Ok? && r.Smooth()
  {
    hide ParseBulk, ClearBulk, Agrees, Reader.Smooth, Reader.Unread;
    name := r.ReadBulkString();
  }

  method OpenLine(c: CommandStream, r: Reader) returns (err: Option<Error>)
    requires c.Closed() && r.Valid() && r.buf !in c.Repr()
    requires r.Unread() != [] && r.Unread()[0] != STAR
    modifies c.Repr(), r, r.buf
    ensures StreamSettled(c, r) && r.Faults(LostBy(err))
    ensures err.None? ==>
              var p := ParseOpen(old(r.Unread()));
              && p.Done? && r.Unread() == p.rest && c.Holds(p.value, r) && c.isInline
              && (p.value.Line? || BlankHead(old(r.Unread())))
    ensures err.Some? ==> Agrees(ParseOpen(old(r.Unread())), Err(err.value), [], r.rd)
    ensures old(r.Smooth() && ClearCmd(r.Unread(), r.plan)) ==> err.None? && r.Smooth()
    decreases |r.Unread()|, 0
  {
    hide ClearLine, ClearCmd, ParseHeader, ParseBulk, SplitLine, InlineOf;
    hide Command.Valid, Command.Args, CommandStream.Holds, Reader.Smooth, Reader.Unread;
    ghost var s := r.Unread();
    if r.Smooth() && ClearCmd(s, r.plan) { ClearCmdParts(s, r.plan); }
    var ok := c.ReadInline(r);
    if ok.Err? { return Some(ok.error); }
    if !ok.value {
      err := OpenCommand(c, r);
      return;
    }
    return None;
  }

  /** StreamCmd with a command stream to recycle. */
  method StreamCmd(c: CommandStream, r: Reader) returns (err: Option<Error>)
    requires c.Valid() && r.Valid() && r.buf !in c.Repr()
    modifies c.Repr(), r, r.buf
    ensures StreamSettled(c, r) && r.Faults(LostBy(err))
    ensures err.None? ==>
              var p := ParseOpen(old(r.Unread()));
              && p.Done? && r.Unread() == p.rest && c.Holds(p.value, r)
              && (c.isInline <==> p.value.Line? || BlankHead(old(r.Unread())))
    ensures err.Some? ==> Agrees(ParseOpen(old(r.Unread())), Err(err.value), [], r.rd)
    ensures old(r.Smooth() && ClearCmd(r.Unread(), r.plan)) ==> err.None? && r.Smooth()
  {
    hide ParseOpen, ClearCmd, Agrees, Command.Valid, Command.Args, CommandStream.Holds;
    c.Reset();
    err := OpenCommand(c, r);
  }

  lemma {:induction false} ClearOpen(s: bytes, p: Plan)
    requires ClearCmd(s, p)
    ensures ParseOpen(s).Done?
    ensures ParseOpen(s).value.Bulks? ==>
              ClearBulks(ParseOpen(s).rest, ParseOpen(s).value.nargs, p) && |ParseOpen(s).rest| >= p.low
    decreases |s|
  {
    hide ParseHeader, SplitLine, InlineOf, ParseBulk, ClearLine;
    ClearCmdParts(s, p);
    if s[0] != STAR {
      if InlineOf(SplitLine(s).value).None? { ClearOpen(SplitLine(s).rest, p); }
    } else {
      var h := ParseHeader(s, STAR, InvalidMultiBulkLength);
      if h.value < 1 { ClearOpen(h.rest, p); } else { assert ClearBulk(h.rest, p); }
    }
  }

  lemma ParseBulkParts(s: bytes)
    ensures ParseBulk(s).Done? ==>
              var h := ParseHeader(s, DOLLAR, InvalidBulkLength);
              && h.Done? && |h.rest| >= h.value + 2 && |ParseBulk(s).value| == h.value
              && ParseBulk(s) == Done(h.rest[..h.value], h.rest[h.value + 2..])
  {
  }

  /** StreamCmd and Discard leave what ReadCmd leaves. */
  method StreamAndDiscard(c: CommandStream, r: Reader) returns (err: Option<Error>)
    requires c.Valid() && r.Valid() && r.buf !in c.Repr()
    modifies c.Repr(), r, r.buf
    ensures r.Kept()
    ensures err.None? ==> ParseCmd(old(r.Unread())).Done? && r.Unread() == ParseCmd(old(r.Unread())).rest
    ensures r.FaultShows(err.Some?)
    ensures ParseCmd(old(r.Unread())).Done? && err.Some? ==> r.faulty
    ensures old(r.Smooth() && !r.plan.seated && ClearCmd(r.Unread(), r.plan)) ==> err.None? && r.Smooth()
  {
    hide ParseOpen, ParseCmd, ParseBulks, BlankHead, ClearCmd, ClearBulks, Reader.Unread, Reader.Smooth, Command.Args, Command.Valid;
    ghost var s := r.Unread();
    OpenAgrees(s);
    if ClearCmd(s, r.plan) { ClearOpen(s, r.plan); }
    err := StreamCmd(c, r);
    if err.Some? { return; }
    assert r.Unread()[0..] == r.Unread();
    err := c.Discard();
  }
}
