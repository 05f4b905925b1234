/** Client of client.go, and how perform of server.go serves one command for it. */
module Clients {
  import opened Bytes
  import opened Tokens
  import opened Syntax
  import opened Delivery
  import opened Readers
  import opened Commands
  import opened Requests
  import opened LazyCommands
  import opened Conducts
  import opened Writers
  import opened Handlers

  /** MaxBufferSize / 2: perform flushes when more than this is pending. */
  const FLUSH_ABOVE: nat := 32768

  /** Client of client.go. `log` is what its handlers were called with; `broken` says that
      a flush has failed. */
  class Client {
    const rd: Reader
    const wr: Writer
    const cmd: Command
    const scmd: CommandStream
    var closed: bool
    var log: seq<Event>
    ghost var broken: bool

    ghost predicate Valid()
      reads this, rd, wr, cmd, cmd.slots, scmd, scmd.inline, scmd.inline.slots
    {
      Wired(this) && OwnsCmd(this) && OwnsStream(this) && cmd.Repr() !! scmd.Repr()
    }

    ghost function Footprint(): set<object>
      reads this, rd, wr, cmd, cmd.slots, scmd, scmd.inline, scmd.inline.slots
    {
      {this, rd, rd.buf, wr, wr.data} + cmd.Repr() + scmd.Repr()
    }

    twostate predicate Kept()
      reads this, rd, wr, cmd, cmd.slots, scmd, scmd.inline, scmd.inline.slots
    {
      Valid() && fresh(Footprint() - old(Footprint())) && rd.rd.end == old(rd.rd.end)
    }

    constructor (rd: Reader, wr: Writer, cmd: Command, scmd: CommandStream)
      requires rd.Valid() && wr.Valid() && cmd.Valid() && scmd.Valid() && scmd.rd == null
      requires rd.buf != wr.data && cmd.Repr() !! scmd.Repr()
      requires {rd, rd.buf, wr, wr.data} !! cmd.Repr() + scmd.Repr()
      ensures Valid() && !closed && log == [] && !broken
      ensures this.rd == rd && this.wr == wr && this.cmd == cmd && this.scmd == scmd
    {
      this.rd, this.wr, this.cmd, this.scmd := rd, wr, cmd, scmd;
      closed, log, broken := false, [], false;
    }

    method Flush() returns (ok: bool)
      requires wr.Valid()
      modifies this`broken, wr
      ensures wr.Valid() && wr.data == old(wr.data)
      ensures ok ==> wr.Wire() == old(wr.Wire()) && broken == old(broken) && wr.len == 0
      ensures !ok ==> broken
      ensures wr.Limit() == old(wr.Limit()) && (ok <==> |old(wr.Wire())| <= wr.Limit())
    {
      ok := wr.Flush();
      if !ok { broken := true; }
    }

    /** A handler runs. */
    method React(ev: Event, re: Reaction)
      requires wr.Valid()
      modifies this, wr, wr.data
      ensures wr.Valid() && (wr.data == old(wr.data) || fresh(wr.data))
      ensures log == old(log) + [ev] && closed == (old(closed) || re.close)
      ensures !broken ==> !old(broken) && wr.Wire() == old(wr.Wire()) + re.reply
      ensures wr.Limit() == old(wr.Limit())
      ensures broken ==> old(broken) || |old(wr.Wire())| + |re.reply| > wr.Limit()
      ensures re.flush && !broken ==> wr.len == 0
    {
      wr.AppendRaw(re.reply);
      if re.flush { var ok := Flush(); }
      if re.close { closed := true; }
      log := log + [ev];
    }

    /** The flush at the end of perform. */
    method FlushLarge() returns (ok: bool)
      requires wr.Valid()
      modifies this`broken, wr
      ensures wr.Valid() && wr.data == old(wr.data)
      ensures ok ==> wr.Wire() == old(wr.Wire()) && broken == old(broken)
      ensures !ok ==> broken && |old(wr.Wire())| > wr.Limit()
      ensures ok ==> wr.len == if old(wr.len) > 32768 then 0 else old(wr.len)
      ensures wr.Limit() == old(wr.Limit())
    {
      ok := true;
      if wr.len > FLUSH_ABOVE { ok := Flush(); }
    }
  }

  ghost function ViewOf(c: Client): View
    reads c, c.wr, c.wr.data
    requires c.wr.Valid()
  {
    View(c.log, c.closed, c.broken, c.wr.Wire(), c.wr.Limit())
  }

  /** The command at the front has been served. */
  twostate predicate Served(c: Client, t: Table, cmd: Cmd)
    reads c, c.wr, c.wr.data
    requires old(c.wr.Valid()) && c.wr.Valid()
  {
    Answers(t, cmd, old(ViewOf(c)), ViewOf(c))
  }

  /** Nothing has happened for it yet. */
  twostate predicate Untouched(c: Client)
    reads c, c.wr, c.wr.data
    requires old(c.wr.Valid()) && c.wr.Valid()
  {
    ViewOf(c) == old(ViewOf(c))
  }

  /** The reader and the writer of a client, with nothing of the one in the other. */
  ghost predicate Wired(c: Client)
    reads c.rd, c.wr
  {
    c.rd.Valid() && c.wr.Valid() && c.rd.buf != c.wr.data
  }

  twostate predicate StaysWired(c: Client)
    reads c.rd, c.wr
  {
    && Wired(c) && c.rd.Kept() && (c.wr.data == old(c.wr.data) || fresh(c.wr.data))
  }

  /** The delivery is framed for this command. Only a command handler leaves the reader
      seated. */
  ghost predicate Planned(t: Table, c: Client, cmd: Cmd, rest: bytes)
    reads c, c.rd
  {
    c.rd.Smooth() && ClearCmd(EncodeCmd(cmd) + rest, c.rd.plan) && (c.rd.plan.seated ==> PlainFor(t, cmd))
  }

  /** How a command is served on a planned delivery, after the events `hist`: the delivery
      stays planned, or nothing was done because a Read of its stream handler was made on
      the last byte of a trailer. Where no cut falls inside the command, it is known
      beforehand which. */
  ghost predicate AsPlanned(t: Table, hist: seq<Event>, cmd: Cmd, rest: bytes, cuts: set<nat>, derailed: bool, smooth: bool, untouched: bool)
    requires t.Valid()
  {
    && (!derailed ==> smooth)
    && (derailed ==> untouched && !SuitedTo(t, hist, cmd, rest, cuts))
    && (NoCut(|rest|, |EncodeCmd(cmd) + rest|, cuts) ==> (derailed <==> !SuitedTo(t, hist, cmd, rest, {})))
  }

  /** perform without a handler. The error of SkipCmd is ignored by the code. */
  method PerformUnknown(t: Table, c: Client, name: bytes, ghost cmd: Cmd, ghost rest: bytes) returns (derailed: bool)
    requires Wired(c) && Sendable(cmd) && c.rd.Unread() == EncodeCmd(cmd) + rest
    requires name == cmd.name && t.lower(name) !in t.cmds
    modifies c, c.rd, c.rd.buf, c.wr, c.wr.data
    ensures StaysWired(c) && c.rd.Faults(derailed) && Served(c, t, cmd)
    ensures c.log == old(c.log) + [Event.Unknown(name)] && c.closed == old(c.closed)
    ensures !c.broken ==> !old(c.broken) && c.wr.Wire() == old(c.wr.Wire()) + SentAt(t, c.log, |old(c.log)|)
    ensures !derailed ==> c.rd.Unread() == rest
    ensures old(c.rd.Smooth() && !c.rd.plan.seated && ClearCmd(c.rd.Unread(), c.rd.plan)) ==> !derailed && c.rd.Smooth()
  {
    hide EncodeCmd, ParseSkip, ClearCmd, Served, Agrees, Reader.Smooth, Reader.Unread;
    ConsumersOfSent(cmd, rest);
    Refuse(t, c, name, cmd);
    derailed := SkipRefused(t, c, cmd, rest);
  }

  /** The error reply to an unknown command. */
  method Refuse(t: Table, c: Client, name: bytes, ghost cmd: Cmd)
    requires Wired(c) && name == cmd.name && t.lower(name) !in t.cmds
    modifies c, c.wr, c.wr.data
    ensures StaysWired(c) && c.rd.Faults(false) && Served(c, t, cmd)
    ensures c.log == old(c.log) + [Event.Unknown(name)] && c.closed == old(c.closed)
    ensures !c.broken ==> !old(c.broken) && c.wr.Wire() == old(c.wr.Wire()) + SentAt(t, c.log, |old(c.log)|)
    ensures c.rd.rd == old(c.rd.rd) && c.rd.buf == old(c.rd.buf) && c.rd.Unread() == old(c.rd.Unread())
    ensures c.rd.r == old(c.rd.r) && c.rd.w == old(c.rd.w)
  {
    hide Reader.Unread;
    UnknownOnWire(name);
    c.React(Event.Unknown(name), Reaction(EncodeText(MINUS, UnknownText(name)), false, false));
  }

  method SkipRefused(t: Table, c: Client, ghost cmd: Cmd, ghost rest: bytes) returns (derailed: bool)
    requires Wired(c) && Sendable(cmd) && c.rd.Unread() == EncodeCmd(cmd) + rest
    modifies c.rd, c.rd.buf
    ensures StaysWired(c) && c.rd.Faults(derailed) && Untouched(c)
    ensures !derailed ==> c.rd.Unread() == rest
    ensures old(c.rd.Smooth() && !c.rd.plan.seated && ClearCmd(c.rd.Unread(), c.rd.plan)) ==> !derailed && c.rd.Smooth()
  {
    hide EncodeCmd, ParseCmd, ParseSkip, ParseOpen, PeekName, BlankHead, ClearCmd, Reader.Smooth, Reader.Unread;
    ConsumersOfSent(cmd, rest);
    var err := SkipCmd(c.rd);
    derailed := err.Some?;
  }

  /** The storage of the client's command is its own. */
  ghost predicate OwnsCmd(c: Client)
    reads c.rd, c.wr, c.cmd, c.cmd.slots
  {
    c.cmd.Valid() && c.cmd.Repr() !! {c, c.rd, c.rd.buf, c.wr, c.wr.data}
  }

  twostate predicate KeepsCmd(c: Client)
    reads c.rd, c.wr, c.cmd, c.cmd.slots
  {
    OwnsCmd(c) && fresh(c.cmd.Repr() - old(c.cmd.Repr()))
  }

  /** c.readCmd on a sent command, which leaves the writer alone. */
  method ReadInto(c: Client, ghost cmd: Cmd, ghost rest: bytes) returns (err: Option<Error>)
    requires Wired(c) && OwnsCmd(c) && Sendable(cmd) && c.rd.Unread() == EncodeCmd(cmd) + rest
    modifies c.rd, c.rd.buf, c.cmd.Repr()
    ensures StaysWired(c) && c.rd.Faults(err.Some?) && KeepsCmd(c) && Untouched(c)
    ensures err.None? ==> c.cmd.Cmd() == cmd && c.rd.Unread() == rest
    ensures old(c.rd.Smooth() && ClearCmd(c.rd.Unread(), c.rd.plan)) ==> err.None? && c.rd.Smooth()
  {
    hide EncodeCmd, ParseCmd, ClearCmd, Command.Valid, Command.Args, Reader.Smooth, Reader.Unread;
    CmdRoundTrip(cmd, rest);
    err := ReadCmd(c.cmd, c.rd);
  }

  /** perform with a command handler. */
  method PerformPlain(t: Table, c: Client, h: Handler, ghost cmd: Cmd, ghost rest: bytes)
    returns (derailed: bool, ok: bool)
    requires Wired(c) && OwnsCmd(c) && Sendable(cmd) && c.rd.Unread() == EncodeCmd(cmd) + rest
    requires h.Plain? && t.lower(cmd.name) in t.cmds && t.cmds[t.lower(cmd.name)] == h
    modifies c, c.rd, c.rd.buf, c.wr, c.wr.data, c.cmd.Repr()
    ensures StaysWired(c) && c.rd.Faults(derailed) && KeepsCmd(c)
    ensures if derailed then Untouched(c) else Served(c, t, cmd) && c.rd.Unread() == rest && (!ok ==> c.broken)
    ensures old(c.rd.Smooth() && ClearCmd(c.rd.Unread(), c.rd.plan)) ==> !derailed && c.rd.Smooth()
  {
    hide EncodeCmd, ParseCmd, ClearCmd, Command.Valid, Command.Args, Command.Cmd, Reader.Smooth, Reader.Unread;
    var err := ReadInto(c, cmd, rest);
    if err.Some? { return true, true; }
    ok := Answer(t, c, h, cmd);
    derailed := false;
  }

  /** handler.ServeRedeo(c.wr, c.cmd), and the flush behind it. */
  method Answer(t: Table, c: Client, h: Handler, ghost cmd: Cmd) returns (ok: bool)
    requires Wired(c) && OwnsCmd(c) && c.cmd.Cmd() == cmd
    requires h.Plain? && t.lower(cmd.name) in t.cmds && t.cmds[t.lower(cmd.name)] == h
    modifies c, c.wr, c.wr.data
    ensures StaysWired(c) && c.rd.Faults(false) && OwnsCmd(c) && c.cmd.Repr() == old(c.cmd.Repr()) && Served(c, t, cmd) && (!ok ==> c.broken)
    ensures c.rd.rd == old(c.rd.rd) && c.rd.buf == old(c.rd.buf) && c.rd.Unread() == old(c.rd.Unread())
    ensures c.rd.r == old(c.rd.r) && c.rd.w == old(c.rd.w)
  {
    hide Command.Valid, Command.Args, Reader.Unread;
    var ev := Called(c.cmd.Cmd());
    c.React(ev, h.serve(c.log, ev));
    ok := c.FlushLarge();
  }

  /** The storage of the client's command stream is its own, and it reads from the client. */
  ghost predicate OwnsStream(c: Client)
    reads c.rd, c.wr, c.scmd, c.scmd.inline, c.scmd.inline.slots
  {
    && c.scmd.Valid() && c.scmd.Repr() !! {c, c.rd, c.rd.buf, c.wr, c.wr.data}
    && (c.scmd.rd == null || c.scmd.rd == c.rd)
  }

  twostate predicate KeepsStream(c: Client)
    reads c.rd, c.wr, c.scmd, c.scmd.inline, c.scmd.inline.slots
  {
    OwnsStream(c) && fresh(c.scmd.Repr() - old(c.scmd.Repr()))
  }

  /** The stream has opened `cmd` and stands at its first argument. */
  ghost predicate StandsAt(sc: CommandStream, r: Reader, cmd: Cmd)
    reads sc
  {
    && sc.rd == r && !sc.isInline && sc.pos == 0 && sc.arg == null
    && sc.name == cmd.name && sc.nargs == |cmd.args|
  }

  method OpenSent(sc: CommandStream, r: Reader, ghost cmd: Cmd, ghost rest: bytes) returns (err: Option<Error>)
    requires sc.Valid() && r.Valid() && r.buf !in sc.Repr() && Sendable(cmd) && r.Unread() == EncodeCmd(cmd) + rest
    modifies sc.Repr(), r, r.buf
    ensures StreamSettled(sc, r) && r.Faults(err.Some?)
    ensures err.None? ==> StandsAt(sc, r, cmd) && r.Unread() == EncodeBulks(cmd.args) + rest
    ensures old(r.Smooth() && ClearCmd(r.Unread(), r.plan)) ==>
              err.None? && r.Smooth() && ClearBulks(r.Unread(), |cmd.args|, r.plan) && |r.Unread()| >= r.plan.low
  {
    hide ParseOpen, ClearCmd, ClearBulks, BlankHead, EncodeCmd, EncodeBulks, OnCuts, Flatten, FindCR;
    hide Command.Valid, Command.Args, CommandStream.Valid, Reader.Smooth, Reader.Unread;
    ConsumersOfSent(cmd, rest);
    ghost var s := r.Unread();
    if ClearCmd(s, r.plan) { ClearOpen(s, r.plan); }
    err := StreamCmd(sc, r);
  }

  /** c.streamCmd on a sent command, which leaves the writer alone. */
  method OpenInto(c: Client, ghost cmd: Cmd, ghost rest: bytes) returns (err: Option<Error>)
    requires Wired(c) && OwnsStream(c) && Sendable(cmd) && c.rd.Unread() == EncodeCmd(cmd) + rest
    modifies c.rd, c.rd.buf, c.scmd.Repr()
    ensures StaysWired(c) && c.rd.Faults(err.Some?) && c.scmd.Valid() && c.scmd.Repr() !! {c, c.rd, c.rd.buf, c.wr, c.wr.data}
    ensures fresh(c.scmd.Repr() - old(c.scmd.Repr())) && Untouched(c)
    ensures err.None? ==> KeepsStream(c) && StandsAt(c.scmd, c.rd, cmd) && c.rd.Unread() == EncodeBulks(cmd.args) + rest
    ensures old(c.rd.Smooth() && ClearCmd(c.rd.Unread(), c.rd.plan)) ==>
              err.None? && c.rd.Smooth() && ClearBulks(c.rd.Unread(), |cmd.args|, c.rd.plan) && |c.rd.Unread()| >= c.rd.plan.low
  {
    hide ClearCmd, ClearBulks, EncodeCmd, EncodeBulks, OnCuts, Flatten, Sendable;
    hide Command.Valid, Command.Args, CommandStream.Valid, Reader.Smooth, Reader.Unread;
    err := OpenSent(c.scmd, c.rd, cmd, rest);
  }

  /** The stream handler at work. */
  method AttendFor(t: Table, c: Client, act: Conduct, ghost cmd: Cmd, ghost rest: bytes) returns (look: Look, err: Option<Error>)
    requires Wired(c) && OwnsStream(c) && Sendable(cmd) && c.rd.Unread() == EncodeBulks(cmd.args) + rest
    requires StandsAt(c.scmd, c.rd, cmd)
    requires Orderly(act, |cmd.args|)
    modifies c.rd, c.rd.buf, c.scmd
    ensures StaysWired(c) && c.rd.Faults(err.Some?) && OwnsStream(c) && Untouched(c) && c.scmd.Repr() == old(c.scmd.Repr())
    ensures c.scmd.rd == c.rd && !c.scmd.isInline && c.scmd.nargs == |cmd.args| && c.scmd.name == old(c.scmd.name)
    ensures c.scmd.arg == null || fresh(c.scmd.arg)
    ensures err.None? ==> Saw(look, cmd.args) && Came(act, look) && act(look).Finish? && LeadsTo(c, rest)
    ensures old(c.rd.Smooth() && !c.rd.plan.seated && ClearBulks(c.rd.Unread(), |cmd.args|, c.rd.plan) && |c.rd.Unread()| >= c.rd.plan.low) ==>
              var s, cuts := EncodeBulks(cmd.args) + rest, c.rd.plan.cuts;
              && (err.None? ==> c.scmd.RestClear())
              && (err.Some? ==> !Suited(act, |cmd.args|, NOTHING, s, 0, 0, cuts))
              && (NoCut(|rest|, |s|, cuts) ==> (err.None? <==> Suited(act, |cmd.args|, NOTHING, s, 0, 0, {})))
  {
    hide ParseBulks, ClearBulks, EncodeBulks, Suited, Orderly, Saw, Came, NoCut, Command.Valid, CommandStream.Valid, Reader.Smooth, Reader.Unread;
    ArgsRoundTrip(cmd, |cmd.args|, rest);
    assert cmd.args[..|cmd.args|] == cmd.args && cmd.args[|cmd.args|..] == [];
    assert EncodeBulks([]) + rest == rest by { NothingEncoded(rest); }
    look, err := Attend(c.scmd, act);
  }

  lemma NothingEncoded(rest: bytes)
    ensures EncodeBulks([]) + rest == rest
  {
  }

  /** What is left of the opened command leads to `rest`. */
  ghost predicate LeadsTo(c: Client, rest: bytes)
    reads c.rd, c.rd.buf, c.scmd, c.scmd.arg
    requires c.rd.Valid()
  {
    && c.scmd.Pending() <= |c.rd.Unread()|
    && ParseBulks(c.rd.Unread()[c.scmd.Pending()..], c.scmd.Remaining()).Done?
    && ParseBulks(c.rd.Unread()[c.scmd.Pending()..], c.scmd.Remaining()).rest == rest
  }

  /** handler.ServeRedeoStream(c.wr, c.scmd), behind what it has read, and the flush behind
      it. */
  method AnswerStream(t: Table, c: Client, h: Handler, look: Look, ghost cmd: Cmd) returns (ok: bool)
    requires Wired(c) && OwnsStream(c) && c.scmd.name == cmd.name && c.scmd.nargs == |cmd.args|
    requires h.Streaming? && t.lower(cmd.name) in t.cmds && t.cmds[t.lower(cmd.name)] == h
    requires Causes(t, c.log, cmd, StreamedTo(cmd.name, |cmd.args|, look))
    modifies c, c.wr, c.wr.data
    ensures StaysWired(c) && c.rd.Faults(false) && OwnsStream(c) && c.scmd.Repr() == old(c.scmd.Repr()) && Served(c, t, cmd) && (!ok ==> c.broken)
    ensures c.rd.rd == old(c.rd.rd) && c.rd.buf == old(c.rd.buf) && c.rd.Unread() == old(c.rd.Unread())
    ensures c.rd.r == old(c.rd.r) && c.rd.w == old(c.rd.w)
  {
    hide Causes, Command.Valid, CommandStream.Valid, Reader.Unread;
    var ev := StreamedTo(c.scmd.name, c.scmd.nargs, look);
    c.React(ev, h.serve(c.log, ev));
    ok := c.FlushLarge();
  }

  /** The deferred c.scmd.Discard(), whose error is ignored by the code. */
  method DiscardRest(c: Client, ghost rest: bytes) returns (derailed: bool)
    requires Wired(c) && OwnsStream(c) && c.scmd.rd == c.rd && !c.scmd.isInline && LeadsTo(c, rest)
    modifies c.rd, c.rd.buf, c.scmd, c.scmd.arg
    ensures StaysWired(c) && c.rd.Faults(derailed) && OwnsStream(c) && Untouched(c) && c.scmd.Repr() == old(c.scmd.Repr())
    ensures !derailed ==> c.rd.Unread() == rest
    ensures old(c.scmd.RestClear()) ==> !derailed && c.rd.Smooth()
  {
    hide ParseBulks, ClearBulks, Command.Valid, CommandStream.Valid, CommandStream.RestClear, Reader.Smooth, Reader.Unread;
    var err := c.scmd.Discard();
    derailed := err.Some?;
  }

  /** perform with a stream handler. */
  method PerformStream(t: Table, c: Client, h: Handler, ghost cmd: Cmd, ghost rest: bytes)
    returns (derailed: bool, ok: bool)
    requires t.Valid() && Wired(c) && OwnsStream(c) && Sendable(cmd) && c.rd.Unread() == EncodeCmd(cmd) + rest
    requires h.Streaming? && t.lower(cmd.name) in t.cmds && t.cmds[t.lower(cmd.name)] == h
    modifies c, c.rd, c.rd.buf, c.wr, c.wr.data, c.scmd.Repr()
    ensures StaysWired(c) && c.rd.Faults(derailed) && (!derailed ==> KeepsStream(c))
    ensures Untouched(c) || Served(c, t, cmd)
    ensures !derailed ==> Served(c, t, cmd) && c.rd.Unread() == rest && (!ok ==> c.broken)
    ensures old(Planned(t, c, cmd, rest)) ==>
              AsPlanned(t, old(c.log), cmd, rest, c.rd.plan.cuts, derailed, c.rd.Smooth(), Untouched(c))
  {
    hide EncodeCmd, EncodeBulks, ClearCmd, ClearBulks, AsPlanned, SuitedTo, Causes, Answers;
    hide Command.Valid, CommandStream.Valid, Reader.Smooth, Reader.Unread, OnCuts, Flatten;
    ghost var hist := c.log;
    var err := OpenInto(c, cmd, rest);
    if err.Some? { return true, true; }
    derailed, ok := RunStream(t, c, h, cmd, rest);
  }

  /** The handler of an opened command stream, the flush behind it, and the discard. */
  method RunStream(t: Table, c: Client, h: Handler, ghost cmd: Cmd, ghost rest: bytes)
    returns (derailed: bool, ok: bool)
    requires t.Valid() && Wired(c) && OwnsStream(c) && Sendable(cmd) && c.rd.Unread() == EncodeBulks(cmd.args) + rest
    requires StandsAt(c.scmd, c.rd, cmd)
    requires h.Streaming? && t.lower(cmd.name) in t.cmds && t.cmds[t.lower(cmd.name)] == h
    modifies c, c.rd, c.rd.buf, c.wr, c.wr.data, c.scmd
    ensures StaysWired(c) && c.rd.Faults(derailed) && OwnsStream(c) && c.scmd.Repr() == old(c.scmd.Repr())
    ensures Untouched(c) || Served(c, t, cmd)
    ensures !derailed ==> Served(c, t, cmd) && c.rd.Unread() == rest && (!ok ==> c.broken)
    ensures old(c.rd.Smooth() && !c.rd.plan.seated && ClearBulks(c.rd.Unread(), |cmd.args|, c.rd.plan) && |c.rd.Unread()| >= c.rd.plan.low) ==>
              AsPlanned(t, old(c.log), cmd, rest, c.rd.plan.cuts, derailed, c.rd.Smooth(), Untouched(c))
  {
    hide EncodeCmd, EncodeBulks, ClearCmd, ClearBulks, Answers, Suited, Orderly, Saw, Came, NoCut, LeadsTo;
    hide Command.Valid, CommandStream.Valid, CommandStream.RestClear, Reader.Smooth, Reader.Unread, OnCuts, Flatten;
    ghost var hist, cuts := c.log, c.rd.plan.cuts;
    HandlerOrderly(t, hist, cmd);
    SuitedWhole(t, hist, cmd, rest, cuts);
    var look, err := AttendFor(t, c, ConductOf(h, c.log, c.scmd.name, c.scmd.nargs), cmd, rest);
    if err.Some? { return true, true; }
    ok := AnswerStream(t, c, h, look, cmd);
    derailed := DiscardRest(c, rest);
  }

  lemma HandlerOrderly(t: Table, hist: seq<Event>, cmd: Cmd)
    requires t.Valid() && t.lower(cmd.name) in t.cmds && t.cmds[t.lower(cmd.name)].Streaming?
    ensures Orderly(ConductOf(t.cmds[t.lower(cmd.name)], hist, cmd.name, |cmd.args|), |cmd.args|)
  {
    assert AlwaysOrderly(t.cmds[t.lower(cmd.name)]);
  }

  lemma SuitedWhole(t: Table, hist: seq<Event>, cmd: Cmd, rest: bytes, cuts: set<nat>)
    requires t.Valid() && t.lower(cmd.name) in t.cmds && t.cmds[t.lower(cmd.name)].Streaming?
    ensures NoCut(|rest|, |EncodeCmd(cmd) + rest|, cuts) ==> NoCut(|rest|, |EncodeBulks(cmd.args) + rest|, cuts)
  {
    ArgsFit(cmd);
  }

  // The three branches again, as seen by who holds the whole client: the same contracts,
  // with all its parts in the frame.

  method UnknownFor(t: Table, c: Client, name: bytes, ghost cmd: Cmd, ghost rest: bytes) returns (derailed: bool)
    requires t.Valid() && c.Valid() && Sendable(cmd) && c.rd.Unread() == EncodeCmd(cmd) + rest
    requires name == cmd.name && t.lower(name) !in t.cmds
    modifies c.Footprint()
    ensures c.Kept() && StaysWired(c) && c.rd.Faults(derailed) && Served(c, t, cmd) && (!derailed ==> c.rd.Unread() == rest)
    ensures old(Planned(t, c, cmd, rest)) ==>
              AsPlanned(t, old(c.log), cmd, rest, c.rd.plan.cuts, derailed, c.rd.Smooth(), Untouched(c))
  {
    hide EncodeCmd, ClearCmd, Suited, Answers, Command.Valid, CommandStream.Valid, Reader.Smooth, Reader.Unread;
    derailed := PerformUnknown(t, c, name, cmd, rest);
  }

  /** A command handler has nothing to derail on. */
  lemma PlainSuits(t: Table, hist: seq<Event>, h: Handler, cmd: Cmd, rest: bytes, cuts: set<nat>)
    requires t.Valid() && h.Plain? && t.lower(cmd.name) in t.cmds && t.cmds[t.lower(cmd.name)] == h
    ensures AsPlanned(t, hist, cmd, rest, cuts, false, true, true) && AsPlanned(t, hist, cmd, rest, cuts, false, true, false)
  {
    hide EncodeCmd, Suited;
  }

  method PlainlyFor(t: Table, c: Client, h: Handler, ghost cmd: Cmd, ghost rest: bytes)
    returns (derailed: bool, ok: bool)
    requires t.Valid() && c.Valid() && Sendable(cmd) && c.rd.Unread() == EncodeCmd(cmd) + rest
    requires h.Plain? && t.lower(cmd.name) in t.cmds && t.cmds[t.lower(cmd.name)] == h
    modifies c.Footprint()
    ensures c.Kept() && StaysWired(c) && c.rd.Faults(derailed)
    ensures if derailed then Untouched(c) else Served(c, t, cmd) && c.rd.Unread() == rest && (!ok ==> c.broken)
    ensures old(Planned(t, c, cmd, rest)) ==>
              AsPlanned(t, old(c.log), cmd, rest, c.rd.plan.cuts, derailed, c.rd.Smooth(), Untouched(c))
  {
    hide EncodeCmd, ClearCmd, AsPlanned, SuitedTo, Served, Untouched, Command.Valid, CommandStream.Valid, Reader.Smooth, Reader.Unread;
    PlainSuits(t, c.log, h, cmd, rest, c.rd.plan.cuts);
    derailed, ok := PerformPlain(t, c, h, cmd, rest);
  }

  method StreamFor(t: Table, c: Client, h: Handler, ghost cmd: Cmd, ghost rest: bytes)
    returns (derailed: bool, ok: bool)
    requires t.Valid() && c.Valid() && Sendable(cmd) && c.rd.Unread() == EncodeCmd(cmd) + rest
    requires h.Streaming? && t.lower(cmd.name) in t.cmds && t.cmds[t.lower(cmd.name)] == h
    modifies c.Footprint()
    ensures StaysWired(c) && c.rd.Faults(derailed) && (!derailed ==> c.Kept())
    ensures Untouched(c) || Served(c, t, cmd)
    ensures !derailed ==> Served(c, t, cmd) && c.rd.Unread() == rest && (!ok ==> c.broken)
    ensures old(Planned(t, c, cmd, rest)) ==>
              AsPlanned(t, old(c.log), cmd, rest, c.rd.plan.cuts, derailed, c.rd.Smooth(), Untouched(c))
  {
    hide EncodeCmd, Planned, AsPlanned, Answers, Command.Valid, CommandStream.Valid, Reader.Smooth, Reader.Unread;
    derailed, ok := PerformStream(t, c, h, cmd, rest);
  }

  /** perform. */
  method Perform(t: Table, c: Client, name: bytes, ghost cmd: Cmd, ghost rest: bytes) returns (derailed: bool, ok: bool)
    requires t.Valid() && c.Valid() && Sendable(cmd) && c.rd.Unread() == EncodeCmd(cmd) + rest && name == cmd.name
    modifies c.Footprint()
    ensures StaysWired(c) && c.rd.Faults(derailed) && (!derailed ==> c.Kept())
    ensures Untouched(c) || Served(c, t, cmd)
    ensures !derailed ==> Served(c, t, cmd) && c.rd.Unread() == rest && (!ok ==> c.broken)
    ensures old(Planned(t, c, cmd, rest)) ==>
              AsPlanned(t, old(c.log), cmd, rest, c.rd.plan.cuts, derailed, c.rd.Smooth(), Untouched(c))
  {
    hide EncodeCmd, Planned, AsPlanned, Answers, Command.Valid, CommandStream.Valid, Reader.Smooth, Reader.Unread;
    hide Client.Valid, Client.Footprint;
    ok := true;
    var key := t.lower(name);
    if key !in t.cmds {
      derailed := UnknownFor(t, c, name, cmd, rest);
      return;
    }
    var h := t.cmds[key];
    if h.Plain? {
      derailed, ok := PlainlyFor(t, c, h, cmd, rest);
    } else {
      derailed, ok := StreamFor(t, c, h, cmd, rest);
    }
  }
}
