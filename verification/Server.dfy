/** The session loop of one connection: serveClient of server.go, pipeline of client.go. */
module Server {
  import opened Bytes
  import opened Tokens
  import opened Syntax
  import opened Delivery
  import opened Readers
  import opened Commands
  import opened Requests
  import opened LazyCommands
  import opened Writers
  import opened Framing
  import opened Handlers
  import opened Clients

  /** How serving the next command ends: it goes on, the input has ended, a flush has
      failed, or the delivery has failed the reader. */
  datatype Step = Going | NoMore(e: Error) | Broken | Off

  /** A framed session that is about to go on with `cmds`; a seated one needs command
      handlers for all of them. */
  ghost predicate SessionFramed(t: Table, c: Client, cmds: seq<Cmd>, sch: Schedule)
    reads c, c.rd
  {
    OnPlan(c.rd, cmds, sch) && (sch.seated ==> forall i :: 0 <= i < |cmds| ==> PlainFor(t, cmds[i]))
  }

  /** c.rd.PeekCmd(), which leaves everything else alone. */
  method PeekFor(c: Client) returns (name: Result<bytes>)
    requires c.Valid()
    modifies c.rd, c.rd.buf
    ensures c.Kept() && StaysWired(c) && c.rd.Faults(Lost(name)) && Untouched(c) && c.rd.Unread() == old(c.rd.Unread())
    ensures Sees(PeekName(c.rd.Unread(), 0), name, c.rd.rd)
    ensures c.rd.Unread() == [] ==> name == Err(IO(c.rd.rd.end))
    ensures old(c.rd.Smooth() && ClearCmd(c.rd.Unread(), c.rd.plan)) ==>
              (name.Ok? || name == Err(Overflow)) && c.rd.Smooth()
  {
    hide PeekName, Sees, ClearCmd, Command.Valid, CommandStream.Valid, Reader.Smooth, Reader.Unread;
    name := PeekCmd(c.rd);
  }

  lemma FirstOfSent(cmds: seq<Cmd>)
    ensures cmds == [] ==> EncodeAll(cmds) == []
    ensures cmds != [] ==> EncodeAll(cmds) == EncodeCmd(cmds[0]) + EncodeAll(cmds[1..])
  {
    hide EncodeCmd;
  }

  /** The delivery is framed for the first of `cmds`. */
  ghost predicate NextPlanned(t: Table, c: Client, cmds: seq<Cmd>)
    reads c, c.rd
  {
    cmds != [] && Planned(t, c, cmds[0], EncodeAll(cmds[1..]))
  }

  ghost predicate NextAsPlanned(t: Table, hist: seq<Event>, cmds: seq<Cmd>, cuts: set<nat>, derailed: bool, smooth: bool, untouched: bool)
    requires t.Valid()
  {
    cmds != [] && AsPlanned(t, hist, cmds[0], EncodeAll(cmds[1..]), cuts, derailed, smooth, untouched)
  }

  /** The same where well-formed commands are to come: the name of the first, no error but
      one of delivery. */
  method PeekNext(ghost t: Table, c: Client, ghost cmds: seq<Cmd>) returns (name: Result<bytes>)
    requires c.Valid() && c.rd.Unread() == EncodeAll(cmds) && (cmds != [] ==> Sendable(cmds[0]))
    modifies c.rd, c.rd.buf
    ensures c.Kept() && StaysWired(c) && c.rd.Faults(Lost(name)) && Untouched(c) && c.rd.Unread() == old(c.rd.Unread())
    ensures cmds == [] ==> name == Err(IO(c.rd.rd.end)) && c.rd.Unread() == []
    ensures cmds != [] ==> name == Ok(cmds[0].name) || (name.Err? && name.error.Delivery())
    ensures old(NextPlanned(t, c, cmds)) ==> name.Ok? && NextPlanned(t, c, cmds)
  {
    hide EncodeCmd, PeekName, ClearCmd, Command.Valid, CommandStream.Valid, Reader.Smooth, Reader.Unread, OnCuts, Flatten;
    if cmds == [] { NotClear([], c.rd.plan); } else { ConsumersOfSent(cmds[0], EncodeAll(cmds[1..])); }
    name := PeekFor(c);
  }

  lemma NotClear(s: bytes, p: Plan)
    ensures s == [] ==> !ClearCmd(s, p)
  {
  }

  method SkipFor(c: Client)
    requires c.Valid()
    modifies c.rd, c.rd.buf
    ensures c.Kept() && StaysWired(c) && Untouched(c)
    ensures old(c.rd.faulty) ==> c.rd.faulty
    ensures old(c.rd.Unread()) == [] ==> c.rd.Unread() == [] && c.rd.Faults(false)
  {
    hide ParseSkip, Agrees, ClearCmd, Command.Valid, CommandStream.Valid, Reader.Smooth, Reader.Unread;
    var err := SkipCmd(c.rd);
  }

  /** What cannot be peeked is skipped. */
  method PeekOrSkip(ghost t: Table, c: Client, ghost cmds: seq<Cmd>) returns (name: Result<bytes>)
    requires c.Valid() && c.rd.Unread() == EncodeAll(cmds) && (cmds != [] ==> Sendable(cmds[0]))
    modifies c.rd, c.rd.buf
    ensures c.Kept() && StaysWired(c) && c.rd.Faults(Lost(name)) && Untouched(c)
    ensures cmds == [] ==> name == Err(IO(c.rd.rd.end)) && c.rd.Unread() == []
    ensures cmds != [] ==> name == Ok(cmds[0].name) || (name.Err? && name.error.Delivery())
    ensures name.Ok? ==> c.rd.Unread() == old(c.rd.Unread())
    ensures old(NextPlanned(t, c, cmds)) ==> name.Ok? && NextPlanned(t, c, cmds)
  {
    hide EncodeAll, ViewOf, NextPlanned, Client.Valid, Reader.Smooth, Reader.Unread, OnCuts, Flatten;
    name := PeekNext(t, c, cmds);
    if name.Err? { SkipFor(c); }
  }

  /** One turn of Client.pipeline, with perform as its callback. */
  method Turn(t: Table, c: Client, ghost cmds: seq<Cmd>) returns (step: Step)
    requires t.Valid() && c.Valid() && c.rd.Unread() == EncodeAll(cmds)
    requires cmds != [] ==> Sendable(cmds[0])
    modifies c.Footprint()
    ensures StaysWired(c) && c.rd.Faults(step == Off) && (step == Off || c.Kept())
    ensures cmds == [] ==> step == NoMore(IO(c.rd.rd.end)) && Untouched(c) && c.rd.Unread() == []
    ensures cmds != [] ==> !step.NoMore? && (Untouched(c) || Served(c, t, cmds[0]))
    ensures cmds != [] && step != Off ==> Served(c, t, cmds[0]) && c.rd.Unread() == EncodeAll(cmds[1..])
    ensures step == Broken ==> c.broken
    ensures old(NextPlanned(t, c, cmds)) ==>
              NextAsPlanned(t, old(c.log), cmds, c.rd.plan.cuts, step == Off, c.rd.Smooth(), Untouched(c))
  {
    hide EncodeCmd, EncodeAll, Sees, PeekName, Answers, ViewOf, Client.Valid, NextPlanned, NextAsPlanned, ClearCmd;
    hide Reader.Smooth, Reader.Unread, OnCuts, Flatten;
    var name := PeekOrSkip(t, c, cmds);
    if name.Err? {
      return if name.error.Delivery() then Off else NoMore(name.error);
    }
    step := PerformNext(t, c, name.value, cmds);
  }

  /** The command is there, and performed. */
  method PerformNext(t: Table, c: Client, name: bytes, ghost cmds: seq<Cmd>) returns (step: Step)
    requires t.Valid() && c.Valid() && c.rd.Unread() == EncodeAll(cmds)
    requires cmds != [] && Sendable(cmds[0]) && name == cmds[0].name
    modifies c.Footprint()
    ensures StaysWired(c) && c.rd.Faults(step == Off) && (step == Off || c.Kept()) && !step.NoMore?
    ensures Untouched(c) || Served(c, t, cmds[0])
    ensures step != Off ==> Served(c, t, cmds[0]) && c.rd.Unread() == EncodeAll(cmds[1..])
    ensures step == Broken ==> c.broken
    ensures old(NextPlanned(t, c, cmds)) ==>
              NextAsPlanned(t, old(c.log), cmds, c.rd.plan.cuts, step == Off, c.rd.Smooth(), Untouched(c))
  {
    hide EncodeCmd, EncodeAll, Answers, ViewOf, Planned, AsPlanned, Client.Valid, Reader.Smooth, Reader.Unread;
    FirstOfSent(cmds);
    var derailed, ok := Perform(t, c, name, cmds[0], EncodeAll(cmds[1..]));
    return if derailed then Off else if ok then Going else Broken;
  }

  /** The same, on the delivery plan for this command. */
  method ServeNext(t: Table, c: Client, ghost cmds: seq<Cmd>, ghost sch: Schedule)
    returns (step: Step)
    requires t.Valid() && c.Valid() && c.rd.Unread() == EncodeAll(cmds)
    requires cmds != [] ==> Sendable(cmds[0])
    modifies c.Footprint()
    ensures Wired(c) && c.rd.Faults(step == Off) && c.rd.rd.end == old(c.rd.rd.end) && (step == Off || c.Kept())
    ensures cmds == [] ==> step == NoMore(IO(c.rd.rd.end)) && Untouched(c) && c.rd.Unread() == []
    ensures cmds != [] ==> !step.NoMore? && (Untouched(c) || Served(c, t, cmds[0]))
    ensures cmds != [] && step != Off ==> Served(c, t, cmds[0]) && c.rd.Unread() == EncodeAll(cmds[1..])
    ensures step == Broken ==> c.broken
    ensures old(SessionFramed(t, c, cmds, sch)) && cmds != [] ==>
              AsPlanned(t, old(c.log), cmds[0], EncodeAll(cmds[1..]), sch.cuts, step == Off,
                        SessionFramed(t, c, cmds[1..], sch.From(1)), Untouched(c))
  {
    hide EncodeCmd, EncodeAll, ClearCmd, Planned, AsPlanned, NextAsPlanned, Answers, ViewOf, Client.Valid, OnPlan, Framing.Framed, OnCuts, Flatten, Reader.Smooth, Reader.Unread;
    ValidIsWired(c);
    ghost var hist, framed := c.log, cmds != [] && SessionFramed(t, c, cmds, sch);
    if framed { StartPlan(t, c, cmds, sch); }
    step := Turn(t, c, cmds);
    if framed { TurnOnPlan(t, c, hist, cmds, sch, step == Off, Untouched(c)); }
  }

  lemma ValidIsWired(c: Client)
    requires c.Valid()
    ensures Wired(c)
  {
  }

  lemma TurnOnPlan(t: Table, c: Client, hist: seq<Event>, cmds: seq<Cmd>, sch: Schedule, off: bool, untouched: bool)
    requires t.Valid() && cmds != [] && Framing.Framed(cmds, sch) && (sch.seated ==> forall i :: 0 <= i < |cmds| ==> PlainFor(t, cmds[i]))
    requires c.rd.Valid() && c.rd.plan == sch.First() && sch.cap <= c.rd.buf.Length
    requires NextAsPlanned(t, hist, cmds, sch.cuts, off, c.rd.Smooth(), untouched)
    ensures AsPlanned(t, hist, cmds[0], EncodeAll(cmds[1..]), sch.cuts, off, SessionFramed(t, c, cmds[1..], sch.From(1)), untouched)
  {
    hide EncodeCmd, EncodeAll, SuitedTo, OnPlan, Framing.Framed, Reader.Smooth;
    if c.rd.Smooth() { PlanGoesOn(c.rd, cmds, sch); }
  }

  ghost method StartPlan(t: Table, c: Client, cmds: seq<Cmd>, sch: Schedule)
    requires c.Valid() && c.rd.Unread() == EncodeAll(cmds) && cmds != []
    requires SessionFramed(t, c, cmds, sch)
    modifies c.rd`plan
    ensures c.Kept() && Untouched(c) && c.rd.Unread() == old(c.rd.Unread()) && c.rd.buf.Length == old(c.rd.buf.Length)
    ensures c.rd.plan == sch.First() && c.rd.Smooth() && sch.cap <= c.rd.buf.Length
    ensures Framing.Framed(cmds, sch)
    ensures Planned(t, c, cmds[0], EncodeAll(cmds[1..]))
  {
    hide EncodeCmd, ClearCmd, Command.Valid, CommandStream.Valid;
    c.rd.plan := sch.First();
  }

  /** The session stands on a command boundary: `k` commands served, the others unread. */
  ghost predicate Aligned(t: Table, c: Client, from: View, cmds: seq<Cmd>, k: nat)
    reads c, c.rd, c.rd.buf, c.wr, c.wr.data, c.cmd, c.cmd.slots, c.scmd, c.scmd.inline, c.scmd.inline.slots
  {
    && c.Valid() && Ran(t, ViewOf(c), from, cmds, k) && c.rd.Unread() == EncodeAll(cmds[k..])
  }

  /** A framed session with `k` commands served. Where the delivery cuts between commands
      only, none of their stream handlers has made a Read on the last byte of a trailer. */
  ghost predicate FramedFrom(t: Table, c: Client, from: View, cmds: seq<Cmd>, k: nat, sch: Schedule)
    reads c, c.rd
    requires t.Valid()
  {
    && k <= |cmds| == |sch.lows| && SessionFramed(t, c, cmds[k..], sch.From(k))
    && Clean(t, c.log, |from.log|, cmds, k, sch)
  }

  ghost predicate Clean(t: Table, log: seq<Event>, m: nat, cmds: seq<Cmd>, k: nat, sch: Schedule)
    requires t.Valid()
  {
    Uncut(cmds, sch) ==> AllSuited(t, log, m, cmds, k)
  }

  ghost predicate AllSuited(t: Table, log: seq<Event>, m: nat, cmds: seq<Cmd>, k: nat)
    requires t.Valid()
  {
    && k <= |cmds| && m + k <= |log|
    && forall i :: 0 <= i < k ==> SuitedTo(t, log[..m + i], cmds[i], EncodeAll(cmds[i + 1..]), {})
  }

  /** The session has derailed on a planned delivery: the stream handler of the next command
      makes a Read on the last byte of a trailer. */
  ghost predicate Stuck(t: Table, log: seq<Event>, m: nat, cmds: seq<Cmd>, k: nat, sch: Schedule)
    requires t.Valid()
  {
    && k < |cmds| && !SuitedTo(t, log, cmds[k], EncodeAll(cmds[k + 1..]), sch.cuts)
    && (Uncut(cmds, sch) ==> !SuitedTo(t, log, cmds[k], EncodeAll(cmds[k + 1..]), {}))
    && Clean(t, log, m, cmds, k, sch)
  }

  /** What serving command `k` as planned means for the session. */
  lemma Onwards(t: Table, log: seq<Event>, log': seq<Event>, m: nat, cmds: seq<Cmd>, k: nat, sch: Schedule, off: bool, smooth: bool, untouched: bool)
    requires t.Valid() && k < |cmds| && |log| == m + k && Clean(t, log, m, cmds, k, sch)
    requires AsPlanned(t, log, cmds[k], EncodeAll(cmds[k + 1..]), sch.cuts, off, smooth, untouched)
    requires if untouched then log' == log else |log'| == |log| + 1 && log'[..|log|] == log
    ensures off ==> Stuck(t, log', m, cmds, k, sch)
    ensures !off && !untouched ==> Clean(t, log', m, cmds, k + 1, sch)
  {
    hide SuitedTo, EncodeCmd, NoCut, Uncut;
    if Uncut(cmds, sch) {
      UncutAt(cmds, sch, k);
      if !off && !untouched {
        forall i | 0 <= i < k + 1 ensures SuitedTo(t, log'[..m + i], cmds[i], EncodeAll(cmds[i + 1..]), {}) {
          PrefixOf(log, log', m + i);
        }
      }
    }
  }

  lemma PrefixOf(log: seq<Event>, log': seq<Event>, n: nat)
    requires n <= |log| <= |log'| && log'[..|log|] == log
    ensures log'[..n] == log[..n]
  {
  }

  lemma {:induction false} UncutAt(cmds: seq<Cmd>, sch: Schedule, k: nat)
    requires Uncut(cmds, sch) && k < |cmds|
    ensures EncodeAll(cmds[k..]) == EncodeCmd(cmds[k]) + EncodeAll(cmds[k + 1..])
    ensures NoCut(|EncodeAll(cmds[k + 1..])|, |EncodeCmd(cmds[k]) + EncodeAll(cmds[k + 1..])|, sch.cuts)
    decreases k
  {
    hide EncodeCmd, NoCut;
    assert cmds[k..][1..] == cmds[k + 1..];
    if k == 0 {
      assert cmds[0..] == cmds;
    } else {
      assert cmds[1..][k - 1..] == cmds[k..] && cmds[1..][k..] == cmds[k + 1..];
      UncutAt(cmds[1..], sch.From(1), k - 1);
    }
  }

  lemma FramedClean(t: Table, c: Client, from: View, cmds: seq<Cmd>, k: nat, sch: Schedule)
    requires t.Valid()
    ensures FramedFrom(t, c, from, cmds, k, sch) ==> Clean(t, c.log, |from.log|, cmds, k, sch)
  {
    hide Clean, Uncut, SessionFramed;
  }

  lemma ViewParts(c: Client)
    requires c.wr.Valid()
    ensures ViewOf(c) == View(c.log, c.closed, c.broken, c.wr.Wire(), c.wr.Limit())
  {
  }

  /** One turn, as a step of the whole session. */
  method SessionTurn(t: Table, c: Client, ghost from: View, ghost cmds: seq<Cmd>, ghost k: nat,
                     ghost sch: Schedule, ghost repr: set<object>)
    returns (step: Step, ghost k': nat, ghost repr': set<object>)
    requires t.Valid() && Aligned(t, c, from, cmds, k) && |sch.lows| == |cmds|
    requires forall i :: 0 <= i < |cmds| ==> Sendable(cmds[i])
    requires c.Footprint() <= repr
    modifies repr
    ensures Wired(c) && c.rd.Faults(step == Off) && Ran(t, ViewOf(c), from, cmds, k') && c.rd.rd.end == old(c.rd.rd.end)
    ensures fresh(repr' - repr)
    ensures step != Off ==> c.Footprint() <= repr' && Aligned(t, c, from, cmds, k')
    ensures if k == |cmds| then step == NoMore(IO(c.rd.rd.end)) && k' == k && ViewOf(c) == old(ViewOf(c))
            else !step.NoMore? && (k' == k + 1 || (k' == k && step == Off))
    ensures step == Broken ==> c.broken
    ensures k < |cmds| && old(FramedFrom(t, c, from, cmds, k, sch)) ==>
              if step == Off then k' == k && Stuck(t, c.log, |from.log|, cmds, k, sch) else FramedFrom(t, c, from, cmds, k', sch)
  {
    hide EncodeAll, SessionFramed, SuitedTo, Uncut, Answers, ViewOf, Ran, Aligned, Sendable, Reader.Unread, Client.Valid;
    AlignedFacts(t, c, from, cmds, k);
    ghost var v := ViewOf(c);
    ViewParts(c);
    ghost var left := cmds[k..];
    ghost var framed := k < |cmds| && FramedFrom(t, c, from, cmds, k, sch);
    assert k < |cmds| ==> left[0] == cmds[k] && left[1..] == cmds[k + 1..] && sch.From(k).From(1) == sch.From(k + 1);
    step := ServeNext(t, c, left, sch.From(k));
    ViewParts(c);
    k' := k;
    if k < |cmds| && Answers(t, cmds[k], v, ViewOf(c)) {
      RanOn(t, v, ViewOf(c), from, cmds, k);
      k' := k + 1;
    }
    if framed { SessionOn(t, c, v, from, cmds, k, sch, step == Off); }
    repr' := repr;
    if step != Off {
      repr' := repr + c.Footprint();
      AlignedIntro(t, c, from, cmds, k');
    }
  }

  /** One turn of a framed session. */
  lemma SessionOn(t: Table, c: Client, v: View, from: View, cmds: seq<Cmd>, k: nat, sch: Schedule, off: bool)
    requires t.Valid() && c.wr.Valid() && k < |cmds| == |sch.lows|
    requires Ran(t, v, from, cmds, k) && Clean(t, v.log, |from.log|, cmds, k, sch)
    requires ViewOf(c) == v || Answers(t, cmds[k], v, ViewOf(c))
    requires AsPlanned(t, v.log, cmds[k], EncodeAll(cmds[k + 1..]), sch.cuts, off, SessionFramed(t, c, cmds[k + 1..], sch.From(k + 1)), ViewOf(c) == v)
    requires !off ==> Answers(t, cmds[k], v, ViewOf(c))
    ensures off ==> Stuck(t, c.log, |from.log|, cmds, k, sch) && !Answers(t, cmds[k], v, ViewOf(c))
    ensures !off ==> FramedFrom(t, c, from, cmds, k + 1, sch)
  {
    hide SuitedTo, AsPlanned, SessionFramed, Stuck, Clean, Causes, ReactionTo, EncodeAll, Writer.Wire, Writer.Limit, Replies, Closes;
    Onwards(t, v.log, c.log, |from.log|, cmds, k, sch, off, SessionFramed(t, c, cmds[k + 1..], sch.From(k + 1)), ViewOf(c) == v);
    PlannedSmooth(t, v.log, cmds[k], EncodeAll(cmds[k + 1..]), sch.cuts, off, SessionFramed(t, c, cmds[k + 1..], sch.From(k + 1)), ViewOf(c) == v);
  }

  lemma PlannedSmooth(t: Table, hist: seq<Event>, cmd: Cmd, rest: bytes, cuts: set<nat>, off: bool, smooth: bool, untouched: bool)
    requires t.Valid() && AsPlanned(t, hist, cmd, rest, cuts, off, smooth, untouched)
    ensures !off ==> smooth
    ensures off ==> untouched
  {
  }

  /** Client.pipeline: at least one command, and then as long as bytes are buffered. */
  method Pipeline(t: Table, c: Client, ghost from: View, ghost cmds: seq<Cmd>, ghost k0: nat,
                  ghost sch: Schedule, ghost repr: set<object>)
    returns (step: Step, ghost k: nat, ghost repr': set<object>)
    requires t.Valid() && Aligned(t, c, from, cmds, k0) && |sch.lows| == |cmds|
    requires forall i :: 0 <= i < |cmds| ==> Sendable(cmds[i])
    requires c.Footprint() <= repr
    modifies repr
    ensures Wired(c) && c.rd.Faults(step == Off) && Ran(t, ViewOf(c), from, cmds, k) && k0 <= k <= |cmds| && c.rd.rd.end == old(c.rd.rd.end)
    ensures fresh(repr' - repr)
    ensures step != Off ==> c.Footprint() <= repr' && Aligned(t, c, from, cmds, k)
    ensures step == Going ==> k > k0 && c.rd.Buffered() == 0
    ensures step.NoMore? ==> step == NoMore(IO(c.rd.rd.end)) && k == k0 == |cmds| && ViewOf(c) == old(ViewOf(c))
    ensures step == Broken ==> c.broken
    ensures old(FramedFrom(t, c, from, cmds, k0, sch)) ==>
              if step == Off then Stuck(t, c.log, |from.log|, cmds, k, sch)
              else Clean(t, c.log, |from.log|, cmds, k, sch) && (step == Going ==> FramedFrom(t, c, from, cmds, k, sch))
  {
    hide Ran, Aligned, FramedFrom, Stuck, Clean, Uncut, SessionFramed, ViewOf, Client.Valid, Sendable, Reader.Valid, Client.Footprint;
    AlignedFacts(t, c, from, cmds, k0);
    k, repr' := k0, repr;
    step := Going;
    var more := true;
    while more
      invariant Wired(c) && c.rd.Faults(false) && c.rd.rd.end == old(c.rd.rd.end) && step == Going && k0 <= k <= |cmds|
      invariant c.Footprint() <= repr' && fresh(repr' - repr)
      invariant Aligned(t, c, from, cmds, k)
      invariant k == k0 ==> more && ViewOf(c) == old(ViewOf(c))
      invariant k > k0 ==> more == (c.rd.Buffered() != 0) && (k == |cmds| ==> !more)
      invariant old(FramedFrom(t, c, from, cmds, k0, sch)) ==>
                  FramedFrom(t, c, from, cmds, k, sch)
      decreases |cmds| - k, more
    {
      step, more, k, repr' := PipelineTurn(t, c, from, cmds, k, sch, repr');
      if step != Going { return; }
    }
    FramedClean(t, c, from, cmds, k, sch);
    AlignedFacts(t, c, from, cmds, k);
  }

  /** The body of the loop of pipeline, and the test behind it. */
  method PipelineTurn(t: Table, c: Client, ghost from: View, ghost cmds: seq<Cmd>, ghost k: nat,
                      ghost sch: Schedule, ghost repr: set<object>)
    returns (step: Step, more: bool, ghost k': nat, ghost repr': set<object>)
    requires t.Valid() && Aligned(t, c, from, cmds, k) && |sch.lows| == |cmds| && k <= |cmds|
    requires forall i :: 0 <= i < |cmds| ==> Sendable(cmds[i])
    requires c.Footprint() <= repr
    modifies repr
    ensures Wired(c) && c.rd.Faults(step == Off) && Ran(t, ViewOf(c), from, cmds, k') && c.rd.rd.end == old(c.rd.rd.end)
    ensures fresh(repr' - repr) && k <= k' <= |cmds|
    ensures step != Off ==> c.Footprint() <= repr' && Aligned(t, c, from, cmds, k')
    ensures step == Going ==> more == (c.rd.Buffered() != 0) && k' == k + 1 && (k' == |cmds| ==> !more)
    ensures step.NoMore? ==> step == NoMore(IO(c.rd.rd.end)) && k' == k == |cmds| && ViewOf(c) == old(ViewOf(c))
    ensures step == Broken ==> c.broken
    ensures old(FramedFrom(t, c, from, cmds, k, sch)) ==>
              if step == Off then Stuck(t, c.log, |from.log|, cmds, k', sch)
              else Clean(t, c.log, |from.log|, cmds, k', sch) && (step == Going ==> FramedFrom(t, c, from, cmds, k', sch))
    ensures k == |cmds| ==> step.NoMore?
  {
    hide Ran, Aligned, FramedFrom, Stuck, Clean, Uncut, SessionFramed, ViewOf, Client.Valid, Sendable, Reader.Valid, Client.Footprint;
    AlignedFacts(t, c, from, cmds, k);
    FramedClean(t, c, from, cmds, k, sch);
    ViewParts(c);
    step, k', repr' := SessionTurn(t, c, from, cmds, k, sch, repr);
    ViewParts(c);
    FramedClean(t, c, from, cmds, k', sch);
    RanFacts(t, ViewOf(c), from, cmds, k');
    more := false;
    if step == Going {
      AlignedFacts(t, c, from, cmds, k');
      more := c.rd.Buffered() != 0;
    }
  }

  lemma AlignedIntro(t: Table, c: Client, from: View, cmds: seq<Cmd>, k: nat)
    requires c.Valid() && k <= |cmds| && Ran(t, ViewOf(c), from, cmds, k)
    requires c.rd.Unread() == EncodeAll(cmds[k..])
    ensures Aligned(t, c, from, cmds, k)
  {
  }

  /** Buffered bytes are unread bytes, so at the end of the input none are buffered. */
  lemma AlignedFacts(t: Table, c: Client, from: View, cmds: seq<Cmd>, k: nat)
    requires Aligned(t, c, from, cmds, k)
    ensures c.Valid() && Wired(c) && c.rd.Valid() && c.wr.Valid()
    ensures k <= |cmds| && Ran(t, ViewOf(c), from, cmds, k)
    ensures c.rd.Unread() == EncodeAll(cmds[k..])
    ensures k == |cmds| ==> c.rd.Buffered() == 0 && cmds[k..] == [] && EncodeAll(cmds[k..]) == []
  {
    if k == |cmds| {
      assert cmds[k..] == [];
      assert c.rd.Unread() == [] && |c.rd.Unread()| >= c.rd.w - c.rd.r;
    }
  }

  /** Why a session ends: a handler closed the client, the input ended, a flush failed; or
      the model stops at a failure of delivery. */
  datatype Stop = Closed | Ended(e: SourceError) | FlushFailed | Derailed

  /** A session over a stream of well-formed commands, whatever the handlers and however
      the stream is cut into reads.

      Each served command was logged exactly once, in order, with the event it must cause,
      and what was written and what is still pending is the concatenation of the replies in
      order, wherever flushes fell. The session runs until the input ends (which is itself
      reported to the client) or, once a handler has closed the client, until no command is
      buffered any more. Unless it derails it stands on a command boundary. It derails exactly
      if the delivery fails the reader; if the delivery is framed, only at a command whose
      stream handler makes a Read on the last byte of a trailer, and if no chunk ends inside
      a command, it serves no such command. A flush fails only if the replies are more than
      the sink takes. */
  method Serve(t: Table, c: Client, ghost cmds: seq<Cmd>, ghost sch: Schedule)
    returns (stop: Stop, ghost k: nat)
    requires t.Valid() && c.Valid() && !c.closed && !c.broken
    requires c.rd.Unread() == EncodeAll(cmds) && |sch.lows| == |cmds|
    requires forall i :: 0 <= i < |cmds| ==> Sendable(cmds[i])
    modifies c.Footprint()
    ensures Wired(c) && c.rd.Faults(stop.Derailed?) && k <= |cmds| && Logged(t, old(c.log), c.log, cmds[..k])
    ensures !c.broken ==>
              c.wr.Wire() == old(c.wr.Wire()) + Flatten(SentSince(t, c.log, |old(c.log)|)) + FinalReport(t, stop)
    ensures c.closed <==> ClosedSince(t, c.log, |old(c.log)|)
    ensures stop.Closed? ==> c.closed && c.rd.Buffered() == 0
    ensures stop.Ended? ==> k == |cmds| && !c.closed && stop.e == old(c.rd.rd.end)
    ensures stop.FlushFailed? ==> c.broken
    ensures c.broken ==>
              |old(c.wr.Wire())| + |Flatten(SentSince(t, c.log, |old(c.log)|))| + |FinalReport(t, stop)| > old(c.wr.Limit())
    ensures !stop.Derailed? ==> c.rd.Unread() == EncodeAll(cmds[k..])
    ensures (stop.Closed? || stop.Ended?) && !c.broken ==> c.wr.len == 0
    ensures old(SessionFramed(t, c, cmds, sch)) ==>
              if stop.Derailed? then Stuck(t, c.log, |old(c.log)|, cmds, k, sch) else Clean(t, c.log, |old(c.log)|, cmds, k, sch)
  {
    hide Ran, FramedFrom, Aligned, ViewOf, Client.Valid, Sendable, Client.Footprint, SessionFramed, Uncut, SuitedTo, Logged, Replies, Closes, SentSince, ClosedSince, FinalReport;
    ClientParts(c);
    ghost var from, repr := View(c.log, c.closed, c.broken, c.wr.Wire(), c.wr.Limit()), c.Footprint();
    ViewParts(c);
    SessionStart(t, c, from, cmds, sch);
    k := 0;
    while !c.closed
      invariant Aligned(t, c, from, cmds, k) && Wired(c) && c.rd.Faults(false) && c.rd.rd.end == old(c.rd.rd.end)
      invariant k <= |cmds| && c.Footprint() <= repr && fresh(repr - old(c.Footprint()))
      invariant c.closed ==> c.rd.Buffered() == 0 && (!c.broken ==> c.wr.len == 0)
      invariant old(SessionFramed(t, c, cmds, sch)) ==> FramedFrom(t, c, from, cmds, k, sch)
      decreases |cmds| - k, !c.closed
    {
      var s;
      s, k, repr := Round(t, c, from, cmds, k, sch, repr);
      if s.Some? { return s.value, k; }
    }
    Summary(t, c, from, cmds, k);
    FramedClean(t, c, from, cmds, k, sch);
    stop := Closed;
  }

  /** What is sent when the session ends with an error of the source: "-ERR ", its text and
      CR LF. */
  function FinalReport(t: Table, stop: Stop): (line: bytes)
    ensures !stop.Ended? ==> line == []
  {
    if stop.Ended? then [45, 69, 82, 82, 32] + t.text(IO(stop.e)) + [13, 10] else []
  }

  lemma ServedExactly(t: Table, hist: seq<Event>, log: seq<Event>, cmds: seq<Cmd>)
    requires Logged(t, hist, log, cmds)
    ensures |hist| <= |log|
    ensures Replies(t, log, |hist|) == Flatten(SentSince(t, log, |hist|))
    ensures Closes(t, log, |hist|) <==> ClosedSince(t, log, |hist|)
  {
    hide Accounts, Replies, Closes, SentSince, ClosedSince;
    assert |hist| <= |log|;
    RepliesExactly(t, log, |hist|, cmds);
    ClosesExactly(t, log, |hist|);
  }

  /** The body of the session loop: one pipeline, and the report or the flush behind it. */
  method Round(t: Table, c: Client, ghost from: View, ghost cmds: seq<Cmd>, ghost k0: nat,
               ghost sch: Schedule, ghost repr: set<object>)
    returns (stop: Option<Stop>, ghost k: nat, ghost repr': set<object>)
    requires t.Valid() && Aligned(t, c, from, cmds, k0) && |sch.lows| == |cmds| && !c.closed
    requires forall i :: 0 <= i < |cmds| ==> Sendable(cmds[i])
    requires c.Footprint() <= repr
    modifies repr
    ensures Wired(c) && c.rd.Faults(stop == Some(Derailed)) && k0 <= k <= |cmds| && c.rd.rd.end == old(c.rd.rd.end) && Logged(t, from.log, c.log, cmds[..k])
    ensures stop.None? ==>
              && k > k0 && Aligned(t, c, from, cmds, k) && c.Footprint() <= repr' && fresh(repr' - repr)
              && c.rd.Buffered() == 0 && c.wr.len == 0
    ensures stop.Some? && !c.broken ==>
              c.wr.Wire() == from.wire + Flatten(SentSince(t, c.log, |from.log|)) + FinalReport(t, stop.value)
    ensures c.closed <==> ClosedSince(t, c.log, |from.log|)
    ensures stop.Some? ==> !stop.value.Closed?
    ensures stop.Some? && stop.value.Ended? ==>
              k == |cmds| && !ClosedSince(t, c.log, |from.log|) && stop.value.e == old(c.rd.rd.end) && (!c.broken ==> c.wr.len == 0)
    ensures stop == Some(FlushFailed) ==> c.broken
    ensures stop.Some? && c.broken ==>
              |from.wire| + |Flatten(SentSince(t, c.log, |from.log|))| + |FinalReport(t, stop.value)| > from.limit
    ensures stop.Some? && !stop.value.Derailed? ==> c.rd.Unread() == EncodeAll(cmds[k..])
    ensures old(FramedFrom(t, c, from, cmds, k0, sch)) ==>
              && (if stop == Some(Derailed) then Stuck(t, c.log, |from.log|, cmds, k, sch) else Clean(t, c.log, |from.log|, cmds, k, sch))
              && (stop.None? ==> FramedFrom(t, c, from, cmds, k, sch))
  {
    hide Ran, FramedFrom, Aligned, Client.Valid, Sendable, SessionFramed, ViewOf, Client.Footprint, Uncut, Stuck, Clean, Logged, SentSince, ClosedSince, Reader.Unread;
    Summary(t, c, from, cmds, k0);
    ViewParts(c);
    var step;
    step, k, repr' := Pipeline(t, c, from, cmds, k0, sch, repr);
    ViewParts(c);
    RanFacts(t, ViewOf(c), from, cmds, k);
    if step == Off { return Some(Derailed), k, repr'; }
    Summary(t, c, from, cmds, k);
    if step != Going {
      var e := if step.NoMore? then step.e else IO(Failed([]));
      Report(c, EncodeText(MINUS, ERR + t.text(e)));
      return Some(if step.NoMore? then Ended(e.s) else FlushFailed), k, repr';
    }
    var ok := FlushSession(t, c, from, cmds, k, sch);
    Summary(t, c, from, cmds, k);
    stop := if ok then None else Some(FlushFailed);
  }

  lemma ClientParts(c: Client)
    requires c.Valid()
    ensures Wired(c) && {c, c.rd, c.rd.buf, c.wr, c.wr.data} <= c.Footprint()
  {
  }

  /** What an aligned session shows. */
  lemma Summary(t: Table, c: Client, from: View, cmds: seq<Cmd>, k: nat)
    requires Aligned(t, c, from, cmds, k)
    ensures Wired(c) && c.Valid() && {c, c.rd, c.rd.buf, c.wr, c.wr.data} <= c.Footprint()
    ensures k <= |cmds| && Logged(t, from.log, c.log, cmds[..k]) && |from.log| <= |c.log| && c.rd.Unread() == EncodeAll(cmds[k..])
    ensures !c.broken ==> c.wr.Wire() == from.wire + Flatten(SentSince(t, c.log, |from.log|))
    ensures c.wr.Limit() == from.limit && (c.broken ==> |from.wire| + |Flatten(SentSince(t, c.log, |from.log|))| > from.limit)
    ensures c.closed <==> ClosedSince(t, c.log, |from.log|)
    ensures k == |cmds| ==> cmds[..k] == cmds
  {
    hide Logged, Replies, Closes, SentSince, ClosedSince, Command.Valid, CommandStream.Valid;
    ServedExactly(t, from.log, c.log, cmds[..k]);
  }

  /** The error line of a failed pipeline, and the flush behind it. */
  method Report(c: Client, line: bytes)
    requires Wired(c)
    modifies c, c.wr, c.wr.data
    ensures Wired(c) && c.rd.Faults(false) && c.rd.rd == old(c.rd.rd) && c.rd.Unread() == old(c.rd.Unread()) && c.log == old(c.log) && c.closed == old(c.closed)
    ensures !c.broken ==> !old(c.broken) && c.wr.Wire() == old(c.wr.Wire()) + line && c.wr.len == 0
    ensures old(c.broken) ==> c.broken
    ensures c.broken ==> old(c.broken) || |old(c.wr.Wire())| + |line| > old(c.wr.Limit())
  {
    hide Reader.Unread;
    c.wr.AppendRaw(line);
    var ok := c.Flush();
  }

  /** The flush between two pipelines. */
  method FlushSession(t: Table, c: Client, ghost from: View, ghost cmds: seq<Cmd>, ghost k: nat, ghost sch: Schedule)
    returns (ok: bool)
    requires t.Valid() && Aligned(t, c, from, cmds, k)
    modifies c, c.wr
    ensures Wired(c) && c.rd.Faults(false) && c.rd.rd == old(c.rd.rd) && c.rd.Buffered() == old(c.rd.Buffered())
    ensures Aligned(t, c, from, cmds, k) && c.Footprint() == old(c.Footprint()) && c.log == old(c.log)
    ensures if ok then ViewOf(c) == old(ViewOf(c)) && c.wr.len == 0 else c.broken
    ensures old(FramedFrom(t, c, from, cmds, k, sch)) ==> FramedFrom(t, c, from, cmds, k, sch)
  {
    hide Ran, Clean, Uncut, OnPlan, EncodeAll, Command.Valid, CommandStream.Valid, Reader.Unread, Writer.Wire, Writer.Limit;
    ghost var v := ViewOf(c);
    ok := c.Flush();
    Flushed(t, v, ViewOf(c), from, cmds, k);
  }

  lemma Flushed(t: Table, v: View, v': View, from: View, cmds: seq<Cmd>, k: nat)
    requires Ran(t, v, from, cmds, k)
    requires v'.log == v.log && v'.closed == v.closed && v'.limit == v.limit
    requires v' == v || (v'.broken && |v.wire| > v.limit)
    ensures Ran(t, v', from, cmds, k)
  {
    hide Logged, Replies, Closes;
  }

  lemma SessionStart(t: Table, c: Client, from: View, cmds: seq<Cmd>, sch: Schedule)
    requires t.Valid() && c.Valid() && !c.closed && !c.broken && c.rd.Unread() == EncodeAll(cmds) && |sch.lows| == |cmds|
    requires from == ViewOf(c)
    ensures Aligned(t, c, from, cmds, 0)
    ensures SessionFramed(t, c, cmds, sch) ==> FramedFrom(t, c, from, cmds, 0, sch)
  {
    hide OnPlan, Ran, Uncut, Client.Valid, Reader.Unread, Writer.Wire;
    assert cmds[..0] == [] && cmds[0..] == cmds && sch.From(0) == sch;
    RanStart(t, from, cmds);
  }

  lemma RanFacts(t: Table, v: View, from: View, cmds: seq<Cmd>, k: nat)
    requires Ran(t, v, from, cmds, k)
    ensures k <= |cmds| && Logged(t, from.log, v.log, cmds[..k]) && |from.log| <= |v.log|
    ensures !v.broken ==> v.wire == from.wire + Flatten(SentSince(t, v.log, |from.log|))
    ensures v.limit == from.limit && (v.broken ==> |from.wire| + |Flatten(SentSince(t, v.log, |from.log|))| > from.limit)
    ensures v.closed <==> ClosedSince(t, v.log, |from.log|)
    ensures k == |cmds| ==> cmds[..k] == cmds
  {
    ServedExactly(t, from.log, v.log, cmds[..k]);
  }

  // ---------------------------------------------------------------- a new connection

  /** Every batch of commands arrives as one chunk, which fits the reader's buffer. */
  ghost predicate InBatches(chunks: seq<bytes>, batches: seq<seq<Cmd>>, cmds: seq<Cmd>, capacity: nat) {
    && chunks == Chunks(batches) && Join(batches) == cmds
    && forall j :: 0 <= j < |batches| ==> |EncodeAll(batches[j])| <= capacity
  }

  /** None of the first `k` commands has a stream handler that hits. */
  ghost predicate NoneHits(t: Table, log: seq<Event>, cmds: seq<Cmd>, k: nat)
    requires t.Valid()
  {
    k <= |cmds| && k <= |log| && forall i :: 0 <= i < k ==> !Hits(t, log[..i], cmds[i])
  }

  /** A new connection, whatever its client sends them in. If it sends whole commands, in
      writes of at most the reader's buffer size that arrive as they were sent, the session
      derails exactly at the first command whose stream handler hits: it serves none such,
      and stops in front of one only. */
  method ServeConnection(t: Table, ghost cmds: seq<Cmd>, source: Source, capacity: nat, sink: Sink, ghost batches: seq<seq<Cmd>>)
    returns (c: Client, stop: Stop, ghost k: nat)
    requires t.Valid() && capacity > 0 && source.Valid() && source.Rest() == EncodeAll(cmds)
    requires forall i :: 0 <= i < |cmds| ==> Sendable(cmds[i])
    ensures Wired(c) && (c.rd.faulty <==> stop.Derailed?)
    ensures k <= |cmds| && Logged(t, [], c.log, cmds[..k])
    ensures InBatches(source.chunks, batches, cmds, capacity) ==>
              NoneHits(t, c.log, cmds, k) && (stop.Derailed? ==> k < |cmds| && Hits(t, c.log, cmds[k]))
    ensures stop.Ended? ==> k == |cmds| && stop.e == source.end
    ensures !c.broken && !stop.Derailed? && !stop.FlushFailed? ==>
              c.wr.sink.written == sink.written + Flatten(SentSince(t, c.log, 0)) + FinalReport(t, stop)
    ensures (stop.Closed? ==> ClosedSince(t, c.log, 0)) && (stop.Ended? ==> !ClosedSince(t, c.log, 0))
    ensures stop.FlushFailed? ==> c.broken
    ensures |Flatten(SentSince(t, c.log, 0))| + |FinalReport(t, stop)| <= sink.room ==> !c.broken
  {
    hide Uncut, Framing.Framed, InBatches, Stuck, Clean, NoneHits, Logged, EncodeAll, SentSince, ClosedSince, FinalReport, Sendable, OnCuts, OnPlan, Client.Valid, Reader.Unread;
    c := NewClient(capacity, source, sink);
    ValidIsWired(c);
    ghost var sch := Schedule(seq(|cmds|, i => 0), {}, 0, false);
    if InBatches(source.chunks, batches, cmds, capacity) { sch := BatchPlan(c.rd, batches, cmds, capacity); }
    stop, k := Serve(t, c, cmds, sch);
    if InBatches(source.chunks, batches, cmds, capacity) { BatchesServed(t, c.log, cmds, k, sch, stop.Derailed?); }
    assert c.wr.len == 0 ==> c.wr.Wire() == c.wr.sink.written;
  }

  lemma BatchPlan(r: Reader, batches: seq<seq<Cmd>>, cmds: seq<Cmd>, capacity: nat) returns (sch: Schedule)
    requires r.Valid() && r.r == r.w && r.buf.Length == capacity && InBatches(r.rd.chunks, batches, cmds, capacity)
    requires forall i :: 0 <= i < |cmds| ==> Sendable(cmds[i])
    ensures |sch.lows| == |cmds| && !sch.seated && Uncut(cmds, sch) && OnPlan(r, cmds, sch)
  {
    hide Uncut, Framing.Framed, EncodeAll, OnCuts, Sendable, Join, Chunks;
    sch := BatchesUncut(batches, {}, capacity, false);
    UncutIsFramed(cmds, sch);
    ChunksFlatten(batches);
  }

  /** What an uncut delivery means in terms of hits. */
  lemma BatchesServed(t: Table, log: seq<Event>, cmds: seq<Cmd>, k: nat, sch: Schedule, derailed: bool)
    requires t.Valid() && Uncut(cmds, sch) && forall i :: 0 <= i < |cmds| ==> Sendable(cmds[i])
    requires if derailed then Stuck(t, log, 0, cmds, k, sch) else Clean(t, log, 0, cmds, k, sch)
    ensures NoneHits(t, log, cmds, k) && (derailed ==> k < |cmds| && Hits(t, log, cmds[k]))
  {
    hide SuitedTo, Hits, Uncut, EncodeAll, Sendable;
    forall i | 0 <= i < k ensures !Hits(t, log[..i], cmds[i]) {
      assert log[..0 + i] == log[..i];
      HitsAlone(t, log[..i], cmds[i], EncodeAll(cmds[i + 1..]));
    }
    if derailed { HitsAlone(t, log, cmds[k], EncodeAll(cmds[k + 1..])); }
  }

  method NewClient(capacity: nat, source: Source, sink: Sink) returns (c: Client)
    requires capacity > 0 && source.Valid()
    ensures fresh(c) && c.Valid() && !c.rd.faulty && fresh(c.Footprint()) && !c.closed && c.log == [] && !c.broken
    ensures c.rd.Unread() == source.Rest() && c.rd.rd == source && c.rd.r == c.rd.w && c.rd.buf.Length == capacity
    ensures c.wr.Wire() == sink.written && c.wr.Limit() == |sink.written| + sink.room
  {
    hide Command.Valid, CommandStream.Valid, Reader.Unread;
    var rd, wr := NewWires(capacity, source, sink);
    var cmd, scmd := NewCommands();
    c := new Client(rd, wr, cmd, scmd);
  }

  method NewWires(capacity: nat, source: Source, sink: Sink) returns (rd: Reader, wr: Writer)
    requires capacity > 0 && source.Valid()
    ensures fresh(rd) && fresh(rd.buf) && fresh(wr) && fresh(wr.data) && rd.buf != wr.data
    ensures rd.Valid() && !rd.faulty && rd.Unread() == source.Rest() && rd.rd == source && rd.r == rd.w && rd.buf.Length == capacity
    ensures wr.Valid() && wr.Wire() == sink.written && wr.Limit() == |sink.written| + sink.room
  {
    rd := new Reader(capacity, source);
    wr := new Writer(capacity, sink);
  }

  method NewCommands() returns (cmd: Command, scmd: CommandStream)
    ensures fresh(cmd.Repr()) && fresh(scmd.Repr()) && cmd.Repr() !! scmd.Repr()
    ensures cmd.Valid() && scmd.Valid() && scmd.rd == null
  {
    hide Command.Valid;
    cmd := new Command();
    scmd := new CommandStream();
  }
}
