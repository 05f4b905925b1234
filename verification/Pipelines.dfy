/** Whole request pipelines: RequestWriter of resp/request.go on one side, repeated
    ReadCmd on the other. */
module Pipelines {
  import opened Bytes
  import opened Tokens
  import opened Syntax
  import opened Delivery
  import opened Readers
  import opened Commands
  import opened Requests
  import opened Writers
  import opened Layout
  import opened Framing

  lemma {:induction false} EncodeBulksSnoc(ps: seq<bytes>, p: bytes)
    ensures EncodeBulks(ps + [p]) == EncodeBulks(ps) + EncodeBulk(p)
    decreases |ps|
  {
    hide EncodeBulk;
    if ps == [] {
      assert [] + [p] == [p] && EncodeBulks([p]) == EncodeBulk(p) + EncodeBulks([]);
    } else {
      assert (ps + [p])[1..] == ps[1..] + [p];
      EncodeBulksSnoc(ps[1..], p);
    }
  }

  /** WriteCmd and WriteCmdString. */
  method WriteCmd(w: Writer, c: Cmd)
    requires w.Valid()
    modifies w, w.data
    ensures w.Extends(EncodeCmd(c)) && IsRequest(EncodeCmd(c), [c.name] + c.args)
  {
    hide IsRequest, IsBulk, EncodeBulk, EncodeBulks, EncodeCmd, Lines.SizeLine, Writer.Wire, Writer.Pending;
    RequestIsCmd(EncodeCmd(c), c);
    w.AppendArrayLen(|c.args| + 1);
    w.AppendBulk(c.name);
    ghost var head := Lines.SizeLine(STAR, |c.args| + 1) + EncodeBulk(c.name);
    ghost var sent := head;
    NothingSent(c, head);
    for i := 0 to |c.args|
      invariant w.Extends(sent) && sent == head + EncodeBulks(c.args[..i])
    {
      EncodeBulksSnoc(c.args[..i], c.args[i]);
      assert c.args[..i + 1] == c.args[..i] + [c.args[i]];
      w.AppendBulk(c.args[i]);
      sent := sent + EncodeBulk(c.args[i]);
    }
    AllSent(c);
  }

  lemma NothingSent(c: Cmd, head: bytes)
    ensures head == head + EncodeBulks(c.args[..0])
  {
  }

  lemma AllSent(c: Cmd)
    ensures EncodeCmd(c) == Lines.SizeLine(STAR, |c.args| + 1) + EncodeBulk(c.name) + EncodeBulks(c.args[..|c.args|])
  {
    assert c.args[..|c.args|] == c.args;
  }

  /** ReadCmd until it fails, always with the same recycled command. */
  method ReadAll(c: Command, r: Reader) returns (cmds: seq<Cmd>, err: Error)
    requires c.Valid() && r.Valid() && r.buf !in c.Repr()
    modifies c.Repr(), r, r.buf
    ensures r.Kept() && r.Faults(err.Delivery())
    ensures cmds <= ParseAll(old(r.Unread())).0
    ensures !err.Delivery() ==>
              && cmds == ParseAll(old(r.Unread())).0
              && Agrees(ParseCmd(ParseAll(old(r.Unread())).1), Err(err), [], r.rd)
              && (ParseAll(old(r.Unread())).1 == [] ==> err == IO(r.rd.end) && r.Unread() == [])
  {
    hide ParseCmd, Command.Args, Command.Valid, Reader.Unread;
    ghost var s := r.Unread();
    ParseAllStep([], s);
    cmds := [];
    while true
      invariant Settled(c, r) && r.Faults(false)
      invariant cmds + ParseAll(r.Unread()).0 == ParseAll(s).0
      invariant ParseAll(r.Unread()).1 == ParseAll(s).1
      decreases |r.Unread()|
    {
      ParseAllStep(cmds, r.Unread());
      var e := ReadCmd(c, r);
      if e.Some? {
        err := e.value;
        assert cmds <= ParseAll(s).0;
        return;
      }
      cmds := cmds + [c.Cmd()];
    }
  }

  lemma ParseAllStep(cmds: seq<Cmd>, s: bytes)
    ensures cmds == [] ==> cmds + ParseAll(s).0 == ParseAll(s).0
    ensures !ParseCmd(s).Done? ==> ParseAll(s) == ([], s)
    ensures ParseCmd(s).Done? ==>
              var p := ParseCmd(s);
              && |p.rest| < |s| && ParseAll(s).1 == ParseAll(p.rest).1
              && cmds + ParseAll(s).0 == (cmds + [p.value]) + ParseAll(p.rest).0
  {
    hide ParseCmd;
  }

  /** How a connection cuts what is sent over it: into any chunks that are not empty. */
  ghost predicate Faithful(network: bytes -> seq<bytes>) {
    forall s :: Flatten(network(s)) == s && NoneEmpty(network(s))
  }

  predicate NoneEmpty(chunks: seq<bytes>) {
    forall i :: 0 <= i < |chunks| ==> chunks[i] != []
  }

  predicate AllSendable(cmds: seq<Cmd>) {
    forall i :: 0 <= i < |cmds| ==> Sendable(cmds[i])
  }

  /** What the two sides of a read keep between them. */
  twostate predicate Apart(c: Command, r: Reader)
    reads c, c.slots, r
  {
    && c.Valid() && r.Valid() && r.buf !in c.Repr() && fresh(c.Repr() - old(c.Repr()))
    && (r.buf == old(r.buf) || fresh(r.buf)) && r.rd.end == old(r.rd.end)
  }

  /** ReadCmd where these commands are to come: the first of them, or the end, or the
      delivery fails the reader; which it does not if the delivery is framed. */
  method ReadSent(c: Command, r: Reader, ghost cmds: seq<Cmd>, ghost sch: Schedule) returns (err: Option<Error>)
    requires c.Valid() && r.Valid() && r.buf !in c.Repr()
    requires r.Unread() == EncodeAll(cmds) && AllSendable(cmds)
    modifies c.Repr(), r, r.buf
    ensures Apart(c, r) && r.Faults(LostBy(err))
    ensures cmds == [] ==> err == Some(IO(r.rd.end)) && r.Unread() == []
    ensures cmds != [] ==> err.None? || LostBy(err)
    ensures cmds != [] && err.None? ==> c.Cmd() == cmds[0] && r.Unread() == EncodeAll(cmds[1..])
    ensures cmds != [] && old(OnPlan(r, cmds, sch)) ==> err.None? && OnPlan(r, cmds[1..], sch.From(1))
  {
    hide EncodeCmd, ParseCmd, ClearCmd, Command.Valid, Command.Args, Command.Cmd, Reader.Smooth, OnCuts, Flatten;
    ghost var planned := cmds != [] && OnPlan(r, cmds, sch);
    if planned {
      r.plan := sch.First();
      PlanIsSmooth(r, cmds, sch);
    }
    if cmds != [] { CmdRoundTrip(cmds[0], EncodeAll(cmds[1..])); }
    err := ReadCmd(c, r);
    if planned { PlanGoesOn(r, cmds, sch); }
  }

  /** ReadCmd until it fails, where these commands are to come. */
  method ReadAllSent(c: Command, r: Reader, ghost cmds: seq<Cmd>, ghost sch: Schedule) returns (got: seq<Cmd>, err: Error)
    requires c.Valid() && r.Valid() && r.buf !in c.Repr()
    requires r.Unread() == EncodeAll(cmds) && AllSendable(cmds)
    modifies c.Repr(), r, r.buf
    ensures r.Valid() && got <= cmds && r.Faults(err.Delivery())
    ensures !err.Delivery() ==> got == cmds && err == IO(old(r.rd.end)) && r.Unread() == []
    ensures old(OnPlan(r, cmds, sch)) ==> !err.Delivery()
  {
    hide EncodeAll, OnPlan, AllSendable, Command.Valid, Command.Args, Command.Cmd, Reader.Unread;
    ghost var n, planned := 0, OnPlan(r, cmds, sch);
    got := [];
    if planned { OnPlanWhole(r, cmds, sch); }
    assert cmds[0..] == cmds;
    while true
      invariant n <= |cmds| && got == cmds[..n] && Apart(c, r) && r.Faults(false)
      invariant r.Unread() == EncodeAll(cmds[n..]) && AllSendable(cmds[n..])
      invariant planned ==> |sch.lows| == |cmds| && OnPlan(r, cmds[n..], sch.From(n))
      decreases |cmds| - n
    {
      var e := ReadSent(c, r, cmds[n..], if planned then sch.From(n) else sch);
      if e.Some? { return got, e.value; }
      Onward(cmds, n);
      if planned { assert sch.From(n).From(1) == sch.From(n + 1); }
      got := got + [c.Cmd()];
      n := n + 1;
    }
  }

  lemma OnPlanWhole(r: Reader, cmds: seq<Cmd>, sch: Schedule)
    requires OnPlan(r, cmds, sch)
    ensures |sch.lows| == |cmds| && sch.From(0) == sch
  {
  }

  lemma Onward(cmds: seq<Cmd>, n: nat)
    requires n < |cmds|
    ensures cmds[n..][1..] == cmds[n + 1..] && cmds[..n] + [cmds[n..][0]] == cmds[..n + 1]
    ensures AllSendable(cmds[n..]) ==> AllSendable(cmds[n + 1..])
  {
    assert AllSendable(cmds[n..]) ==> forall i :: n <= i < |cmds| ==> cmds[i] == cmds[n..][i - n];
  }

  /** The chunks of a whole pipeline: from the start of each command to a border at or
      behind its end the bytes fit a buffer of this capacity, and every header line takes
      one Read at most. */
  ghost predicate DeliversFramed(chunks: seq<bytes>, cmds: seq<Cmd>, sch: Schedule, capacity: nat) {
    && Framed(cmds, sch) && sch.cap <= capacity && OnCuts(chunks, sch.cuts)
    && (sch.seated ==> |Flatten(chunks)| in sch.cuts)
    && (sch.lows != [] ==> sch.lows[0] <= |Flatten(chunks)|)
  }

  /** A pipeline from one end to the other. The client writes the commands and flushes
      after those it chooses, which succeeds exactly if the connection takes them all. The
      server reads until its source ends. However the network delivers, the server gets a
      prefix of the commands before the delivery fails it, or all of them, in order, and
      the end. Where the network delivers framed, it gets them all. */
  method Exchange(w: Writer, cmds: seq<Cmd>, flushes: set<nat>, network: bytes -> seq<bytes>, end: SourceError, capacity: nat,
                  ghost sch: Schedule)
    returns (sent: bool, got: seq<Cmd>, err: Error)
    requires w.Valid() && w.Wire() == [] && capacity > 0 && AllSendable(cmds) && Faithful(network)
    modifies w, w.data
    ensures sent <==> |EncodeAll(cmds)| <= old(w.Limit())
    ensures sent ==> got <= cmds && (err.Delivery() || (got == cmds && err == IO(end)))
    ensures sent && DeliversFramed(network(EncodeAll(cmds)), cmds, sch, capacity) ==> got == cmds && err == IO(end)
  {
    hide EncodeAll, DeliversFramed, AllSendable;
    sent := SendAll(w, cmds, flushes);
    got, err := [], TooLong;
    if sent { got, err := Receive(network(w.sink.written), end, capacity, cmds, sch); }
  }

  method Receive(chunks: seq<bytes>, end: SourceError, capacity: nat, ghost cmds: seq<Cmd>, ghost sch: Schedule)
    returns (got: seq<Cmd>, err: Error)
    requires capacity > 0 && NoneEmpty(chunks) && Flatten(chunks) == EncodeAll(cmds) && AllSendable(cmds)
    ensures got <= cmds && (err.Delivery() || (got == cmds && err == IO(end)))
    ensures DeliversFramed(chunks, cmds, sch, capacity) ==> !err.Delivery()
  {
    hide EncodeAll, Framed, AllSendable, Command.Args, Flatten;
    var r := new Reader(capacity, Source(chunks, end));
    var c := new Command();
    got, err := ReadAllSent(c, r, cmds, sch);
  }

  /** All flushes succeed exactly if the sink takes everything. */
  method SendAll(w: Writer, cmds: seq<Cmd>, flushes: set<nat>) returns (sent: bool)
    requires w.Valid()
    modifies w, w.data
    ensures w.Valid() && (w.data == old(w.data) || fresh(w.data))
    ensures sent <==> |old(w.Wire())| + |EncodeAll(cmds)| <= old(w.Limit())
    ensures sent ==> w.sink.written == old(w.Wire()) + EncodeAll(cmds)
  {
    hide EncodeCmd;
    for i := 0 to |cmds|
      invariant w.Valid() && (w.data == old(w.data) || fresh(w.data))
      invariant w.Wire() == old(w.Wire()) + EncodeAll(cmds[..i]) && w.Limit() == old(w.Limit())
    {
      ghost var before := w.Wire();
      WriteCmd(w, cmds[i]);
      EncodeAllSnoc(cmds, i);
      assert w.Wire() == old(w.Wire()) + EncodeAll(cmds[..i + 1]);
      if i in flushes {
        var ok := w.Flush();
        if !ok {
          EncodeAllPrefix(cmds, i + 1);
          return false;
        }
      }
    }
    assert cmds[..|cmds|] == cmds;
    sent := w.Flush();
    if sent { assert w.Wire() == w.sink.written; }
  }

  lemma EncodeAllPrefix(cmds: seq<Cmd>, i: nat)
    requires i <= |cmds|
    ensures |EncodeAll(cmds[..i])| <= |EncodeAll(cmds)|
  {
    EncodeAllAppend(cmds[..i], cmds[i..]);
    assert cmds == cmds[..i] + cmds[i..];
  }

  lemma EncodeAllSnoc(cmds: seq<Cmd>, i: nat)
    requires i < |cmds|
    ensures EncodeAll(cmds[..i + 1]) == EncodeAll(cmds[..i]) + EncodeCmd(cmds[i])
  {
    hide EncodeCmd;
    assert cmds[..i + 1] == cmds[..i] + [cmds[i]];
    EncodeAllAppend(cmds[..i], [cmds[i]]);
    assert EncodeAll([cmds[i]]) == EncodeCmd(cmds[i]) + EncodeAll([]);
  }
}
