/** The handlers of a server, and what a session owes its client: server.go's table of
    commands as a specification. */
module Handlers {
  import opened Bytes
  import opened Lines
  import opened Tokens
  import opened Syntax
  import opened LazyCommands
  import opened Conducts
  import opened Framing

  /** What the server got to see of one command. Of a streamed command that is what its
      handler read. */
  datatype Event =
    | Unknown(name: bytes)
    | Called(cmd: Cmd)
    | StreamedTo(name: bytes, nargs: nat, look: Look)

  /** What a handler does: the bytes it appends, whether it then flushes, and whether it
      closes the client. */
  datatype Reaction = Reaction(reply: bytes, flush: bool, close: bool)

  /** A command handler or a stream handler. Both may depend on everything that happened
      on the connection before. A stream handler decides what to read next by all that it
      has read so far, and may return at any time, in the middle of an argument too. */
  datatype Handler =
    | Plain(serve: (seq<Event>, Event) -> Reaction)
    | Streaming(act: (seq<Event>, bytes, nat, Look) -> Action, serve: (seq<Event>, Event) -> Reaction)

  function ConductOf(h: Handler, hist: seq<Event>, name: bytes, nargs: nat): Conduct
    requires h.Streaming?
  {
    (look: Look) => h.act(hist, name, nargs, look)
  }

  /** The handler table, the lower-casing it is keyed by, and the texts of errors. */
  datatype Table = Table(cmds: map<bytes, Handler>, lower: bytes -> bytes, text: Error -> bytes) {
    /** Stream handlers keep to what Next demands of them. */
    ghost predicate Valid() {
      forall key :: key in cmds && cmds[key].Streaming? ==> AlwaysOrderly(cmds[key])
    }
  }

  ghost predicate AlwaysOrderly(h: Handler)
    requires h.Streaming?
  {
    forall hist, name, nargs :: Orderly(ConductOf(h, hist, name, nargs), nargs)
  }

  /** "ERR unknown command 'name'". */
  function UnknownText(name: bytes): bytes {
    ERR + [117, 110, 107, 110, 111, 119, 110, 32, 99, 111, 109, 109, 97, 110, 100, 32, 39] + name + [39]
  }

  // ---------------------------------------------------------------- what a session should do

  /** `ev` is what a command may cause, after the events `hist`: it reaches the handler of
      its lower-cased name, with its exact name and arguments. A stream handler sees true
      pieces of the arguments in order, those it asked for, until it returns. */
  ghost predicate Causes(t: Table, hist: seq<Event>, c: Cmd, ev: Event) {
    var key := t.lower(c.name);
    if key !in t.cmds then ev == Unknown(c.name)
    else if t.cmds[key].Plain? then ev == Called(c)
    else
      && ev.StreamedTo? && ev.name == c.name && ev.nargs == |c.args| && Saw(ev.look, c.args)
      && Came(ConductOf(t.cmds[key], hist, c.name, |c.args|), ev.look)
      && ConductOf(t.cmds[key], hist, c.name, |c.args|)(ev.look).Finish?
  }

  function NameOf(ev: Event): bytes {
    match ev
    case Unknown(name) => name
    case Called(cmd) => cmd.name
    case StreamedTo(name, _, _) => name
  }

  /** The reaction to an event. */
  function ReactionTo(t: Table, hist: seq<Event>, ev: Event): Reaction {
    var key := t.lower(NameOf(ev));
    if key in t.cmds then t.cmds[key].serve(hist, ev)
    else Reaction(EncodeText(MINUS, UnknownText(NameOf(ev))), false, false)
  }

  /** The log from `m` on has one event for each of these commands, in order. */
  ghost predicate Accounts(t: Table, log: seq<Event>, m: nat, cmds: seq<Cmd>) {
    && |log| == m + |cmds|
    && forall i :: 0 <= i < |cmds| ==> Causes(t, log[..m + i], cmds[i], log[m + i])
  }

  /** The log goes on from `hist` with one event for each of these commands, in order. */
  ghost predicate Logged(t: Table, hist: seq<Event>, log: seq<Event>, cmds: seq<Cmd>) {
    hist <= log && Accounts(t, log, |hist|, cmds)
  }

  /** The replies to the events of the log from `m` on, in order. */
  function Replies(t: Table, log: seq<Event>, m: nat): bytes
    decreases |log|
  {
    if |log| <= m then []
    else
      var hist := log[..|log| - 1];
      Replies(t, hist, m) + ReactionTo(t, hist, log[|log| - 1]).reply
  }

  /** Some event of the log from `m` on made its handler close the client. */
  predicate Closes(t: Table, log: seq<Event>, m: nat)
    decreases |log|
  {
    |log| > m &&
    var hist := log[..|log| - 1];
    Closes(t, hist, m) || ReactionTo(t, hist, log[|log| - 1]).close
  }

  lemma AccountsSnoc(t: Table, log: seq<Event>, m: nat, cmds: seq<Cmd>, c: Cmd, ev: Event)
    requires Accounts(t, log, m, cmds) && Causes(t, log, c, ev)
    ensures Accounts(t, log + [ev], m, cmds + [c])
    ensures Replies(t, log + [ev], m) == Replies(t, log, m) + ReactionTo(t, log, ev).reply
    ensures Closes(t, log + [ev], m) == (Closes(t, log, m) || ReactionTo(t, log, ev).close)
  {
    hide Causes, ReactionTo;
    var more, all := log + [ev], cmds + [c];
    assert more[..|log|] == log;
    forall i | 0 <= i < |all| ensures Causes(t, more[..m + i], all[i], more[m + i]) {
      if i < |cmds| { assert more[..m + i] == log[..m + i]; }
    }
  }

  // ---------------------------------------------------------------- in terms of the handlers

  /** The handler that event `i` of the log reached closes the client. An unknown command
      has reached none. */
  predicate ClosedAt(t: Table, log: seq<Event>, i: nat)
    requires i < |log|
  {
    var key := t.lower(NameOf(log[i]));
    key in t.cmds && t.cmds[key].serve(log[..i], log[i]).close
  }

  ghost predicate ClosedSince(t: Table, log: seq<Event>, m: nat) {
    exists i :: m <= i < |log| && ClosedAt(t, log, i)
  }

  /** What is sent for event `i` of the log: what its handler appends; for an unknown
      command "-ERR unknown command '", the name as it came, "'" and CR LF. */
  function SentAt(t: Table, log: seq<Event>, i: nat): bytes
    requires i < |log|
  {
    match log[i]
    case Unknown(name) =>
      [45, 69, 82, 82, 32, 117, 110, 107, 110, 111, 119, 110, 32, 99, 111, 109, 109, 97, 110, 100, 32, 39] + name + [39, 13, 10]
    case Called(c) => if t.lower(c.name) in t.cmds then t.cmds[t.lower(c.name)].serve(log[..i], log[i]).reply else []
    case StreamedTo(name, _, _) => if t.lower(name) in t.cmds then t.cmds[t.lower(name)].serve(log[..i], log[i]).reply else []
  }

  function SentSince(t: Table, log: seq<Event>, m: nat): (sent: seq<bytes>)
    requires m <= |log|
    ensures |sent| == |log| - m
  {
    seq(|log| - m, i requires 0 <= i < |log| - m => SentAt(t, log, m + i))
  }

  /** A client is closed by the handler of a command that was served, and by nothing else. */
  lemma {:induction false} ClosesExactly(t: Table, log: seq<Event>, m: nat)
    ensures Closes(t, log, m) <==> ClosedSince(t, log, m)
    decreases |log|
  {
    if |log| > m {
      var hist, last := log[..|log| - 1], |log| - 1;
      ClosesExactly(t, hist, m);
      forall i | m <= i < last ensures ClosedAt(t, log, i) <==> ClosedAt(t, hist, i) { assert hist[..i] == log[..i]; }
      assert ReactionTo(t, hist, log[last]).close <==> ClosedAt(t, log, last);
    }
  }

  /** The replies are what is sent for the events, one after the other. */
  lemma {:induction false} RepliesExactly(t: Table, log: seq<Event>, m: nat, cmds: seq<Cmd>)
    requires Accounts(t, log, m, cmds)
    ensures Replies(t, log, m) == Flatten(SentSince(t, log, m))
    decreases |cmds|
  {
    hide Causes, ReactionTo, SentAt;
    if cmds != [] {
      var hist, last, before := log[..|log| - 1], |log| - 1, cmds[..|cmds| - 1];
      forall i | 0 <= i < |before| ensures Causes(t, hist[..m + i], before[i], hist[m + i]) {
        assert hist[..m + i] == log[..m + i];
      }
      RepliesExactly(t, hist, m, before);
      forall i | m <= i < last ensures SentAt(t, hist, i) == SentAt(t, log, i) { SentBefore(t, log, i); }
      assert SentSince(t, log, m) == SentSince(t, hist, m) + [SentAt(t, log, last)];
      FlattenSnoc(SentSince(t, hist, m), SentAt(t, log, last));
      assert Causes(t, log[..m + (|cmds| - 1)], cmds[|cmds| - 1], log[last]);
      SentLast(t, hist, log, cmds[|cmds| - 1]);
    }
  }

  lemma SentBefore(t: Table, log: seq<Event>, i: nat)
    requires i < |log| - 1
    ensures SentAt(t, log[..|log| - 1], i) == SentAt(t, log, i)
  {
    assert log[..|log| - 1][..i] == log[..i];
  }

  lemma SentLast(t: Table, hist: seq<Event>, log: seq<Event>, c: Cmd)
    requires log != [] && hist == log[..|log| - 1] && Causes(t, hist, c, log[|log| - 1])
    ensures ReactionTo(t, hist, log[|log| - 1]).reply == SentAt(t, log, |log| - 1)
  {
    UnknownOnWire(c.name);
  }

  lemma UnknownOnWire(name: bytes)
    ensures EncodeText(MINUS, UnknownText(name))
         == [45, 69, 82, 82, 32, 117, 110, 107, 110, 111, 119, 110, 32, 99, 111, 109, 109, 97, 110, 100, 32, 39] + name + [39, 13, 10]
  {
  }

  predicate PlainFor(t: Table, c: Cmd) {
    t.lower(c.name) in t.cmds && t.cmds[t.lower(c.name)].Plain?
  }

  // ---------------------------------------------------------------- what a session shows

  /** What a session shows to the outside, and how much its sink takes. */
  datatype View = View(log: seq<Event>, closed: bool, broken: bool, wire: bytes, limit: nat)

  /** One command served: its event logged once, its reply appended, the client closed if
      the handler says so. No flush fails that the sink has room for. */
  ghost predicate Answers(t: Table, cmd: Cmd, v: View, v': View) {
    && |v'.log| == |v.log| + 1 && v'.log[..|v.log|] == v.log
    && var ev := v'.log[|v.log|];
    && Causes(t, v.log, cmd, ev)
    && v'.closed == (v.closed || ReactionTo(t, v.log, ev).close)
    && (!v'.broken ==> !v.broken && v'.wire == v.wire + ReactionTo(t, v.log, ev).reply)
    && v'.limit == v.limit
    && (v'.broken ==> v.broken || |v.wire| + |ReactionTo(t, v.log, ev).reply| > v.limit)
  }

  /** The first `k` commands of a session that began with `from` have been served: each
      logged once and in order, their replies appended in order, the client closed if one
      of them did that, and no flush failed that the sink had room for. */
  ghost predicate Ran(t: Table, v: View, from: View, cmds: seq<Cmd>, k: nat) {
    && k <= |cmds| && Logged(t, from.log, v.log, cmds[..k])
    && (!v.broken ==> v.wire == from.wire + Replies(t, v.log, |from.log|))
    && (v.closed <==> Closes(t, v.log, |from.log|))
    && v.limit == from.limit && !from.broken
    && (v.broken ==> |from.wire| + |Replies(t, v.log, |from.log|)| > v.limit)
  }

  lemma RanOn(t: Table, v: View, v': View, from: View, cmds: seq<Cmd>, k: nat)
    requires Ran(t, v, from, cmds, k) && k < |cmds| && Answers(t, cmds[k], v, v')
    ensures Ran(t, v', from, cmds, k + 1)
  {
    hide Accounts, Causes, Replies, Closes, ReactionTo;
    var ev := v'.log[|v.log|];
    assert v'.log == v.log + [ev];
    AccountsSnoc(t, v.log, |from.log|, cmds[..k], cmds[k], ev);
    assert cmds[..k] + [cmds[k]] == cmds[..k + 1];
    assert v.log <= v'.log;
  }

  lemma RanStart(t: Table, from: View, cmds: seq<Cmd>)
    requires !from.broken && !from.closed
    ensures Ran(t, from, from, cmds, 0)
  {
    assert from.wire + [] == from.wire && cmds[..0] == [];
  }

  // ---------------------------------------------------------------- suitable reads

  /** The stream handler for a command, if it has one, suits its arguments, in front of
      `rest` and on a delivery with these cuts: no Read of its is made on the last byte of
      an argument's trailer. */
  ghost predicate SuitedTo(t: Table, hist: seq<Event>, c: Cmd, rest: bytes, cuts: set<nat>)
    requires t.Valid()
  {
    var key := t.lower(c.name);
    key in t.cmds && t.cmds[key].Streaming? ==>
      assert AlwaysOrderly(t.cmds[key]);
      Suited(ConductOf(t.cmds[key], hist, c.name, |c.args|), |c.args|, NOTHING, EncodeBulks(c.args) + rest, 0, 0, cuts)
  }

  // ---------------------------------------------------------------- encoded commands

  lemma {:induction false} EncodeBulksAppend(a: seq<bytes>, b: seq<bytes>)
    ensures EncodeBulks(a + b) == EncodeBulks(a) + EncodeBulks(b)
    decreases |a|
  {
    hide EncodeBulk;
    if a == [] {
      assert a + b == b;
    } else {
      assert (a + b)[1..] == a[1..] + b;
      EncodeBulksAppend(a[1..], b);
    }
  }

  lemma ArgsFit(c: Cmd)
    ensures |EncodeBulks(c.args)| <= |EncodeCmd(c)|
  {
  }

  /** Reading the first `k` arguments of a sent command, and then the others. */
  lemma ArgsRoundTrip(c: Cmd, k: nat, rest: bytes)
    requires Sendable(c) && k <= |c.args|
    ensures ParseBulks(EncodeBulks(c.args) + rest, k) == Done(c.args[..k], EncodeBulks(c.args[k..]) + rest)
    ensures ParseBulks(EncodeBulks(c.args[k..]) + rest, |c.args| - k) == Done(c.args[k..], rest)
  {
    hide EncodeCmd, EncodeBulks, ParseBulks;
    var a, b := c.args[..k], c.args[k..];
    assert c.args == a + b;
    ArgsFit(c);
    EncodeBulksAppend(a, b);
    assert EncodeBulks(c.args) + rest == EncodeBulks(a) + (EncodeBulks(b) + rest);
    BulksRoundTrip(a, EncodeBulks(b) + rest);
    BulksRoundTrip(b, rest);
  }

  /** What the four consumers find at the start of a sent command. */
  lemma ConsumersOfSent(c: Cmd, rest: bytes)
    requires Sendable(c)
    ensures ParseCmd(EncodeCmd(c) + rest) == Done(c, rest)
    ensures ParseSkip(EncodeCmd(c) + rest).Done? && ParseSkip(EncodeCmd(c) + rest).rest == rest
    ensures PeekName(EncodeCmd(c) + rest, 0) == Named(c.name)
    ensures ParseOpen(EncodeCmd(c) + rest) == Done(LazyCommands.Bulks(c.name, |c.args|), EncodeBulks(c.args) + rest)
    ensures !BlankHead(EncodeCmd(c) + rest)
  {
    hide EncodeCmd, ParseCmd, ParseSkip, PeekName, ParseOpen, EncodeBulks;
    var s := EncodeCmd(c) + rest;
    CmdRoundTrip(c, rest);
    OpenOfSent(c, rest);
    SkipAgrees(s);
    assert s[0..] == s;
    PeekAgrees(s, 0);
  }

  lemma OpenOfSent(c: Cmd, rest: bytes)
    requires Sendable(c)
    ensures ParseOpen(EncodeCmd(c) + rest) == Done(LazyCommands.Bulks(c.name, |c.args|), EncodeBulks(c.args) + rest)
    ensures !BlankHead(EncodeCmd(c) + rest) && Head(EncodeCmd(c) + rest) == EncodeCmd(c) + rest
    ensures (EncodeCmd(c) + rest)[0] == STAR
  {
    hide SizeLine, EncodeBulk, ParseBulk, ParseHeader;
    var s, n := EncodeCmd(c) + rest, |c.args| + 1;
    var tail := EncodeBulks(c.args) + rest;
    EncodeBulksLength(c.args);
    EncodeBulkLength(c.name);
    assert s == SizeLine(STAR, n) + (EncodeBulk(c.name) + tail);
    HeaderRoundTrip(STAR, n, InvalidMultiBulkLength, EncodeBulk(c.name) + tail);
    BulkRoundTrip(c.name, tail);
    StartsWithPrefix(STAR, n, EncodeBulk(c.name) + tail);
  }

  /** Whether the stream handler for a command, if it has one, makes a Read on the last byte
      of an argument's trailer when every Read gets all that it asks for. */
  ghost predicate Hits(t: Table, hist: seq<Event>, c: Cmd)
    requires t.Valid()
  {
    !SuitedTo(t, hist, c, [], {})
  }

  /** It does not depend on what comes behind the command. */
  lemma HitsAlone(t: Table, hist: seq<Event>, c: Cmd, rest: bytes)
    requires t.Valid() && Sendable(c)
    ensures SuitedTo(t, hist, c, rest, {}) <==> !Hits(t, hist, c)
  {
    hide Suited, ParseBulks, EncodeBulks, EncodeCmd;
    var key, s, n := t.lower(c.name), EncodeBulks(c.args), |c.args|;
    if key in t.cmds && t.cmds[key].Streaming? {
      assert AlwaysOrderly(t.cmds[key]);
      assert s + [] == s && s[0..] == s;
      ArgsRoundTrip(c, n, []);
      SuitedAlone(ConductOf(t.cmds[key], hist, c.name, n), n, NOTHING, s, rest, 0, 0);
    }
  }
}
