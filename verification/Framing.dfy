/** When the delivery of a whole pipeline is framed, as a condition on the commands and
    on where the chunks end: it can be checked before the first byte is read. */
module Framing {
  import opened Bytes
  import opened Decimal
  import opened Lines
  import opened Tokens
  import opened Quoting
  import opened Syntax
  import opened Delivery
  import opened Readers

  /** A delivery plan for a list of commands: from the start of each to the cut `lows[i]`,
      which lies at or behind its end, there are at most `cap` bytes. */
  datatype Schedule = Schedule(lows: seq<nat>, cuts: set<nat>, cap: nat, seated: bool) {
    function From(k: nat): Schedule
      requires k <= |lows|
    {
      this.(lows := lows[k..])
    }

    function First(): Plan
      requires lows != []
    {
      Plan(cuts, lows[0], seated)
    }
  }

  /** Every header line takes one Read at most. */
  ghost predicate Framed(cmds: seq<Cmd>, sch: Schedule)
    decreases |cmds|
  {
    && |sch.lows| == |cmds|
    && (cmds != [] ==>
          && ClearCmd(EncodeAll(cmds), sch.First())
          && sch.lows[0] in sch.cuts && |EncodeAll(cmds)| - sch.lows[0] <= sch.cap
          && (|cmds| > 1 ==> sch.lows[1] <= sch.lows[0])
          && Framed(cmds[1..], sch.From(1)))
  }

  /** A reader that is about to read these commands, framed. */
  ghost predicate OnPlan(r: Reader, cmds: seq<Cmd>, sch: Schedule)
    reads r
  {
    && r.Valid() && Framed(cmds, sch) && sch.cap <= r.buf.Length
    && OnCuts(r.rd.chunks, sch.cuts) && ((!sch.seated && r.r == r.w) || |r.rd.Rest()| in sch.cuts)
    && (sch.lows != [] ==> sch.lows[0] <= |r.rd.Rest()|)
  }

  /** The plan for the next command makes the delivery smooth, ... */
  lemma PlanIsSmooth(r: Reader, cmds: seq<Cmd>, sch: Schedule)
    requires OnPlan(r, cmds, sch) && cmds != []
    requires r.Unread() == EncodeAll(cmds) && r.plan == sch.First()
    ensures r.Smooth() && ClearCmd(r.Unread(), r.plan)
  {
  }

  /** ... and a reader that is still smooth behind the command is on the plan for the rest. */
  lemma PlanGoesOn(r: Reader, cmds: seq<Cmd>, sch: Schedule)
    requires Framed(cmds, sch) && cmds != [] && sch.cap <= r.buf.Length
    requires r.Smooth() && r.plan == sch.First()
    ensures OnPlan(r, cmds[1..], sch.From(1))
  {
  }

  // ---------------------------------------------------------------- chunks of whole commands

  lemma ClearHeader(prefix: byte, n: nat, rest: bytes, p: Plan)
    requires !IsSpace(prefix) && p.low <= |rest|
    requires NoCut(|rest|, |SizeLine(prefix, n) + rest|, p.cuts)
    ensures ClearLine(SizeLine(prefix, n) + rest, p)
  {
    SplitSizeLine(prefix, n, rest);
  }

  lemma {:induction false} ClearEncodedBulks(ps: seq<bytes>, rest: bytes, p: Plan)
    requires |EncodeBulks(ps)| <= MAX_INT64 && p.low <= |rest|
    requires NoCut(|rest|, |EncodeBulks(ps) + rest|, p.cuts)
    ensures ClearBulks(EncodeBulks(ps) + rest, |ps|, p)
    decreases |ps|
  {
    hide ParseBulk, SizeLine, ClearLine;
    if ps != [] {
      var tail := EncodeBulks(ps[1..]) + rest;
      var body := ps[0] + CRLF + tail;
      assert EncodeBulks(ps) + rest == EncodeBulk(ps[0]) + tail;
      assert EncodeBulk(ps[0]) + tail == SizeLine(DOLLAR, |ps[0]|) + body;
      ClearHeader(DOLLAR, |ps[0]|, body, p);
      BulkRoundTrip(ps[0], tail);
      ClearEncodedBulks(ps[1..], rest, p);
    }
  }

  /** A command that no chunk border falls into is framed. */
  lemma ClearEncodedCmd(c: Cmd, rest: bytes, p: Plan)
    requires Sendable(c) && p.low <= |rest|
    requires NoCut(|rest|, |EncodeCmd(c) + rest|, p.cuts)
    ensures ClearCmd(EncodeCmd(c) + rest, p)
  {
    hide EncodeBulks, SizeLine, ClearLine, ParseHeader;
    var ps := [c.name] + c.args;
    var body := EncodeBulks(ps) + rest;
    EncodeCmdAsBulks(c, rest);
    ClearHeader(STAR, |ps|, body, p);
    HeaderRoundTrip(STAR, |ps|, InvalidMultiBulkLength, body);
    assert body == body[0..];
    assert |body| <= |EncodeCmd(c) + rest|;
    ClearEncodedBulks(ps, rest, p);
    StartsWithPrefix(STAR, |ps|, body);
  }

  lemma StartsWithPrefix(prefix: byte, n: int, rest: bytes)
    ensures (SizeLine(prefix, n) + rest)[0] == prefix
  {
  }

  /** The line can be sent: it opens with no '*', for that would be a multi-bulk. */
  predicate InlineSendable(ws: seq<Word>) {
    && ws != [] && AllOk(ws) && EndsClean(ws) && Meaning(ws[0].text) != []
    && (ws[0].gap == [] && ws[0].text.Unquoted? ==> ws[0].text.chars[0] != STAR)
  }

  /** A line of tokens is read as exactly those tokens, ... */
  lemma InlineLineRoundTrip(ws: seq<Word>, tail: bytes, rest: bytes)
    requires InlineSendable(ws) && IsGap(tail)
    ensures ParseCmd(WriteWords(ws) + tail + CRLF + rest) == Done(Cmd(Texts(ws)[0], Texts(ws)[1..]), rest)
  {
    hide InlineOf, AllWritable;
    InlineRoundTrip(ws, tail);
    InlineLineSplits(ws, tail, rest);
  }

  lemma OpensNoArray(ws: seq<Word>)
    requires InlineSendable(ws)
    ensures WriteWords(ws) != [] && WriteWords(ws)[0] != STAR
  {
    hide AllWritable;
    var gap, t := ws[0].gap, WriteText(ws[0].text);
    assert WordOk(ws[0]);
    assert WriteWords(ws)[0] == if gap != [] then gap[0] else t[0];
  }

  lemma GapNoCR(s: bytes)
    requires IsGap(s)
    ensures CR !in s
  {
  }

  lemma InlineLineSplits(ws: seq<Word>, tail: bytes, rest: bytes)
    requires InlineSendable(ws) && IsGap(tail)
    ensures var s := WriteWords(ws) + tail + CRLF + rest;
      SplitLine(s) == Done(WriteWords(ws) + tail + CRLF, rest) && s[0] != STAR
  {
    hide AllWritable, AllOk, EndsClean, WriteWords, IsGap;
    GapNoCR(tail);
    LastWritten(ws);
    var text := WriteWords(ws) + tail;
    var s := text + CRLF + rest;
    assert CR !in text;
    assert forall k :: 0 <= k < |text| ==> s[k] == text[k] && text[k] in text;
    FindCRUnique(s, |text|);
    assert s[..|text| + 2] == text + CRLF && s[|text| + 2..] == rest;
    OpensNoArray(ws);
    assert s[0] == WriteWords(ws)[0];
  }

  /** ... and framed if no chunk border falls into it. */
  lemma ClearInline(ws: seq<Word>, tail: bytes, rest: bytes, p: Plan)
    requires InlineSendable(ws) && IsGap(tail) && p.low <= |rest|
    requires NoCut(|rest|, |WriteWords(ws) + tail + CRLF + rest|, p.cuts)
    ensures ClearCmd(WriteWords(ws) + tail + CRLF + rest, p)
  {
    hide InlineOf, AllWritable;
    InlineRoundTrip(ws, tail);
    InlineLineSplits(ws, tail, rest);
  }

  /** No chunk ends inside a command at all. */
  ghost predicate Uncut(cmds: seq<Cmd>, sch: Schedule)
    decreases |cmds|
  {
    && |sch.lows| == |cmds|
    && (cmds != [] ==>
          && NoCut(|EncodeAll(cmds[1..])|, |EncodeAll(cmds)|, sch.cuts)
          && sch.lows[0] in sch.cuts && sch.lows[0] <= |EncodeAll(cmds[1..])| && |EncodeAll(cmds)| - sch.lows[0] <= sch.cap
          && (|cmds| > 1 ==> sch.lows[1] <= sch.lows[0])
          && Uncut(cmds[1..], sch.From(1)))
  }

  lemma {:induction false} UncutIsFramed(cmds: seq<Cmd>, sch: Schedule)
    requires Uncut(cmds, sch)
    requires forall i :: 0 <= i < |cmds| ==> Sendable(cmds[i])
    ensures Framed(cmds, sch) && |sch.lows| == |cmds|
    decreases |cmds|
  {
    hide EncodeCmd, ClearCmd;
    if cmds != [] {
      ClearEncodedCmd(cmds[0], EncodeAll(cmds[1..]), sch.First());
      UncutIsFramed(cmds[1..], sch.From(1));
    }
  }

  function Repeat(n: nat, low: nat): seq<nat> { seq(n, i => low) }

  lemma NoCutParts(lo: nat, mid: nat, hi: nat, cuts: set<nat>)
    requires lo <= mid <= hi && NoCut(lo, hi, cuts)
    ensures NoCut(lo, mid, cuts) && NoCut(mid, hi, cuts)
  {
  }

  lemma BatchLengths(b: seq<Cmd>, cmds: seq<Cmd>)
    requires b != []
    ensures |EncodeAll(b + cmds)| == |EncodeAll(b)| + |EncodeAll(cmds)|
    ensures |EncodeAll(b[1..] + cmds)| == |EncodeAll(b[1..])| + |EncodeAll(cmds)|
    ensures |EncodeAll(b[1..])| <= |EncodeAll(b)|
  {
    hide EncodeCmd;
    EncodeAllAppend(b, cmds);
    EncodeAllAppend(b[1..], cmds);
  }

  /** One more batch in front: its commands run up to the cut behind it. */
  lemma {:induction false} UncutBatch(b: seq<Cmd>, cmds: seq<Cmd>, sch: Schedule)
    requires Uncut(cmds, sch)
    requires |EncodeAll(cmds)| in sch.cuts && (sch.lows != [] ==> sch.lows[0] <= |EncodeAll(cmds)|)
    requires |EncodeAll(b)| <= sch.cap
    requires NoCut(|EncodeAll(cmds)|, |EncodeAll(b + cmds)|, sch.cuts)
    ensures Uncut(b + cmds, sch.(lows := Repeat(|b|, |EncodeAll(cmds)|) + sch.lows))
    decreases |b|
  {
    hide EncodeCmd, EncodeAll, NoCut;
    var low := |EncodeAll(cmds)|;
    if b == [] {
      assert b + cmds == cmds && Repeat(0, low) + sch.lows == sch.lows;
    } else {
      var rest := b[1..] + cmds;
      var ls := Repeat(|b|, low) + sch.lows;
      assert (b + cmds)[1..] == rest;
      assert ls[1..] == Repeat(|b| - 1, low) + sch.lows;
      BatchLengths(b, cmds);
      NoCutParts(low, |EncodeAll(rest)|, |EncodeAll(b + cmds)|, sch.cuts);
      UncutBatch(b[1..], cmds, sch);
    }
  }

  function Join(batches: seq<seq<Cmd>>): seq<Cmd> {
    if batches == [] then [] else batches[0] + Join(batches[1..])
  }

  /** Every batch is sent as one chunk. */
  function Chunks(batches: seq<seq<Cmd>>): (chunks: seq<bytes>)
    ensures |chunks| == |batches|
  {
    if batches == [] then [] else [EncodeAll(batches[0])] + Chunks(batches[1..])
  }

  lemma {:induction false} ChunksFlatten(batches: seq<seq<Cmd>>)
    ensures Flatten(Chunks(batches)) == EncodeAll(Join(batches))
    decreases |batches|
  {
    if batches != [] {
      ChunksFlatten(batches[1..]);
      EncodeAllAppend(batches[0], Join(batches[1..]));
      assert Chunks(batches)[1..] == Chunks(batches[1..]);
    }
  }

  /** A client that sends whole commands, each write at most as long as the reader's
      buffer and delivered as it was written, is framed. */
  lemma {:induction false} BatchesUncut(batches: seq<seq<Cmd>>, extra: set<nat>, cap: nat, seated: bool)
    returns (sch: Schedule)
    requires forall j :: 0 <= j < |batches| ==> |EncodeAll(batches[j])| <= cap
    requires forall e :: e in extra ==> e >= |Flatten(Chunks(batches))|
    ensures Uncut(Join(batches), sch) && OnCuts(Chunks(batches), sch.cuts)
    ensures sch.cap == cap && sch.seated == seated
    ensures |Flatten(Chunks(batches))| in sch.cuts && extra <= sch.cuts
    ensures forall c :: c in sch.cuts && c > |Flatten(Chunks(batches))| ==> c in extra
    ensures sch.lows != [] ==> sch.lows[0] <= |Flatten(Chunks(batches))|
    decreases |batches|
  {
    hide EncodeCmd, EncodeAll;
    var all := |Flatten(Chunks(batches))|;
    if batches == [] {
      sch := Schedule([], extra + {all}, cap, seated);
    } else {
      var tail := batches[1..];
      assert Chunks(batches)[1..] == Chunks(tail);
      ChunksFlatten(batches);
      ChunksFlatten(tail);
      sch := BatchesUncut(tail, extra + {all}, cap, seated);
      UncutBatch(batches[0], Join(tail), sch);
      sch := sch.(lows := Repeat(|batches[0]|, |EncodeAll(Join(tail))|) + sch.lows);
    }
  }
}
