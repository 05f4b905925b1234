/** Inputs on which the code does not do what one might expect, one for each condition that
    the other modules prove exact. */
module Witnesses {
  import opened Bytes
  import opened Decimal
  import opened Lines
  import opened Tokens
  import opened Quoting
  import opened Syntax
  import opened Delivery
  import opened Readers
  import opened Bulks
  import opened LazyCommands
  import opened Framing
  import opened Pipelines
  import Handlers

  /** A blank line in front of any command: skipping stops behind the blank line, peeking
      names nothing, and a command stream that is opened there offers no arguments (see
      `Conducts.ReadLazily`), while reading gets the command. */
  lemma BlankLineFirst(c: Cmd, rest: bytes)
    requires Sendable(c)
    ensures var sent := EncodeCmd(c) + rest;
      && ParseCmd(CRLF + sent) == Done(c, rest)
      && ParseSkip(CRLF + sent) == Done((), sent) && sent != rest
      && PeekName(CRLF + sent, 0) == Named([])
      && BlankHead(CRLF + sent) && ParseOpen(CRLF + sent) == Done(LazyCommands.Bulks(c.name, |c.args|), EncodeBulks(c.args) + rest)
  {
    hide EncodeCmd, EncodeBulks;
    var sent := EncodeCmd(c) + rest;
    Handlers.ConsumersOfSent(c, rest);
    FindCRUnique(CRLF + sent, 0);
    assert (CRLF + sent)[..2] == CRLF && (CRLF + sent)[2..] == sent;
    assert (CRLF + sent)[0..] == CRLF + sent;
    assert Trimmed(CRLF) == [];
    SentIsLonger(c, rest);
  }

  lemma SentIsLonger(c: Cmd, rest: bytes)
    ensures |EncodeCmd(c) + rest| > |rest|
  {
  }

  /** "a" in quotes: reading gives a, peeking gives it with the quotes. */
  lemma QuotedName()
    ensures var line := [QUOTE, 97, QUOTE] + CRLF;
      ParseCmd(line) == Done(Cmd([97], []), []) && PeekName(line, 0) == Named([QUOTE, 97, QUOTE])
  {
    var qs := [Quoted(97, Raw)];
    var w := Word([], Quotes(qs));
    assert qs[1..] == [] && WriteAll(qs) == WriteOne(qs[0]) + WriteAll([]) && Quoting.Plain(qs) == [97] + Quoting.Plain([]);
    assert WriteText(w.text) == [QUOTE, 97, QUOTE] && Meaning(w.text) == [97];
    assert WriteWords([w]) == [QUOTE, 97, QUOTE] by { assert [w][1..] == []; }
    assert Texts([w]) == [[97]] + Texts([]) == [[97]];
    assert AllWritable(qs, [QUOTE]) by { assert AllWritable(qs[1..], [QUOTE]); }
    assert AllOk([w]) && EndsClean([w]);
    InlineLineRoundTrip([w], [], []);
    assert WriteWords([w]) + [] + CRLF + [] == [QUOTE, 97, QUOTE] + CRLF;
    PlainAhead();
  }

  lemma PlainAhead()
    ensures PeekName([QUOTE, 97, QUOTE] + CRLF, 0) == Named([QUOTE, 97, QUOTE])
  {
    var line := [QUOTE, 97, QUOTE] + CRLF;
    FindCRUnique(line, 3);
    assert line[0..] == line && line[..5] == line;
    TrimmedUnique(line, [QUOTE, 97, QUOTE]);
    assert WordStart([QUOTE, 97, QUOTE], 0) == 0 && WordEnd([QUOTE, 97, QUOTE], 0) == 3;
  }

  lemma OneRead(chunk: bytes, more: seq<bytes>, k: nat)
    requires 0 < |chunk| <= k && NoneEmpty(more)
    ensures Source([chunk] + more, EOF).Valid()
    ensures Read(Source([chunk] + more, EOF), k) == ReadResult(chunk, Source(more, EOF), None)
  {
    assert ([chunk] + more)[1..] == more;
  }

  /** A chunk that ends with the CR of a header. */
  method TornHeader() returns (res: Result<bytes>)
    ensures res == Err(Torn)
  {
    var head: bytes := [STAR, 49, CR];
    hide SplitLine, LineIn, FindCR, ClearLine, OnCuts, Read;
    OneRead(head, [[LF]], 16);
    var r := new Reader(16, Source([head] + [[LF]], EOF));
    LineEndsTorn(head);
    NoCR([]);
    assert r.Window()[0..] == [] && [] + head == head;
    res := r.PeekLine(0);
  }

  lemma LineEndsTorn(s: bytes)
    requires s != [] && s[|s| - 1] == CR && CR !in s[..|s| - 1]
    ensures LineIn(s) == Err(Torn)
  {
    assert forall k :: 0 <= k < |s| - 1 ==> s[k] == s[..|s| - 1][k];
    FindCRUnique(s, |s| - 1);
  }

  /** A header in two chunks, for a reader that has to fetch both. */
  method LateHeader() returns (res: Result<bytes>)
    ensures res == Err(TooLong)
  {
    var head: bytes := [STAR, 49];
    hide SplitLine, LineIn, FindCR, ClearLine, OnCuts, Read;
    OneRead(head, [[CR, LF]], 16);
    var r := new Reader(16, Source([head] + [[CR, LF]], EOF));
    NoCR(head);
    NoCR([]);
    assert r.Window()[0..] == [] && [] + head == head;
    res := r.PeekLine(0);
  }

  lemma NoCR(s: bytes)
    requires CR !in s
    ensures LineIn(s) == Err(TooLong)
  {
  }

  /** Reading the 511 bytes of a buffered argument with a 512-byte buffer. */
  method UnreadableArgument(payload: bytes) returns (res: Result<bytes>)
    requires |payload| == 511
    ensures res == Err(Split)
  {
    var bulk := payload + CRLF;
    var r := new Reader(1024, Source([bulk], EOF));
    assert bulk + Flatten([bulk][1..]) == bulk;
    var err := r.Require(|bulk|);
    var b := new BulkReader(r, |bulk|);
    SplitAt511();
    OneSize(513, 512, (j: nat) => 512, 0);
    res := Drain(b, (j: nat) => 512);
  }

  /** A command longer than the buffer can be torn though all of it arrives in one chunk:
      here it is the end of the buffer that falls behind the CR of its second header. */
  method TornByBuffer() returns (res: Result<bytes>)
    ensures res == Err(Torn)
  {
    var head: bytes := [STAR, 49, CR, LF, DOLLAR, 49, CR];
    var tail: bytes := [LF, 120, CR, LF];
    assert Read(Source([head + tail], EOF), 7).data == head by { assert (head + tail)[..7] == head; }
    var r := new Reader(7, Source([head + tail], EOF));
    var err := r.Fill();
    assert r.Window() == head && head[4..] == [DOLLAR, 49, CR];
    LineEndsTorn(head[4..]);
    res := r.PeekLine(4);
  }

  /** On the other side, a chunk may well end inside a header: here behind the '$' of the
      name, which the next chunk completes. A reader that takes whole chunks reads on. */
  lemma HeaderInTwoChunks(c: Cmd, a: bytes, b: bytes)
    requires Sendable(c)
    requires a == SizeLine(STAR, |c.args| + 1) + [DOLLAR] && a + b == EncodeCmd(c)
    ensures DeliversFramed([a, b], [c], Schedule([0], {|a + b|, |b|, 0}, |a + b|, true), |a + b|)
  {
    hide EncodeBulks, EncodeCmd, ClearCmd, SizeLine;
    var sch := Schedule([0], {|a + b|, |b|, 0}, |a + b|, true);
    SecondChunk(c, a, b);
    TwoChunks(a, b, sch.cuts);
    assert EncodeAll([c]) == EncodeCmd(c) by { assert [c][1..] == [] && EncodeCmd(c) + [] == EncodeCmd(c); }
    ClearAcross(c, a, b, sch.First());
    assert [c][1..] == [] && sch.From(1).lows == [];
    assert Framed([], sch.From(1));
    assert Framed([c], sch);
  }

  lemma SecondChunk(c: Cmd, a: bytes, b: bytes)
    requires a == SizeLine(STAR, |c.args| + 1) + [DOLLAR] && a + b == EncodeCmd(c)
    ensures b != []
  {
    EncodeBulkLength(c.name);
    assert |a + b| >= |SizeLine(STAR, |c.args| + 1)| + 6;
  }

  lemma TwoChunks(a: bytes, b: bytes, cuts: set<nat>)
    requires a != [] && b != [] && cuts == {|a + b|, |b|, 0}
    ensures Flatten([a, b]) == a + b && OnCuts([a, b], cuts)
  {
    assert [a, b][1..] == [b] && [b][1..] == [] && b + [] == b;
    assert Flatten([b]) == b + Flatten([]) == b;
  }

  lemma ClearAcross(c: Cmd, a: bytes, b: bytes, p: Plan)
    requires Sendable(c) && a == SizeLine(STAR, |c.args| + 1) + [DOLLAR] && a + b == EncodeCmd(c)
    requires p == Plan({|a + b|, |b|, 0}, 0, true)
    ensures ClearCmd(EncodeCmd(c), p)
  {
    hide EncodeBulks, EncodeBulk, SizeLine, ClearLine, ParseHeader, ParseBulk;
    var n, tail := |c.args| + 1, EncodeBulks(c.args);
    var body := EncodeBulk(c.name) + tail;
    assert a + b == SizeLine(STAR, n) + body;
    assert |b| == |body| - 1;
    EncodeBulksLength(c.args);
    EncodeBulkLength(c.name);
    StartsWithPrefix(STAR, n, body);
    HeaderRoundTrip(STAR, n, InvalidMultiBulkLength, body);
    FirstLineAcross(n, body, p);
    NameAcross(c.name, tail, p);
    assert tail + [] == tail;
    ClearEncodedBulks(c.args, [], p);
  }

  lemma FirstLineAcross(n: nat, body: bytes, p: Plan)
    requires body != [] && p == Plan({|SizeLine(STAR, n) + body|, |body| - 1, 0}, 0, true)
    ensures ClearLine(SizeLine(STAR, n) + body, p)
  {
    SplitSizeLine(STAR, n, body);
  }

  lemma NameAcross(name: bytes, tail: bytes, p: Plan)
    requires |name| + 2 <= MAX_INT64
    requires p.low == 0 && p.seated
    requires forall k :: k in p.cuts ==> k > |EncodeBulk(name) + tail| || k == |EncodeBulk(name) + tail| - 1 || k == 0
    ensures ClearBulk(EncodeBulk(name) + tail, p) && ParseBulk(EncodeBulk(name) + tail) == Done(name, tail)
  {
    var body := name + CRLF + tail;
    assert EncodeBulk(name) + tail == SizeLine(DOLLAR, |name|) + body;
    SplitSizeLine(DOLLAR, |name|, body);
    BulkRoundTrip(name, tail);
  }
}
