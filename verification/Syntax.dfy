/** What the request parsers mean, as functions of the unread byte stream alone: no
    buffer, no reads. The classes of the other modules are proved to agree with these. */
module Syntax {
  import opened Bytes
  import opened Decimal
  import opened Lines
  import opened Tokens

  /** A parse of the front of a stream: a value and what is left, too few bytes, or an error. */
  datatype Parsed<+T> = Done(value: T, rest: bytes) | Incomplete | Bad(error: Error)

  /** The index of the first CR, or the length. */
  function FindCR(s: bytes): (i: nat)
    ensures i <= |s|
    ensures forall k :: 0 <= k < i ==> s[k] != CR
    ensures i < |s| ==> s[i] == CR
  {
    if s == [] || s[0] == CR then 0 else 1 + FindCR(s[1..])
  }

  /** The bytes through the first CR and the one byte after it. */
  function SplitLine(s: bytes): (p: Parsed<bytes>)
    ensures p.Done? ==> |p.value| >= 2 && s == p.value + p.rest
    ensures !p.Bad?
  {
    var i := FindCR(s);
    if i + 1 < |s| then Done(s[..i + 2], s[i + 2..]) else Incomplete
  }

  function ParseHeader(s: bytes, prefix: byte, fallback: ProtocolError): (p: Parsed<nat>)
    ensures p.Done? ==> |p.rest| < |s| && p.value <= MAX_INT64
  {
    match SplitLine(s)
    case Incomplete => Incomplete
    case Bad(e) => Bad(e)
    case Done(line, rest) =>
      match SizeOf(line, prefix, fallback)
      case Err(e) => Bad(e)
      case Ok(n) => Done(n, rest)
  }

  /** ReadInt. */
  function ParseInteger(s: bytes): (p: Parsed<int>)
    ensures p.Done? ==> |p.rest| < |s|
  {
    match SplitLine(s)
    case Incomplete => Incomplete
    case Bad(e) => Bad(e)
    case Done(line, rest) =>
      match IntOf(line)
      case Err(e) => Bad(e)
      case Ok(n) => Done(n, rest)
  }

  /** ReadError and ReadInlineString. */
  function ParseText(s: bytes, prefix: byte): (p: Parsed<bytes>)
    ensures p.Done? ==> |p.rest| < |s|
  {
    match SplitLine(s)
    case Incomplete => Incomplete
    case Bad(e) => Bad(e)
    case Done(line, rest) =>
      match MessageOf(line, prefix)
      case Err(e) => Bad(e)
      case Ok(text) => Done(text, rest)
  }

  /** ReadNil. */
  function ParseNil(s: bytes): (p: Parsed<()>)
    ensures p.Done? ==> |p.rest| < |s|
  {
    match SplitLine(s)
    case Incomplete => Incomplete
    case Bad(e) => Bad(e)
    case Done(line, rest) =>
      if [DOLLAR, MINUS, 49] <= line then Done((), rest) else Bad(Protocol(NotANil))
  }

  datatype ReplyType = UnknownReply | ArrayReply | BulkReply | InlineReply | ErrorReply | IntReply | NilReply

  /** PeekType: decided by one byte, by two for '$'. */
  function TypeOf(s: bytes): Option<ReplyType> {
    if s == [] then None
    else if s[0] == STAR then Some(ArrayReply)
    else if s[0] == DOLLAR then
      if |s| < 2 then None else Some(if s[1] == MINUS then NilReply else BulkReply)
    else if s[0] == PLUS then Some(InlineReply)
    else if s[0] == MINUS then Some(ErrorReply)
    else if s[0] == COLON then Some(IntReply)
    else Some(UnknownReply)
  }

  function ParseBulk(s: bytes): (p: Parsed<bytes>)
    ensures p.Done? ==> |p.rest| < |s|
  {
    match ParseHeader(s, DOLLAR, InvalidBulkLength)
    case Incomplete => Incomplete
    case Bad(e) => Bad(e)
    case Done(n, rest) =>
      if n + 2 > MAX_INT64 then Bad(Overflow)
      else if |rest| < n + 2 then Incomplete
      else Done(rest[..n], rest[n + 2..])
  }

  function ParseBulks(s: bytes, k: nat): (p: Parsed<seq<bytes>>)
    ensures p.Done? ==> |p.rest| <= |s| && |p.value| == k
    decreases k
  {
    if k == 0 then Done([], s)
    else
      match ParseBulk(s)
      case Incomplete => Incomplete
      case Bad(e) => Bad(e)
      case Done(b, rest) =>
        match ParseBulks(rest, k - 1)
        case Incomplete => Incomplete
        case Bad(e) => Bad(e)
        case Done(bs, rest') => Done([b] + bs, rest')
  }

  /** readCommand with readMultiBulk and readInline: the next command, behind any
      number of empty multi-bulks and blank lines. */
  function ParseCmd(s: bytes): (p: Parsed<Cmd>)
    ensures p.Done? ==> |p.rest| < |s|
    decreases |s|
  {
    if s == [] then Incomplete
    else if s[0] == STAR then
      match ParseHeader(s, STAR, InvalidMultiBulkLength)
      case Incomplete => Incomplete
      case Bad(e) => Bad(e)
      case Done(n, rest) =>
        if n < 1 then ParseCmd(rest)
        else
          match ParseBulks(rest, n)
          case Incomplete => Incomplete
          case Bad(e) => Bad(e)
          case Done(bs, rest') => Done(Cmd(bs[0], bs[1..]), rest')
    else
      match SplitLine(s)
      case Incomplete => Incomplete
      case Bad(e) => Bad(e)
      case Done(line, rest) =>
        match InlineOf(line)
        case None => ParseCmd(rest)
        case Some(cmd) => Done(cmd, rest)
  }

  /** How ParseCmd treats a multi-bulk, in the order in which readCommand works. */
  lemma ParseCmdInline(s: bytes)
    requires s != [] && s[0] != STAR
    ensures var line := SplitLine(s);
      match line
      case Incomplete => ParseCmd(s).Incomplete?
      case Bad(e) => ParseCmd(s) == Bad(e)
      case Done(ln, rest) => ParseCmd(s) == if InlineOf(ln).None? then ParseCmd(rest) else Done(InlineOf(ln).value, rest)
  {
  }

  lemma ParseCmdMultiBulk(s: bytes)
    requires s != [] && s[0] == STAR
    ensures var h := ParseHeader(s, STAR, InvalidMultiBulkLength);
      match h
      case Incomplete => ParseCmd(s).Incomplete?
      case Bad(e) => ParseCmd(s) == Bad(e)
      case Done(n, rest) =>
        if n < 1 then ParseCmd(s) == ParseCmd(rest)
        else
          match ParseBulk(rest)
          case Incomplete => ParseCmd(s).Incomplete?
          case Bad(e) => ParseCmd(s) == Bad(e)
          case Done(name, u) =>
            match ParseBulks(u, n - 1)
            case Incomplete => ParseCmd(s).Incomplete?
            case Bad(e) => ParseCmd(s) == Bad(e)
            case Done(args, v) => ParseCmd(s) == Done(Cmd(name, args), v)
  {
    hide ParseHeader, ParseBulk;
  }

  /** SkipCmd: the same progress without the values. */
  function ParseSkip(s: bytes): (p: Parsed<()>)
    ensures p.Done? ==> |p.rest| < |s|
    decreases |s|
  {
    if s == [] then Incomplete
    else if s[0] != STAR then
      match SplitLine(s)
      case Incomplete => Incomplete
      case Bad(e) => Bad(e)
      case Done(_, rest) => Done((), rest)
    else
      match ParseHeader(s, STAR, InvalidMultiBulkLength)
      case Incomplete => Incomplete
      case Bad(e) => Bad(e)
      case Done(n, rest) =>
        if n < 1 then ParseSkip(rest)
        else
          match ParseBulks(rest, n)
          case Incomplete => Incomplete
          case Bad(e) => Bad(e)
          case Done(_, rest') => Done((), rest')
  }

  datatype Peeked = Named(name: bytes) | Unseen | Refused(error: Error)

  /** peekCmd at offset `at` of the stream. */
  function PeekName(s: bytes, at: nat): Peeked
    requires at <= |s|
    decreases |s| - at
  {
    match SplitLine(s[at..])
    case Incomplete => Unseen
    case Bad(e) => Refused(e)
    case Done(line, _) =>
      if line[0] != STAR then Named(FirstWordOf(line))
      else
        match SizeOf(line, STAR, InvalidMultiBulkLength)
        case Err(e) => Refused(e)
        case Ok(n) =>
          if n < 1 then PeekName(s, at + |line|) else PeekBulk(s, at + |line|)
  }

  lemma PeekNameAt(s: bytes, at: nat)
    requires at <= |s|
    ensures var p, l := PeekName(s, at), SplitLine(s[at..]);
      match l
      case Incomplete => p.Unseen?
      case Bad(e) => p == Refused(e)
      case Done(line, _) =>
        if line[0] != STAR then p == Named(FirstWordOf(line))
        else
          var n := SizeOf(line, STAR, InvalidMultiBulkLength);
          if n.Err? then p == Refused(n.error)
          else if n.value < 1 then p == PeekName(s, at + |line|)
          else p == PeekBulk(s, at + |line|)
  {
    hide SizeOf, FirstWordOf;
  }

  /** The payload of the bulk at offset `at`, its trailer not looked at. */
  function PeekBulk(s: bytes, at: nat): Peeked
    requires at <= |s|
  {
    match SplitLine(s[at..])
    case Incomplete => Unseen
    case Bad(e) => Refused(e)
    case Done(line, rest) =>
      match SizeOf(line, DOLLAR, InvalidBulkLength)
      case Err(e) => Refused(e)
      case Ok(n) =>
        if at + |line| + n > MAX_INT64 then Refused(Overflow)
        else if |rest| < n then Unseen
        else Named(rest[..n])
  }

  // ---------------------------------------------------------------- writing

  function EncodeBulk(p: bytes): bytes {
    SizeLine(DOLLAR, |p|) + p + CRLF
  }

  const ERR: bytes := [69, 82, 82, 32]
  const NIL: bytes := [DOLLAR, MINUS, 49, CR, LF]

  /** AppendInline and AppendError. */
  function EncodeText(prefix: byte, text: bytes): bytes {
    [prefix] + text + CRLF
  }

  function EncodeBulks(ps: seq<bytes>): bytes {
    if ps == [] then [] else EncodeBulk(ps[0]) + EncodeBulks(ps[1..])
  }

  /** WriteCmd. */
  function EncodeCmd(c: Cmd): bytes {
    SizeLine(STAR, |c.args| + 1) + EncodeBulk(c.name) + EncodeBulks(c.args)
  }

  function EncodeAll(cs: seq<Cmd>): bytes {
    if cs == [] then [] else EncodeCmd(cs[0]) + EncodeAll(cs[1..])
  }

  /** A command whose encoding has a length that fits an int, as every Go value has. */
  predicate Sendable(c: Cmd) {
    |EncodeCmd(c)| <= MAX_INT64
  }

  lemma FindCRUnique(s: bytes, i: nat)
    requires i < |s| && s[i] == CR
    requires forall k :: 0 <= k < i ==> s[k] != CR
    ensures FindCR(s) == i
  {
    if FindCR(s) < i { assert false; }
    if i < FindCR(s) { assert false; }
  }

  lemma SplitSizeLine(prefix: byte, n: int, rest: bytes)
    requires prefix != CR
    ensures SplitLine(SizeLine(prefix, n) + rest) == Done(SizeLine(prefix, n), rest)
  {
    var s := SizeLine(prefix, n) + rest;
    var i := 1 + |FormatInt(n)|;
    forall k | 0 <= k < i ensures s[k] != CR {
      if k > 0 { assert s[k] == FormatInt(n)[k - 1]; }
    }
    FindCRUnique(s, i);
    assert s[..i + 2] == SizeLine(prefix, n) && s[i + 2..] == rest;
  }

  lemma HeaderRoundTrip(prefix: byte, n: nat, fallback: ProtocolError, rest: bytes)
    requires !IsSpace(prefix)
    requires n <= MAX_INT64
    ensures ParseHeader(SizeLine(prefix, n) + rest, prefix, fallback) == Done(n, rest)
  {
    SplitSizeLine(prefix, n, rest);
    SizeRoundTrip(prefix, n, fallback);
  }

  lemma BulkRoundTrip(p: bytes, rest: bytes)
    requires |p| + 2 <= MAX_INT64
    ensures ParseBulk(EncodeBulk(p) + rest) == Done(p, rest)
  {
    var tail := p + CRLF + rest;
    assert EncodeBulk(p) + rest == SizeLine(DOLLAR, |p|) + tail;
    HeaderRoundTrip(DOLLAR, |p|, InvalidBulkLength, tail);
    assert tail[..|p|] == p && tail[|p| + 2..] == rest;
  }

  lemma EncodeBulkLength(p: bytes)
    ensures |p| + 6 <= |EncodeBulk(p)|
  {
  }

  lemma {:induction false} BulksRoundTrip(ps: seq<bytes>, rest: bytes)
    requires |EncodeBulks(ps)| <= MAX_INT64
    ensures ParseBulks(EncodeBulks(ps) + rest, |ps|) == Done(ps, rest)
    decreases |ps|
  {
    hide EncodeBulk, ParseBulk;
    if ps == [] {
      assert EncodeBulks(ps) + rest == rest;
    } else {
      var tail := EncodeBulks(ps[1..]) + rest;
      assert EncodeBulks(ps) + rest == EncodeBulk(ps[0]) + tail;
      EncodeBulkLength(ps[0]);
      BulkRoundTrip(ps[0], tail);
      BulksRoundTrip(ps[1..], rest);
      assert [ps[0]] + ps[1..] == ps;
    }
  }

  /** Each argument byte string counts for at least as many bytes on the wire, so a
      sendable command has an argument count that fits an int64 too. */
  lemma {:induction false} EncodeBulksLength(ps: seq<bytes>)
    ensures |ps| <= |EncodeBulks(ps)|
    decreases |ps|
  {
    if ps != [] { EncodeBulksLength(ps[1..]); }
  }

  lemma EncodeCmdAsBulks(c: Cmd, rest: bytes)
    ensures EncodeCmd(c) + rest == SizeLine(STAR, |c.args| + 1) + (EncodeBulks([c.name] + c.args) + rest)
    ensures |EncodeBulks([c.name] + c.args)| <= |EncodeCmd(c)|
    ensures |c.args| + 1 <= |EncodeCmd(c)|
  {
    var ps := [c.name] + c.args;
    assert ps[1..] == c.args;
    EncodeBulksLength(ps);
  }

  /** ReadCmd's parser inverts WriteCmd for arbitrary byte strings, CR and LF included. */
  lemma CmdRoundTrip(c: Cmd, rest: bytes)
    requires Sendable(c)
    ensures ParseCmd(EncodeCmd(c) + rest) == Done(c, rest)
  {
    var ps := [c.name] + c.args;
    EncodeCmdAsBulks(c, rest);
    HeaderRoundTrip(STAR, |ps|, InvalidMultiBulkLength, EncodeBulks(ps) + rest);
    BulksRoundTrip(ps, rest);
    assert (EncodeCmd(c) + rest)[0] == STAR;
    assert ps[1..] == c.args;
  }

  /** Repeated reading until the stream ends or refuses. */
  function ParseAll(s: bytes): (r: (seq<Cmd>, bytes))
    decreases |s|
  {
    match ParseCmd(s)
    case Done(c, rest) => var (cs, left) := ParseAll(rest); ([c] + cs, left)
    case _ => ([], s)
  }

  lemma {:induction false} RequestRoundTrip(cs: seq<Cmd>)
    requires forall i :: 0 <= i < |cs| ==> Sendable(cs[i])
    ensures ParseAll(EncodeAll(cs)) == (cs, [])
    decreases |cs|
  {
    if cs != [] {
      var s, rest := EncodeAll(cs), EncodeAll(cs[1..]);
      assert ParseCmd(s) == Done(cs[0], rest) by { CmdRoundTrip(cs[0], rest); }
      assert ParseAll(rest) == (cs[1..], []) by { RequestRoundTrip(cs[1..]); }
      assert [cs[0]] + cs[1..] == cs;
    }
  }

  lemma {:induction false} EncodeAllAppend(a: seq<Cmd>, b: seq<Cmd>)
    ensures EncodeAll(a + b) == EncodeAll(a) + EncodeAll(b)
    decreases |a|
  {
    if a == [] {
      assert a + b == b;
    } else {
      assert (a + b)[1..] == a[1..] + b;
      EncodeAllAppend(a[1..], b);
    }
  }

  // ---------------------------------------------------------------- consumers agree

  /** The stream from its first line that is not an empty multi-bulk. */
  function Head(s: bytes): (h: bytes)
    ensures |h| <= |s|
    decreases |s|
  {
    if s != [] && s[0] == STAR then
      match ParseHeader(s, STAR, InvalidMultiBulkLength)
      case Done(n, rest) => if n < 1 then Head(rest) else s
      case _ => s
    else s
  }

  /** The first such line is a complete inline line whose first token is empty. */
  predicate BlankHead(s: bytes) {
    var h := Head(s);
    h != [] && h[0] != STAR && SplitLine(h).Done? && InlineOf(SplitLine(h).value).None?
  }

  predicate SameProgress<T, U>(p: Parsed<T>, q: Parsed<U>) {
    match p
    case Done(_, rest) => q.Done? && q.rest == rest
    case Incomplete => q.Incomplete?
    case Bad(e) => q == Bad(e)
  }

  /** Skipping a command makes exactly the progress that reading it makes, errors
      included, unless a blank inline line comes first; and then it never does. */
  lemma {:induction false} SkipAgrees(s: bytes)
    ensures !BlankHead(s) ==> SameProgress(ParseCmd(s), ParseSkip(s))
    ensures BlankHead(s) ==> ParseSkip(s).Done?
    ensures BlankHead(s) && ParseCmd(s).Done? ==> |ParseCmd(s).rest| < |ParseSkip(s).rest|
    decreases |s|
  {
    if s != [] && s[0] == STAR {
      match ParseHeader(s, STAR, InvalidMultiBulkLength)
      case Done(n, rest) => if n < 1 { SkipAgrees(rest); }
      case _ =>
    }
  }

  /** Where peeking at an inline line sees the token that reading it yields: the first
      word has no quote in it and is not ended by VT or FF. */
  predicate PlainWord(line: bytes) {
    var d := Trimmed(line);
    var i := WordStart(d, 0);
    var j := WordEnd(d, i);
    (forall k :: i <= k < j ==> d[k] != QUOTE && d[k] != APOS)
    && (j < |d| ==> d[j] != 11 && d[j] != 12)
  }

  predicate HasSpaceFrom(t: bytes, i: nat) {
    exists k :: i <= k < |t| && IsSpace(t[k])
  }

  /** Inside quotes a token that does not reach past the first `m` bytes is no longer
      than they are; one that does has picked up the white space behind them. */
  lemma {:induction false} QuotedScanShort(dst: bytes, t: bytes, m: nat, mode: Mode)
    requires !mode.Bare?
    requires m <= |t|
    requires forall i :: 0 <= i < m ==> !IsSpace(t[i])
    requires m < |t| ==> IsSpace(t[m])
    ensures |Scan(dst, t, mode).token| <= |dst| + m || HasSpaceFrom(Scan(dst, t, mode).token, |dst|)
    decreases |t|
  {
    if t != [] {
      var turn := Turn(dst, t, mode);
      if turn.Go? {
        var r := Scan(turn.token, t[turn.used..], turn.mode).token;
        if turn.used <= m {
          QuotedScanShort(turn.token, t[turn.used..], m - turn.used, turn.mode);
        } else {
          assert IsSpace(turn.token[|dst|]) && r[|dst|] == turn.token[|dst|];
        }
      }
    }
  }

  /** `s` is a rest of line that opens with the word of its first `n` bytes. */
  predicate OpensWith(s: bytes, n: nat) {
    0 < n <= |s| && (forall k :: 0 <= k < n ==> !IsSpace(s[k])) && (n < |s| ==> IsSpace(s[n]))
  }

  lemma BareStop(dst: bytes, s: bytes)
    requires s != [] ==> IsSpace(s[0])
    ensures Scan(dst, s, Bare).token == dst <==> (s != [] ==> s[0] != 11 && s[0] != 12)
  {
    if s != [] && (s[0] == 11 || s[0] == 12) {
      assert Turn(dst, s, Bare) == Go(dst + [s[0]], 1, Bare);
      assert |Scan(dst, s, Bare).token| > |dst|;
    }
  }

  lemma UnquotedToken(s: bytes, n: nat)
    requires OpensWith(s, n) && FirstQuote(s[..n]) == n
    ensures Scan([], s, Bare).token == s[..n] <==> (n < |s| ==> s[n] != 11 && s[n] != 12)
  {
    hide FirstQuote;
    var fw, tail := s[..n], s[n..];
    assert forall i :: 0 <= i < n ==> fw[i] == s[i];
    assert Scan([], s, Bare) == Advance(n, Scan(fw, tail, Bare)) by {
      assert s == fw + tail && [] + fw == fw;
      BareScan([], fw, tail);
    }
    hide Scan;
    BareStop(fw, tail);
  }

  lemma QuotedToken(s: bytes, n: nat)
    requires OpensWith(s, n) && FirstQuote(s[..n]) < n
    ensures Scan([], s, Bare).token != s[..n]
  {
    var q := FirstQuote(s[..n]);
    hide FirstQuote;
    if q == 0 {
      var mode := if s[0] == QUOTE then InQuotes else InApostrophes;
      assert Turn([], s, Bare) == Go([], 1, mode);
      QuotedScanShort([], s[1..], n - 1, mode);
      assert !HasSpaceFrom(s[..n], 0);
    } else {
      assert forall i :: 0 <= i < q ==> s[..n][i] == s[i];
      assert s == s[..q] + s[q..] && [] + s[..q] == s[..q];
      BareScan([], s[..q], s[q..]);
      assert Turn(s[..q], s[q..], Bare) == Stop(0);
    }
  }

  lemma FirstWordAgrees(line: bytes)
    ensures FirstWordOf(line) == Argument([], Trimmed(line)).token <==> PlainWord(line)
  {
    hide Trimmed, WordStart, WordEnd, Scan, FirstQuote;
    var d := Trimmed(line);
    var i := WordStart(d, 0);
    var j := WordEnd(d, i);
    if i < |d| {
      var s, n := d[i..], j - i;
      assert d[i..j] == s[..n];
      assert forall k :: 0 <= k < n ==> s[k] == d[i + k];
      assert j < |d| ==> s[n] == d[j];
      if FirstQuote(s[..n]) == n {
        UnquotedToken(s, n);
        assert forall k :: i <= k < j ==> d[k] == s[..n][k - i];
      } else {
        QuotedToken(s, n);
        assert d[i + FirstQuote(s[..n])] in {QUOTE, APOS};
      }
    }
  }

  function FirstQuote(s: bytes): (q: nat)
    ensures q <= |s|
    ensures forall k :: 0 <= k < q ==> s[k] != QUOTE && s[k] != APOS
    ensures q < |s| ==> s[q] == QUOTE || s[q] == APOS
  {
    if s == [] || s[0] == QUOTE || s[0] == APOS then 0 else 1 + FirstQuote(s[1..])
  }

  /** The condition under which PeekCmd names the command that ReadCmd reads next. Behind
      a blank line it can do so by accident only. */
  predicate PeekFaithful(s: bytes) {
    var h := Head(s);
    ParseCmd(s).Done? && h != [] && (h[0] == STAR || (SplitLine(h).Done? &&
                  if BlankHead(s) then FirstWordOf(SplitLine(h).value) == ParseCmd(s).value.name
                  else PlainWord(SplitLine(h).value)))
  }

  /** The name that PeekCmd gives: that of a multi-bulk, else the first word of the line. */
  function NameAhead(s: bytes): bytes {
    var h := Head(s);
    if h != [] && h[0] != STAR && SplitLine(h).Done? then FirstWordOf(SplitLine(h).value)
    else if ParseCmd(s).Done? then ParseCmd(s).value.name
    else []
  }

  lemma PeekBulkAgrees(s: bytes, at: nat)
    requires at <= |s| && ParseBulk(s[at..]).Done?
    requires |s| - |ParseBulk(s[at..]).rest| <= MAX_INT64
    ensures PeekBulk(s, at) == Named(ParseBulk(s[at..]).value)
  {
  }

  lemma PeekInlineAgrees(s: bytes, at: nat)
    requires at <= |s|
    requires ParseCmd(s[at..]).Done? && s[at] != STAR
    ensures PeekVerdict(s, at)
  {
    hide FirstWordOf, Argument, PlainWord, SizeOf, FindCR, TokensOf, PeekBulk;
    var t := s[at..];
    var line := SplitLine(t).value;
    assert t[0] == line[0];
    FirstWordAgrees(line);
  }

  /** An empty multi-bulk in front changes nothing for either of them. */
  lemma PeekPastEmpty(s: bytes, at: nat)
    requires at < |s| && s[at] == STAR
    requires ParseHeader(s[at..], STAR, InvalidMultiBulkLength).Done?
    requires ParseHeader(s[at..], STAR, InvalidMultiBulkLength).value < 1
    ensures SplitLine(s[at..]).Done? && at + |SplitLine(s[at..]).value| <= |s|
    ensures s[at + |SplitLine(s[at..]).value|..] == SplitLine(s[at..]).rest
    ensures ParseCmd(s[at..]) == ParseCmd(SplitLine(s[at..]).rest)
    ensures Head(s[at..]) == Head(SplitLine(s[at..]).rest)
    ensures PeekName(s, at) == PeekName(s, at + |SplitLine(s[at..]).value|)
    ensures ParseCmd(s[at..]).Done? ==>
              && NameAhead(s[at..]) == NameAhead(SplitLine(s[at..]).rest)
              && (PeekFaithful(s[at..]) <==> PeekFaithful(SplitLine(s[at..]).rest))
  {
    hide SizeOf, FindCR, PeekBulk, ParseBulks, InlineOf;
    var t := s[at..];
    var line := SplitLine(t).value;
    assert t[0] == line[0];
    assert s[at + |line|..] == SplitLine(t).rest;
  }

  lemma PeekMultiBulk(s: bytes, at: nat)
    requires at < |s| && s[at] == STAR
    requires ParseCmd(s[at..]).Done?
    requires ParseHeader(s[at..], STAR, InvalidMultiBulkLength).Done?
    requires ParseHeader(s[at..], STAR, InvalidMultiBulkLength).value >= 1
    requires |s| - |ParseCmd(s[at..]).rest| <= MAX_INT64
    ensures PeekVerdict(s, at)
  {
    hide SizeOf, FindCR, PeekName, PeekBulk, ParseHeader, ParseBulk, ParseBulks, InlineOf, ParseCmd, Head, SplitLine;
    var t := s[at..];
    PeekBehindHeader(s, at);
    var line, rest := SplitLine(t).value, SplitLine(t).rest;
    NameOfMultiBulk(t, rest);
    PeekBulkAgrees(s, at + |line|);
  }

  lemma PeekBehindHeader(s: bytes, at: nat)
    requires at < |s| && s[at] == STAR
    requires ParseHeader(s[at..], STAR, InvalidMultiBulkLength).Done?
    requires ParseHeader(s[at..], STAR, InvalidMultiBulkLength).value >= 1
    ensures SplitLine(s[at..]).Done? && at + |SplitLine(s[at..]).value| <= |s|
    ensures s[at + |SplitLine(s[at..]).value|..] == SplitLine(s[at..]).rest
         == ParseHeader(s[at..], STAR, InvalidMultiBulkLength).rest
    ensures PeekName(s, at) == PeekBulk(s, at + |SplitLine(s[at..]).value|)
  {
    hide SizeOf, FindCR, PeekBulk;
    var t := s[at..];
    var line, rest := SplitLine(t).value, SplitLine(t).rest;
    assert t[0] == line[0];
    assert t[|line|..] == rest;
  }

  lemma NameOfMultiBulk(t: bytes, rest: bytes)
    requires t != [] && t[0] == STAR
    requires ParseHeader(t, STAR, InvalidMultiBulkLength).Done?
    requires ParseHeader(t, STAR, InvalidMultiBulkLength).value >= 1
    requires ParseHeader(t, STAR, InvalidMultiBulkLength).rest == rest
    requires ParseCmd(t).Done?
    ensures Head(t) == t
    ensures ParseBulk(rest).Done? && ParseCmd(t).value.name == ParseBulk(rest).value
    ensures |ParseCmd(t).rest| <= |ParseBulk(rest).rest|
  {
    hide ParseHeader, ParseBulk;
  }

  predicate PeekVerdict(s: bytes, at: nat)
    requires at <= |s|
  {
    var t := s[at..];
    ParseCmd(t).Done? ==>
      PeekName(s, at) == Named(NameAhead(t)) && (PeekFaithful(t) <==> NameAhead(t) == ParseCmd(t).value.name)
  }

  /** Peeking names the next command exactly when that command is a multi-bulk or a
      plain inline line, or is behind a blank line and happens to have its first word for
      a name. (The premise says that there is a command and that it ends at an offset that
      fits an int.) */
  lemma {:induction false} PeekAgrees(s: bytes, at: nat)
    requires at <= |s|
    ensures ParseCmd(s[at..]).Done? ==> |s| - |ParseCmd(s[at..]).rest| <= MAX_INT64 ==> PeekVerdict(s, at)
    decreases |s| - at
  {
    hide SplitLine, PeekName, PeekBulk, ParseBulk, ParseBulks, ParseCmd, ParseHeader, NameAhead, PeekFaithful;
    var t := s[at..];
    if ParseCmd(t).Done? && |s| - |ParseCmd(t).rest| <= MAX_INT64 {
      SomeCmd(t);
      assert s[at] == t[0];
      if t[0] != STAR {
        PeekInlineAgrees(s, at);
      } else {
        ParseCmdMultiBulk(t);
        if ParseHeader(t, STAR, InvalidMultiBulkLength).value < 1 {
          PeekPastEmpty(s, at);
          PeekAgrees(s, at + |SplitLine(t).value|);
        } else {
          PeekMultiBulk(s, at);
        }
      }
    }
  }

  lemma SomeCmd(s: bytes)
    ensures ParseCmd(s).Done? ==> s != []
  {
  }
}
