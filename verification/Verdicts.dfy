/** What the request parser makes of bytes that are not a written command: malformed
    headers, empty commands in front, foreign trailers, and streams that are cut short. */
module Verdicts {
  import opened Bytes
  import opened Decimal
  import opened Lines
  import opened Tokens
  import opened Syntax
  import opened Quoting

  // ---------------------------------------------------------------- more bytes change nothing

  /** The verdict `p` on a stream is kept by `q`, the verdict when `more` has come in. */
  predicate Keeps<T(==)>(p: Parsed<T>, q: Parsed<T>, more: bytes) {
    match p
    case Incomplete => true
    case Bad(e) => q == Bad(e)
    case Done(v, rest) => q == Done(v, rest + more)
  }

  lemma LineExtends(s: bytes, more: bytes)
    ensures Keeps(SplitLine(s), SplitLine(s + more), more)
  {
    var i := FindCR(s);
    if i + 1 < |s| {
      assert forall k :: 0 <= k <= i ==> (s + more)[k] == s[k];
      FindCRUnique(s + more, i);
      assert (s + more)[..i + 2] == s[..i + 2] && (s + more)[i + 2..] == s[i + 2..] + more;
    }
  }

  lemma BulkExtends(s: bytes, more: bytes)
    ensures Keeps(ParseHeader(s, DOLLAR, InvalidBulkLength), ParseHeader(s + more, DOLLAR, InvalidBulkLength), more)
    ensures Keeps(ParseBulk(s), ParseBulk(s + more), more)
  {
    hide SplitLine, SizeOf;
    LineExtends(s, more);
    var h := ParseHeader(s, DOLLAR, InvalidBulkLength);
    if h.Done? && |h.rest| >= h.value + 2 {
      assert (h.rest + more)[..h.value] == h.rest[..h.value];
      assert (h.rest + more)[h.value + 2..] == h.rest[h.value + 2..] + more;
    }
  }

  lemma {:induction false} BulksExtend(s: bytes, k: nat, more: bytes)
    ensures Keeps(ParseBulks(s, k), ParseBulks(s + more, k), more)
    decreases k
  {
    hide ParseBulk;
    if k > 0 {
      BulkExtends(s, more);
      if ParseBulk(s).Done? { BulksExtend(ParseBulk(s).rest, k - 1, more); }
    }
  }

  /** Whatever a stream has been read as, a command or an error, it is read as that when
      more bytes have come in behind it. */
  lemma {:induction false} CmdExtends(s: bytes, more: bytes)
    ensures Keeps(ParseCmd(s), ParseCmd(s + more), more)
    decreases |s|
  {
    hide SplitLine, SizeOf, ParseBulks, InlineOf;
    if s != [] {
      LineExtends(s, more);
      assert (s + more)[0] == s[0];
      var h := ParseHeader(s, STAR, InvalidMultiBulkLength);
      if s[0] == STAR && h.Done? {
        if h.value < 1 { CmdExtends(h.rest, more); } else { BulksExtend(h.rest, h.value, more); }
      } else if s[0] != STAR && SplitLine(s).Done? && InlineOf(SplitLine(s).value).None? {
        CmdExtends(SplitLine(s).rest, more);
      }
    }
  }

  /** A written command that is cut short, at whatever byte, is neither a command nor an
      error: the parser asks for more. */
  lemma CutShort(c: Cmd, k: nat)
    requires Sendable(c) && k < |EncodeCmd(c)|
    ensures ParseCmd(EncodeCmd(c)[..k]).Incomplete?
  {
    hide ParseCmd, EncodeCmd;
    var s, more := EncodeCmd(c)[..k], EncodeCmd(c)[k..];
    assert s + more == EncodeCmd(c) && EncodeCmd(c) + [] == EncodeCmd(c);
    CmdExtends(s, more);
    CmdRoundTrip(c, []);
    assert more != [];
  }

  // ---------------------------------------------------------------- malformed headers

  /** Something stands behind the prefix that is no digit, or nothing at all. */
  predicate Malformed(text: bytes) {
    Trimmed(text) == [] || exists i :: 0 <= i < |Trimmed(text)| && !(48 <= Trimmed(text)[i] <= 57)
  }

  /** The line of a prefix and a text. */
  lemma LineOf(prefix: byte, text: bytes, rest: bytes)
    requires !IsSpace(prefix) && CR !in text
    ensures SplitLine([prefix] + text + [13, 10] + rest) == Done([prefix] + text + [13, 10], rest)
    ensures Trimmed([prefix] + text + [13, 10]) == [prefix] + Trimmed(text)
  {
    var line := [prefix] + text + [13, 10];
    var s, i := line + rest, 1 + |text|;
    assert forall k :: 0 < k < i ==> s[k] == text[k - 1];
    FindCRUnique(s, i);
    assert s[..i + 2] == line && s[i + 2..] == rest;
    var t := [prefix] + Trimmed(text);
    assert t <= line by { assert line[..|t|] == t; }
    forall k | |t| <= k < |line| ensures IsSpace(line[k]) {
      if k < i { assert line[k] == text[k - 1]; }
    }
    TrimmedUnique(line, t);
  }

  lemma HeaderRefused(prefix: byte, text: bytes, rest: bytes, fallback: ProtocolError)
    requires !IsSpace(prefix) && CR !in text && Malformed(text)
    ensures ParseHeader([prefix] + text + [13, 10] + rest, prefix, fallback) == Bad(Protocol(fallback))
  {
    hide SplitLine, Trimmed, SizeOf;
    LineOf(prefix, text, rest);
    var line, d := [prefix] + text + [13, 10], Trimmed(text);
    SizeVerdict(line, prefix, fallback);
    if d != [] {
      var i :| 0 <= i < |d| && !(48 <= d[i] <= 57);
      assert ([prefix] + d)[i + 1] == d[i];
    }
  }

  /** A multi-bulk count that is no number, a negative one for example, is refused, ... */
  lemma CountRefused(text: bytes, rest: bytes)
    requires CR !in text && Malformed(text)
    ensures ParseCmd([42] + text + [13, 10] + rest) == Bad(Protocol(InvalidMultiBulkLength))
  {
    HeaderRefused(STAR, text, rest, InvalidMultiBulkLength);
  }

  /** ... and so is the length of a bulk, wherever it stands in the command, ... */
  lemma LengthRefused(ps: seq<bytes>, n: nat, text: bytes, rest: bytes)
    requires |ps| < n <= MAX_INT64 && |EncodeBulks(ps)| <= MAX_INT64 && CR !in text && Malformed(text)
    ensures ParseCmd(SizeLine(STAR, n) + EncodeBulks(ps) + ([36] + text + [13, 10] + rest)) == Bad(Protocol(InvalidBulkLength))
  {
    hide ParseBulks, ParseBulk, EncodeBulks, SizeLine, Malformed;
    HeaderRefused(DOLLAR, text, rest, InvalidBulkLength);
    var bad := [36] + text + [13, 10] + rest;
    assert ParseBulk(bad) == Bad(Protocol(InvalidBulkLength)) by { BulkOfBadHeader(bad, Protocol(InvalidBulkLength)); }
    BadBulkInside(ps, n, bad, Protocol(InvalidBulkLength));
  }

  /** ... and a bulk that begins with anything else than '$'. */
  lemma PrefixRefused(ps: seq<bytes>, n: nat, c: byte, text: bytes, rest: bytes)
    requires |ps| < n <= MAX_INT64 && |EncodeBulks(ps)| <= MAX_INT64 && CR !in text && !IsSpace(c) && c != 36
    ensures ParseCmd(SizeLine(STAR, n) + EncodeBulks(ps) + ([c] + text + [13, 10] + rest)) == Bad(Protocol(Expected(36, Some(c))))
  {
    hide ParseBulks, ParseBulk, EncodeBulks, SizeLine, SplitLine, Trimmed, SizeOf;
    LineOf(c, text, rest);
    SizeVerdict([c] + text + [13, 10], DOLLAR, InvalidBulkLength);
    var bad := [c] + text + [13, 10] + rest;
    assert ParseBulk(bad) == Bad(Protocol(Expected(36, Some(c)))) by { BulkOfBadHeader(bad, Protocol(Expected(36, Some(c)))); }
    BadBulkInside(ps, n, bad, Protocol(Expected(36, Some(c))));
  }

  lemma BulkOfBadHeader(s: bytes, e: Error)
    requires ParseHeader(s, DOLLAR, InvalidBulkLength) == Bad(e)
    ensures ParseBulk(s) == Bad(e)
  {
  }

  lemma BadBulkInside(ps: seq<bytes>, n: nat, bad: bytes, e: Error)
    requires |ps| < n <= MAX_INT64 && |EncodeBulks(ps)| <= MAX_INT64 && ParseBulk(bad) == Bad(e)
    ensures ParseCmd(SizeLine(STAR, n) + EncodeBulks(ps) + bad) == Bad(e)
  {
    hide ParseBulk, EncodeBulks, ParseHeader;
    var body := EncodeBulks(ps) + bad;
    assert SizeLine(STAR, n) + EncodeBulks(ps) + bad == SizeLine(STAR, n) + body;
    HeaderRoundTrip(STAR, n, InvalidMultiBulkLength, body);
    BulksThenBad(ps, n, bad, e);
  }

  lemma {:induction false} BulksThenBad(ps: seq<bytes>, n: nat, bad: bytes, e: Error)
    requires |ps| < n && |EncodeBulks(ps)| <= MAX_INT64 && ParseBulk(bad) == Bad(e)
    ensures ParseBulks(EncodeBulks(ps) + bad, n) == Bad(e)
    decreases |ps|
  {
    hide ParseBulk, EncodeBulk;
    if ps == [] {
      assert EncodeBulks(ps) + bad == bad;
    } else {
      var tail := EncodeBulks(ps[1..]) + bad;
      assert EncodeBulks(ps) + bad == EncodeBulk(ps[0]) + tail;
      EncodeBulkLength(ps[0]);
      BulkRoundTrip(ps[0], tail);
      BulksThenBad(ps[1..], n - 1, bad, e);
    }
  }

  // ---------------------------------------------------------------- what is passed over

  /** Empty multi-bulks and blank lines in front of a command change nothing for reading. */
  lemma EmptyInFront(s: bytes, gap: bytes)
    requires IsGap(gap)
    ensures ParseCmd([42, 48, 13, 10] + s) == ParseCmd(s)
    ensures ParseCmd(gap + [13, 10] + s) == ParseCmd(s)
  {
    hide InlineOf, ParseBulks;
    ZeroHeader(s);
    BlankLine(gap, s);
  }

  lemma ZeroHeader(s: bytes)
    ensures ParseHeader([42, 48, 13, 10] + s, STAR, InvalidMultiBulkLength) == Done(0, s)
  {
    assert SizeLine(STAR, 0) == [42, 48, 13, 10];
    HeaderRoundTrip(STAR, 0, InvalidMultiBulkLength, s);
  }

  lemma BlankLine(gap: bytes, s: bytes)
    requires IsGap(gap)
    ensures var t := gap + [13, 10] + s;
      t[0] != STAR && SplitLine(t) == Done(gap + [13, 10], s) && InlineOf(gap + [13, 10]).None?
  {
    hide TokensOf;
    var line := gap + [13, 10];
    var t := line + s;
    assert forall k :: 0 <= k < |gap| ==> t[k] == gap[k];
    FindCRUnique(t, |gap|);
    assert t[..|gap| + 2] == line && t[|gap| + 2..] == s;
    TrimmedUnique(line, []);
    assert Argument([], []).token == [];
  }

  /** The two bytes behind a payload are dropped unseen. */
  lemma AnyTrailer(p: bytes, x: byte, y: byte, rest: bytes)
    requires |p| + 2 <= MAX_INT64
    ensures ParseBulk(SizeLine(DOLLAR, |p|) + p + [x, y] + rest) == Done(p, rest)
  {
    hide SizeLine;
    var tail := p + [x, y] + rest;
    assert SizeLine(DOLLAR, |p|) + p + [x, y] + rest == SizeLine(DOLLAR, |p|) + tail;
    HeaderRoundTrip(DOLLAR, |p|, InvalidBulkLength, tail);
    assert tail[..|p|] == p && tail[|p| + 2..] == rest;
  }

  /** A nil is any line that begins with "$-1". */
  lemma NilVerdict(text: bytes, rest: bytes)
    requires CR !in text
    ensures [36, 45, 49] <= text ==> ParseNil(text + [13, 10] + rest) == Done((), rest)
    ensures !([36, 45, 49] <= text) ==> ParseNil(text + [13, 10] + rest) == Bad(Protocol(NotANil))
  {
    var line := text + [13, 10];
    var s := line + rest;
    assert forall k :: 0 <= k < |text| ==> s[k] == text[k];
    FindCRUnique(s, |text|);
    assert s[..|text| + 2] == line && s[|text| + 2..] == rest;
    if |text| < 3 { assert line[|text|] == 13; }
    assert |text| >= 3 ==> line[..3] == text[..3];
  }

  /** Which reply begins with which byte; a '$' is decided by the byte behind it. */
  lemma TypeVerdict(c: byte, s: bytes)
    requires c == 36 ==> s != []
    ensures var t := TypeOf([c] + s);
      t == Some(if c == 42 then ArrayReply
                else if c == 36 && s[0] == 45 then NilReply
                else if c == 36 then BulkReply
                else if c == 43 then InlineReply
                else if c == 45 then ErrorReply
                else if c == 58 then IntReply
                else UnknownReply)
    ensures TypeOf([]) == None && TypeOf([36]) == None
  {
  }
}
