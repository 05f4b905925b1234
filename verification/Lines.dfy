/** The `bufioLn` parsers of resp/bufio.go: one protocol line, with its CRLF still on. */
module Lines {
  import opened Bytes
  import opened Decimal

  /** What Trim must return: the line without its trailing white space. */
  function Trimmed(ln: bytes): (t: bytes)
    ensures t <= ln
    ensures forall i :: |t| <= i < |ln| ==> IsSpace(ln[i])
    ensures t != [] ==> !IsSpace(t[|t| - 1])
  {
    if ln != [] && IsSpace(ln[|ln| - 1]) then Trimmed(ln[..|ln| - 1]) else ln
  }

  /** Only one prefix can be what Trim returns. */
  lemma TrimmedUnique(ln: bytes, t: bytes)
    requires t <= ln
    requires forall i :: |t| <= i < |ln| ==> IsSpace(ln[i])
    requires t != [] ==> !IsSpace(t[|t| - 1])
    ensures t == Trimmed(ln)
  {
    if |Trimmed(ln)| < |t| { assert false; }
    if |t| < |Trimmed(ln)| { assert false; }
  }

  method Trim(ln: bytes) returns (t: bytes)
    ensures t == Trimmed(ln)
  {
    var n := |ln|;
    while n > 0
      invariant 0 <= n <= |ln|
      invariant forall i :: n <= i < |ln| ==> IsSpace(ln[i])
    {
      if !IsSpace(ln[n - 1]) { break; }
      n := n - 1;
    }
    t := ln[..n];
    TrimmedUnique(ln, t);
  }

  /** The first index at or after `i` that is not white space. */
  function WordStart(s: bytes, i: nat): (j: nat)
    requires i <= |s|
    ensures i <= j <= |s|
    ensures forall k :: i <= k < j ==> IsSpace(s[k])
    ensures j < |s| ==> !IsSpace(s[j])
    decreases |s| - i
  {
    if i < |s| && IsSpace(s[i]) then WordStart(s, i + 1) else i
  }

  /** The first index at or after `i` that is white space. */
  function WordEnd(s: bytes, i: nat): (j: nat)
    requires i <= |s|
    ensures i <= j <= |s|
    ensures forall k :: i <= k < j ==> !IsSpace(s[k])
    ensures j < |s| ==> IsSpace(s[j])
    decreases |s| - i
  {
    if i < |s| && !IsSpace(s[i]) then WordEnd(s, i + 1) else i
  }

  function FirstWordOf(ln: bytes): bytes {
    var d := Trimmed(ln);
    d[WordStart(d, 0)..WordEnd(d, WordStart(d, 0))]
  }

  method FirstWord(ln: bytes) returns (word: bytes)
    ensures word == FirstWordOf(ln)
  {
    var offset, inWord := 0, false;
    var data := Trim(ln);
    for i := 0 to |data|
      invariant 0 <= offset <= i
      invariant inWord ==> offset == WordStart(data, 0) < i && i <= WordEnd(data, offset)
      invariant !inWord ==> offset == 0 && i <= WordStart(data, 0)
    {
      if IsSpace(data[i]) {
        if inWord {
          assert WordEnd(data, offset) == i;
          return data[offset..i];
        }
        inWord := false;
      } else {
        if !inWord { offset := i; }
        inWord := true;
      }
    }
    if data == [] { return []; }
    word := data[offset..];
  }

  /** What ParseSize must return: the number behind the prefix byte, modulo 2^64, if
      that is a non-negative int64. */
  function SizeOf(ln: bytes, prefix: byte, fallback: ProtocolError): (n: Result<nat>)
    ensures n.Err? ==> n.error.Protocol?
    ensures n.Ok? ==> n.value <= MAX_INT64
  {
    var data := Trimmed(ln);
    if |data| == 0 then Err(Protocol(Expected(prefix, None)))
    else if data[0] != prefix then Err(Protocol(Expected(prefix, Some(data[0]))))
    else if |data| < 2 || !AllDigits(data[1..]) || Wrap(Value(data[1..])) < 0 then Err(Protocol(fallback))
    else Ok(Wrap(Value(data[1..])))
  }

  method ParseSize(ln: bytes, prefix: byte, fallback: ProtocolError) returns (res: Result<nat>)
    ensures res == SizeOf(ln, prefix, fallback)
  {
    var data := Trim(ln);
    if |data| == 0 {
      return Err(Protocol(Expected(prefix, None)));
    } else if data[0] != prefix {
      return Err(Protocol(Expected(prefix, Some(data[0]))));
    } else if |data| < 2 {
      return Err(Protocol(fallback));
    }
    var digits := data[1..];
    var n := 0;
    for i := 0 to |digits|
      invariant AllDigits(digits[..i])
      invariant n == Wrap(Value(digits[..i]))
    {
      if !IsDigit(digits[i]) { return Err(Protocol(fallback)); }
      AppendDigit(digits, i);
      n := Wrap(Wrap(n * 10) + (digits[i] - 48));
    }
    assert digits[..|digits|] == digits;
    if n < 0 { return Err(Protocol(fallback)); }
    return Ok(n);
  }

  /** What a header line is worth, whatever it holds: refused unless digits and nothing
      else stand behind its prefix, and else their value modulo 2^64 if that is below 2^63. */
  lemma SizeVerdict(ln: bytes, prefix: byte, fallback: ProtocolError)
    ensures var d, n := Trimmed(ln), SizeOf(ln, prefix, fallback);
      && (d == [] ==> n == Err(Protocol(Expected(prefix, None))))
      && (d != [] && d[0] != prefix ==> n == Err(Protocol(Expected(prefix, Some(d[0])))))
      && (d == [prefix] ==> n == Err(Protocol(fallback)))
      && (d != [] && d[0] == prefix && (exists i :: 0 < i < |d| && !(48 <= d[i] <= 57)) ==> n == Err(Protocol(fallback)))
      && (|d| > 1 && d[0] == prefix && AllDigits(d[1..]) ==>
            var m := Value(d[1..]) % TWO_64;
            n == if m < TWO_63 then Ok(m) else Err(Protocol(fallback)))
  {
    hide Trimmed, Wrap;
    var d := Trimmed(ln);
    if i :| 0 < i < |d| && !(48 <= d[i] <= 57) { assert !IsDigit(d[1..][i - 1]); }
    if |d| > 1 && AllDigits(d[1..]) { WrapOfSize(Value(d[1..])); }
  }

  lemma WrapOfSize(n: nat)
    ensures var m := n % TWO_64; Wrap(n) == if m < TWO_63 then m else m - TWO_64
  {
    var q, m := n / TWO_64, n % TWO_64;
    WrapShift(m, q);
    if m >= TWO_63 {
      assert m == (m - TWO_64) + 1 * TWO_64;
      WrapShift(m - TWO_64, 1);
    }
  }

  lemma AppendDigit(s: bytes, i: nat)
    requires i < |s| && AllDigits(s[..i]) && IsDigit(s[i])
    ensures AllDigits(s[..i + 1])
    ensures Value(s[..i + 1]) == Value(s[..i]) * 10 + (s[i] - 48)
    ensures Wrap(Wrap(Wrap(Value(s[..i])) * 10) + (s[i] - 48)) == Wrap(Value(s[..i + 1]))
  {
    assert s[..i + 1][..i] == s[..i];
    WrapStep(Value(s[..i]), s[i] - 48);
  }

  /** What ParseInt must return: the signed number behind ':', modulo 2^64. */
  function IntOf(ln: bytes): (n: Result<int>)
    ensures n.Err? ==> n.error.Protocol?
    ensures n.Ok? ==> IsInt64(n.value)
  {
    var data := Trimmed(ln);
    if |data| < 2 then Err(Protocol(Expected(COLON, None)))
    else if data[0] != COLON then Err(Protocol(Expected(COLON, Some(data[0]))))
    else if data[1] == MINUS then
      if AllDigits(data[2..]) then Ok(Wrap(0 - Value(data[2..]))) else Err(Protocol(NotANumber))
    else if AllDigits(data[1..]) then Ok(Wrap(Value(data[1..])))
    else Err(Protocol(NotANumber))
  }

  /** What an integer line is worth: refused unless digits and nothing else stand behind
      ':' or ":-", and else the int64 that is their signed value modulo 2^64. A lone minus
      counts as zero. */
  lemma IntVerdict(ln: bytes)
    ensures var d, n := Trimmed(ln), IntOf(ln);
      && (|d| < 2 ==> n == Err(Protocol(Expected(COLON, None))))
      && (|d| > 1 && d[0] != 58 ==> n == Err(Protocol(Expected(COLON, Some(d[0])))))
      && (|d| > 1 && d[0] == 58 ==>
            var first := if d[1] == 45 then 2 else 1;
            && ((exists i :: first <= i < |d| && !(48 <= d[i] <= 57)) ==> n == Err(Protocol(NotANumber)))
            && (AllDigits(d[first..]) ==>
                  && n.Ok? && IsInt64(n.value)
                  && (n.value - (if first == 2 then 0 - Value(d[2..]) else Value(d[1..]))) % TWO_64 == 0))
  {
    hide Trimmed, Wrap;
    var d := Trimmed(ln);
    if |d| > 1 && d[0] == 58 {
      var first := if d[1] == 45 then 2 else 1;
      if i :| first <= i < |d| && !(48 <= d[i] <= 57) { assert !IsDigit(d[first..][i - first]); }
      if AllDigits(d[first..]) { WrapIsCongruent(if first == 2 then 0 - Value(d[2..]) else Value(d[1..])); }
    }
  }

  lemma WrapIsCongruent(n: int)
    ensures IsInt64(Wrap(n)) && (Wrap(n) - n) % TWO_64 == 0
  {
    var k := WrapCongruent(n);
  }

  lemma NoDigits(s: bytes)
    requires s == []
    ensures AllDigits(s) && Wrap(Value(s)) == 0
  {
  }

  lemma IntDigit(data: bytes, start: nat, i: nat)
    requires start <= i < |data| && AllDigits(data[start..i])
    ensures !IsDigit(data[i]) ==> !AllDigits(data[start..])
    ensures IsDigit(data[i]) ==>
              && AllDigits(data[start..i + 1])
              && Wrap(Wrap(Wrap(Value(data[start..i])) * 10) + (data[i] - 48)) == Wrap(Value(data[start..i + 1]))
  {
    var t := data[start..];
    assert data[start..i] == t[..i - start] && data[start..i + 1] == t[..i - start + 1] && data[i] == t[i - start];
    if IsDigit(data[i]) { AppendDigit(t, i - start); }
  }

  method ParseInt(ln: bytes) returns (res: Result<int>)
    ensures res == IntOf(ln)
  {
    hide Wrap, Value, Trimmed, AllDigits;
    var data := Trim(ln);
    if |data| < 2 {
      return Err(Protocol(Expected(COLON, None)));
    } else if data[0] != COLON {
      return Err(Protocol(Expected(COLON, Some(data[0]))));
    }
    var n, m := 0, 1;
    ghost var start := if data[1] == MINUS then 2 else 1;
    NoDigits(data[start..start]);
    for i := 1 to |data|
      invariant m == if i > 1 && data[1] == MINUS then -1 else 1
      invariant i < start ==> n == 0
      invariant i >= start ==> AllDigits(data[start..i]) && n == Wrap(Value(data[start..i]))
    {
      if i >= start { IntDigit(data, start, i); }
      if IsDigit(data[i]) {
        n := Wrap(Wrap(n * 10) + (data[i] - 48));
      } else if data[i] == MINUS && i == 1 {
        m := -1;
      } else {
        return Err(Protocol(NotANumber));
      }
    }
    assert data[start..|data|] == data[start..];
    if start == 2 { WrapNegate(Value(data[2..])); }
    return Ok(Wrap(n * m));
  }

  function MessageOf(ln: bytes, prefix: byte): (s: Result<bytes>)
    ensures s.Err? ==> s.error.Protocol?
  {
    var data := Trimmed(ln);
    if |data| < 1 then Err(Protocol(Expected(prefix, None)))
    else if data[0] != prefix then Err(Protocol(Expected(prefix, Some(data[0]))))
    else Ok(data[1..])
  }

  /** A message is refused only for its first byte. */
  lemma MessageVerdict(ln: bytes, prefix: byte)
    ensures var d, s := Trimmed(ln), MessageOf(ln, prefix);
      && (d == [] ==> s == Err(Protocol(Expected(prefix, None))))
      && (d != [] && d[0] != prefix ==> s == Err(Protocol(Expected(prefix, Some(d[0])))))
      && (d != [] && d[0] == prefix ==> s.Ok? && d == [prefix] + s.value)
  {
    hide Trimmed;
    var d := Trimmed(ln);
    if d != [] { assert d == [d[0]] + d[1..]; }
  }

  method ParseMessage(ln: bytes, prefix: byte) returns (s: Result<bytes>)
    ensures s == MessageOf(ln, prefix)
  {
    var data := Trim(ln);
    if |data| < 1 {
      return Err(Protocol(Expected(prefix, None)));
    } else if data[0] != prefix {
      return Err(Protocol(Expected(prefix, Some(data[0]))));
    }
    return Ok(data[1..]);
  }

  // ---------------------------------------------------------------- integer codec

  /** appendSize (resp/bufio.go): prefix byte, decimal number, CRLF. */
  function SizeLine(prefix: byte, n: int): bytes {
    [prefix] + FormatInt(n) + CRLF
  }

  lemma TrimmedSizeLine(prefix: byte, n: int)
    requires !IsSpace(prefix)
    ensures Trimmed(SizeLine(prefix, n)) == [prefix] + FormatInt(n)
  {
    var t := [prefix] + FormatInt(n);
    assert SizeLine(prefix, n)[..|t|] == t;
    TrimmedUnique(SizeLine(prefix, n), t);
  }

  /** ParseSize inverts appendSize on every size an int64 can hold. */
  lemma SizeRoundTrip(prefix: byte, n: nat, fallback: ProtocolError)
    requires !IsSpace(prefix)
    requires n <= MAX_INT64
    ensures SizeOf(SizeLine(prefix, n), prefix, fallback) == Ok(n)
  {
    TrimmedSizeLine(prefix, n);
    assert ([prefix] + FormatInt(n))[1..] == Digits(n);
    ValueOfDigits(n);
  }

  /** ParseInt inverts AppendInt on every int64, the minimum included. */
  lemma IntRoundTrip(n: int)
    requires IsInt64(n)
    ensures IntOf(SizeLine(COLON, n)) == Ok(n)
  {
    hide Trimmed, Value, Digits, Wrap;
    TrimmedSizeLine(COLON, n);
    var t := [COLON] + FormatInt(n);
    if n < 0 {
      assert t[2..] == Digits(-n);
      ValueOfDigits(-n);
    } else {
      assert t[1..] == Digits(n);
      ValueOfDigits(n);
    }
  }

  /** Beyond int64 the size parser does not refuse: it wraps, and accepts whatever
      comes out non-negative. A size is read back as written exactly when it fits. */
  lemma SizeWraps(prefix: byte, n: nat, fallback: ProtocolError)
    requires !IsSpace(prefix)
    ensures SizeOf(SizeLine(prefix, n), prefix, fallback) == Ok(n) <==> n <= MAX_INT64
    ensures SizeOf(SizeLine(prefix, n), prefix, fallback).Ok? <==> n % TWO_64 <= MAX_INT64
  {
    hide Trimmed, Value, Digits;
    TrimmedSizeLine(prefix, n);
    assert ([prefix] + FormatInt(n))[1..] == Digits(n);
    ValueOfDigits(n);
    WrapOfSize(n);
  }

  /** A status or error text comes back from its line unchanged exactly when it
      holds no trailing white space. (A CR inside it ends the line early; see
      `Replies.TextRoundTrip`.) */
  lemma MessageOfLine(prefix: byte, text: bytes)
    requires !IsSpace(prefix)
    ensures MessageOf([prefix] + text + CRLF, prefix) == Ok(Trimmed(text))
  {
    var t := [prefix] + Trimmed(text);
    var ln := [prefix] + text + CRLF;
    assert ln[..|t|] == t;
    forall i | |t| <= i < |ln| ensures IsSpace(ln[i]) {
      if i < |text| + 1 { assert ln[i] == text[i - 1]; }
    }
    TrimmedUnique(ln, t);
    assert t[1..] == Trimmed(text);
  }
}
