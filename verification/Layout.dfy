/** RESP2 on the wire, byte by byte, and that this is what the encoders produce. Numbers are
    described by what their text must be, not by how it is made. */
module Layout {
  import opened Bytes
  import opened Decimal
  import opened Lines
  import opened Tokens
  import opened Syntax

  /** Digits without a leading zero, unless the text is "0". */
  predicate IsNumeral(t: bytes) {
    && t != [] && (|t| > 1 ==> t[0] != 48)
    && forall i :: 0 <= i < |t| ==> 48 <= t[i] <= 57
  }

  /** `t` is the decimal text of `n`. */
  predicate IsDecimal(t: bytes, n: int) {
    if n < 0 then t != [] && t[0] == 45 && IsNumeral(t[1..]) && Value(t[1..]) == -n
    else IsNumeral(t) && Value(t) == n
  }

  /** A number has one text only, and that is the one which is written. */
  lemma {:induction false} DigitsCanonical(t: bytes, n: nat)
    ensures t == Digits(n) <==> IsNumeral(t) && Value(t) == n
    decreases n
  {
    ValueOfDigits(n);
    DigitsNumeral(n);
    if IsNumeral(t) && Value(t) == n {
      var front, last := t[..|t| - 1], t[|t| - 1] - 48;
      if |t| > 1 {
        assert IsNumeral(front) by { assert forall i :: 0 <= i < |front| ==> front[i] == t[i]; }
        NumeralPositive(front);
        assert n == Value(front) * 10 + last && n / 10 == Value(front) && n % 10 == last;
        DigitsCanonical(front, n / 10);
        assert t == front + [48 + last];
      } else {
        assert front == [] && t == [48 + last];
      }
    }
  }

  lemma {:induction false} DigitsNumeral(n: nat)
    ensures IsNumeral(Digits(n)) && (n > 0 ==> Digits(n)[0] != 48)
  {
    if n >= 10 { DigitsNumeral(n / 10); }
  }

  /** No leading zero: the first digit counts. */
  lemma {:induction false} NumeralPositive(t: bytes)
    requires IsNumeral(t) && t[0] != 48
    ensures Value(t) > 0
    decreases |t|
  {
    var front := t[..|t| - 1];
    if |t| > 1 {
      assert IsNumeral(front) by { assert forall i :: 0 <= i < |front| ==> front[i] == t[i]; }
      NumeralPositive(front);
    }
  }

  lemma FormatCanonical(t: bytes, n: int)
    ensures t == FormatInt(n) <==> IsDecimal(t, n)
  {
    if n < 0 {
      assert t != [] ==> t == [t[0]] + t[1..];
      assert FormatInt(n)[1..] == Digits(-n);
      if t != [] { DigitsCanonical(t[1..], -n); }
    } else {
      DigitsCanonical(t, n);
    }
  }

  /** A prefix byte, a number, CR LF. */
  ghost predicate IsNumberLine(s: bytes, prefix: byte, n: int) {
    |s| >= 3 && s[0] == prefix && IsDecimal(s[1..|s| - 2], n) && s[|s| - 2..] == [13, 10]
  }

  /** "$", the length, CR LF, the bytes, CR LF. */
  ghost predicate IsBulk(s: bytes, p: bytes) {
    && |s| >= |p| + 2 && s[|s| - |p| - 2..] == p + [13, 10]
    && IsNumberLine(s[..|s| - |p| - 2], 36, |p|)
  }

  /** "*", the number of elements, CR LF, and the elements. */
  ghost predicate IsArray(s: bytes, elements: seq<bytes>) {
    exists head :: IsNumberLine(head, 42, |elements|) && s == head + Flatten(elements)
  }

  /** A request: an array of bulks. */
  ghost predicate IsRequest(s: bytes, ps: seq<bytes>) {
    exists bulks :: IsArray(s, bulks) && AreBulks(bulks, ps)
  }

  ghost predicate AreBulks(bulks: seq<bytes>, ps: seq<bytes>) {
    |bulks| == |ps| && forall i :: 0 <= i < |ps| ==> IsBulk(bulks[i], ps[i])
  }

  /** Exactly one line is the number line of a number. */
  lemma SizeLineOnWire(s: bytes, prefix: byte, n: int)
    ensures s == SizeLine(prefix, n) <==> IsNumberLine(s, prefix, n)
  {
    hide FormatInt, IsDecimal;
    var t := SizeLine(prefix, n);
    assert t[1..|t| - 2] == FormatInt(n);
    FormatCanonical(FormatInt(n), n);
    if IsNumberLine(s, prefix, n) {
      FormatCanonical(s[1..|s| - 2], n);
      assert s == [s[0]] + s[1..|s| - 2] + s[|s| - 2..];
    }
  }

  lemma BulkOnWire(s: bytes, p: bytes)
    ensures s == EncodeBulk(p) <==> IsBulk(s, p)
  {
    hide SizeLine, IsNumberLine;
    var t := EncodeBulk(p);
    assert t[..|t| - |p| - 2] == SizeLine(DOLLAR, |p|) && t[|t| - |p| - 2..] == p + CRLF;
    SizeLineOnWire(SizeLine(DOLLAR, |p|), DOLLAR, |p|);
    if IsBulk(s, p) {
      SizeLineOnWire(s[..|s| - |p| - 2], DOLLAR, |p|);
      assert s == s[..|s| - |p| - 2] + s[|s| - |p| - 2..];
      assert SizeLine(DOLLAR, |p|) + (p + CRLF) == t;
    }
  }

  lemma ArrayOnWire(elements: seq<bytes>)
    ensures IsArray(SizeLine(STAR, |elements|) + Flatten(elements), elements)
  {
    SizeLineOnWire(SizeLine(STAR, |elements|), STAR, |elements|);
  }

  function BulksOf(ps: seq<bytes>): (bulks: seq<bytes>)
    ensures |bulks| == |ps| && forall i :: 0 <= i < |ps| ==> bulks[i] == EncodeBulk(ps[i])
  {
    seq(|ps|, i requires 0 <= i < |ps| => EncodeBulk(ps[i]))
  }

  lemma {:induction false} FlattenBulks(ps: seq<bytes>)
    ensures Flatten(BulksOf(ps)) == EncodeBulks(ps)
  {
    hide EncodeBulk;
    if ps != [] {
      assert BulksOf(ps)[1..] == BulksOf(ps[1..]);
      FlattenBulks(ps[1..]);
    }
  }

  /** A command on the wire is a request of its name and arguments. */
  lemma CmdOnWire(c: Cmd)
    ensures IsRequest(EncodeCmd(c), [c.name] + c.args)
  {
    hide EncodeBulk, SizeLine, IsBulk, IsArray;
    var ps := [c.name] + c.args;
    var bulks := BulksOf(ps);
    assert AreBulks(bulks, ps) by {
      forall i | 0 <= i < |ps| ensures IsBulk(bulks[i], ps[i]) { BulkOnWire(bulks[i], ps[i]); }
    }
    FlattenBulks(ps);
    assert ps[1..] == c.args;
    ArrayOnWire(bulks);
    assert SizeLine(STAR, |ps|) + (EncodeBulk(c.name) + EncodeBulks(c.args)) == EncodeCmd(c);
  }

  lemma SameBulks(bulks: seq<bytes>, ps: seq<bytes>)
    requires AreBulks(bulks, ps)
    ensures bulks == BulksOf(ps)
  {
    hide EncodeBulk, IsBulk;
    forall i | 0 <= i < |ps| ensures bulks[i] == EncodeBulk(ps[i]) { BulkOnWire(bulks[i], ps[i]); }
  }

  /** And nothing else is: there is one way to write a command, and each request is one's. */
  lemma RequestIsCmd(s: bytes, c: Cmd)
    ensures IsRequest(s, [c.name] + c.args) <==> s == EncodeCmd(c)
  {
    hide EncodeBulk, SizeLine, IsBulk, IsNumberLine, EncodeBulks;
    CmdOnWire(c);
    var ps := [c.name] + c.args;
    if IsRequest(s, ps) {
      var bulks :| IsArray(s, bulks) && AreBulks(bulks, ps);
      SameBulks(bulks, ps);
      FlattenBulks(ps);
      BulksFirst(ps);
      assert ps[1..] == c.args;
      var head :| IsNumberLine(head, 42, |bulks|) && s == head + Flatten(bulks);
      SizeLineOnWire(head, STAR, |ps|);
      assert SizeLine(STAR, |ps|) + (EncodeBulk(c.name) + EncodeBulks(c.args)) == EncodeCmd(c);
    }
  }

  lemma BulksFirst(ps: seq<bytes>)
    requires ps != []
    ensures EncodeBulks(ps) == EncodeBulk(ps[0]) + EncodeBulks(ps[1..])
  {
  }
}
