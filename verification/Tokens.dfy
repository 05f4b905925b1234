/** Inline commands: the argument scanner of resp/util.go and the command line that
    `readInline` (resp/command.go) cuts into tokens. */
module Tokens {
  import opened Bytes
  import opened Lines

  const TAB: byte := 9
  const BACKSPACE: byte := 8
  const BELL: byte := 7

  /** A command as a value: its name and its arguments. */
  datatype Cmd = Cmd(name: bytes, args: seq<bytes>)

  predicate IsHexChar(c: byte) {
    48 <= c <= 57 || 97 <= c <= 102 || 65 <= c <= 70
  }

  function FromHexChar(c: byte): (v: byte)
    ensures v < 16
  {
    if 48 <= c <= 57 then c - 48
    else if 97 <= c <= 102 then c - 97 + 10
    else if 65 <= c <= 70 then c - 65 + 10
    else 0
  }

  /** The character an escape letter stands for inside double quotes. */
  function Unescape(c: byte): byte {
    if c == 110 then LF
    else if c == 114 then CR
    else if c == 116 then TAB
    else if c == 98 then BACKSPACE
    else if c == 97 then BELL
    else c
  }

  datatype Mode = Bare | InQuotes | InApostrophes

  /** The token read so far and the number of bytes used. */
  datatype Token = Token(token: bytes, used: nat)

  /** One turn of the main loop: stop, or go on after `used` bytes. */
  datatype Move = Stop(used: nat) | Go(token: bytes, used: nat, mode: Mode)

  function Turn(dst: bytes, s: bytes, mode: Mode): (m: Move)
    requires s != []
    ensures m.Stop? ==> m.used <= 1
    ensures m.Go? ==> 1 <= m.used <= |s| && dst <= m.token && |m.token| <= |dst| + 1
  {
    var p := s[0];
    match mode
    case InQuotes =>
      if p == QUOTE then Stop(1)
      else if p == BACKSLASH && 3 < |s| && s[1] == 120 && IsHexChar(s[2]) && IsHexChar(s[3]) then
        Go(dst + [FromHexChar(s[2]) * 16 + FromHexChar(s[3])], 4, mode)
      else if p == BACKSLASH && 1 < |s| then Go(dst + [Unescape(s[1])], 2, mode)
      else Go(dst + [p], 1, mode)
    case InApostrophes =>
      if p == APOS then Stop(1) else Go(dst + [p], 1, mode)
    case Bare =>
      if p == SPACE || p == LF || p == CR || p == TAB then Stop(0)
      else if p == QUOTE then if dst != [] then Stop(0) else Go(dst, 1, InQuotes)
      else if p == APOS then if dst != [] then Stop(0) else Go(dst, 1, InApostrophes)
      else Go(dst + [p], 1, mode)
  }

  /** The main loop of appendArgument on the rest `s` of the line. */
  function Scan(dst: bytes, s: bytes, mode: Mode): (r: Token)
    ensures r.used <= |s|
    ensures dst <= r.token && |r.token| - |dst| <= r.used
    decreases |s|
  {
    if s == [] then Token(dst, 0)
    else
      match Turn(dst, s, mode)
      case Stop(used) => Token(dst, used)
      case Go(token, used, next) => Advance(used, Scan(token, s[used..], next))
  }

  function Advance(n: nat, r: Token): Token {
    Token(r.token, n + r.used)
  }

  /** What appendArgument must return: blanks skipped, then one token. */
  function Argument(dst: bytes, src: bytes): (r: Token)
    ensures r.used <= |src|
    ensures dst <= r.token && |r.token| - |dst| <= r.used
  {
    var b := WordStart(src, 0);
    Advance(b, Scan(dst, src[b..], Bare))
  }

  /** A call uses no byte at all exactly when nothing is left, or when it is given a
      slot that is not empty and the rest opens with a quote: this is why readInline
      only ends if recycled slots are empty. */
  lemma ArgumentStuck(dst: bytes, src: bytes)
    ensures Argument(dst, src).used == 0
       <==> src == [] || (dst != [] && (src[0] == QUOTE || src[0] == APOS))
  {
    if src != [] && !IsSpace(src[0]) {
      assert WordStart(src, 0) == 0 && src[0..] == src;
    }
  }

  method AppendArgument(dst: bytes, src: bytes) returns (token: bytes, used: nat)
    ensures Token(token, used) == Argument(dst, src)
  {
    hide WordStart, Turn, Scan;
    var pos := SkipBlanks(src);
    token := dst;
    var mode := Bare;
    while pos < |src|
      invariant pos <= |src|
      invariant Argument(dst, src) == Advance(pos, Scan(token, src[pos..], mode))
    {
      ScanTurn(token, src, pos, mode);
      var move := OneTurn(token, src, pos, mode);
      pos := pos + move.used;
      if move.Stop? { break; }
      token, mode := move.token, move.mode;
    }
    used := pos;
    ScanNothing(token, mode);
  }

  /** The first loop of appendArgument. */
  method SkipBlanks(src: bytes) returns (pos: nat)
    ensures pos == WordStart(src, 0)
  {
    pos := 0;
    while pos < |src| && IsSpace(src[pos])
      invariant pos <= WordStart(src, 0)
    {
      pos := pos + 1;
    }
  }

  lemma ScanNothing(dst: bytes, mode: Mode)
    ensures Scan(dst, [], mode) == Token(dst, 0)
  {
  }

  lemma ScanTurn(dst: bytes, src: bytes, pos: nat, mode: Mode)
    requires pos < |src|
    ensures var m := Turn(dst, src[pos..], mode);
      && (m.Stop? ==> m.used <= 1 && Advance(pos, Scan(dst, src[pos..], mode)) == Token(dst, pos + m.used))
      && (m.Go? ==> 1 <= m.used <= |src| - pos
                    && Advance(pos, Scan(dst, src[pos..], mode))
                         == Advance(pos + m.used, Scan(m.token, src[pos + m.used..], m.mode)))
  {
    hide Turn;
    var m := Turn(dst, src[pos..], mode);
    assert src[pos..][m.used..] == src[pos + m.used..];
  }

  /** The body of the main loop, at index `pos` of the line. */
  method OneTurn(dst: bytes, src: bytes, pos: nat, mode: Mode) returns (m: Move)
    requires pos < |src|
    ensures m == Turn(dst, src[pos..], mode)
  {
    var p := src[pos];
    if mode.InQuotes? {
      if p == QUOTE { return Stop(1); }
      if p == BACKSLASH && pos + 3 < |src| && src[pos + 1] == 120
         && IsHexChar(src[pos + 2]) && IsHexChar(src[pos + 3]) {
        return Go(dst + [FromHexChar(src[pos + 2]) * 16 + FromHexChar(src[pos + 3])], 4, mode);
      }
      if p == BACKSLASH && pos + 1 < |src| {
        return Go(dst + [Unescape(src[pos + 1])], 2, mode);
      }
    } else if mode.InApostrophes? {
      if p == APOS { return Stop(1); }
    } else if p == SPACE || p == LF || p == CR || p == TAB {
      return Stop(0);
    } else if p == QUOTE || p == APOS {
      if |dst| != 0 { return Stop(0); }
      return Go(dst, 1, if p == QUOTE then InQuotes else InApostrophes);
    }
    return Go(dst + [p], 1, mode);
  }

  /** The tokens of a whole line. */
  function TokensOf(data: bytes): seq<bytes>
    decreases |data|
  {
    if data == [] then []
    else
      ArgumentStuck([], data);
      var a := Argument([], data);
      [a.token] + TokensOf(data[a.used..])
  }

  /** What readInline must read from a line: nothing if its first token is empty. */
  function InlineOf(line: bytes): Option<Cmd> {
    var data := Trimmed(line);
    var a := Argument([], data);
    if a.token == [] then None else Some(Cmd(a.token, TokensOf(data[a.used..])))
  }

  /** What ends a bare token. VT and FF do not. */
  predicate EndsBare(c: byte) { c in {SPACE, LF, CR, TAB, QUOTE, APOS} }

  lemma BareTurn(dst: bytes, s: bytes)
    requires s != [] && !EndsBare(s[0])
    ensures Scan(dst, s, Bare) == Advance(1, Scan(dst + [s[0]], s[1..], Bare))
  {
  }

  lemma Associative(a: bytes, b: bytes, c: bytes)
    ensures (a + b) + c == a + (b + c)
  {
  }

  /** A bare token runs on over everything but the four blanks and the quotes. */
  lemma {:induction false} BareScan(dst: bytes, chars: bytes, post: bytes)
    requires forall i :: 0 <= i < |chars| ==> !EndsBare(chars[i])
    ensures Scan(dst, chars + post, Bare) == Advance(|chars|, Scan(dst + chars, post, Bare))
    decreases |chars|
  {
    if chars == [] {
      assert chars + post == post && dst + chars == dst;
    } else {
      assert (chars + post)[0] == chars[0] && !EndsBare(chars[0]);
      BareTurn(dst, chars + post);
      hide Scan, EndsBare;
      assert (chars + post)[1..] == chars[1..] + post;
      Associative(dst, [chars[0]], chars[1..]);
      assert chars == [chars[0]] + chars[1..];
      BareScan(dst + [chars[0]], chars[1..], post);
    }
  }
}
