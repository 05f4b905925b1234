/** How an inline command line may be written, and that it is read as what it was written
    for: any mixture of bare, apostrophe and double-quoted tokens. */
module Quoting {
  import opened Bytes
  import opened Lines
  import opened Tokens

  // ---------------------------------------------------------------- between double quotes

  /** How one byte may be written between double quotes: as it is, as \xHH, as an escape
      letter, or behind a backslash that means nothing. */
  datatype Style = Raw | Hex(upperHigh: bool, upperLow: bool) | Letter | Slashed

  datatype Quoted = Quoted(c: byte, style: Style)

  predicate Writable(q: Quoted) {
    match q.style
    case Raw => q.c != QUOTE && q.c != BACKSLASH && q.c != CR
    case Hex(_, _) => true
    case Letter => q.c in {LF, CR, TAB, BACKSPACE, BELL}
    case Slashed => q.c !in {110, 114, 116, 98, 97, CR}
  }

  /** "\x" stands for an x only where no two hex digits follow. */
  predicate OpensHex(s: bytes) {
    |s| >= 4 && s[0] == BACKSLASH && s[1] == 120 && HexDigit(s[2]) && HexDigit(s[3])
  }

  predicate HexDigit(c: byte) { 48 <= c <= 57 || 65 <= c <= 70 || 97 <= c <= 102 }

  function HexChar(v: nat, upper: bool): (c: byte)
    requires v < 16
    ensures IsHexChar(c) && FromHexChar(c) == v
  {
    if v < 10 then 48 + v else if upper then 55 + v else 87 + v
  }

  function LetterFor(c: byte): byte {
    if c == LF then 110
    else if c == CR then 114
    else if c == TAB then 116
    else if c == BACKSPACE then 98
    else 97
  }

  function WriteOne(q: Quoted): (s: bytes)
    ensures Writable(q) ==> CR !in s
    ensures s != []
  {
    match q.style
    case Raw => [q.c]
    case Hex(h, l) => [BACKSLASH, 120, HexChar(q.c / 16, h), HexChar(q.c % 16, l)]
    case Letter => [BACKSLASH, LetterFor(q.c)]
    case Slashed => [BACKSLASH, q.c]
  }

  function WriteAll(qs: seq<Quoted>): bytes {
    if qs == [] then [] else WriteOne(qs[0]) + WriteAll(qs[1..])
  }

  /** `post` is what follows behind the last of them. */
  predicate AllWritable(qs: seq<Quoted>, post: bytes) {
    qs != [] ==>
      && Writable(qs[0])
      && (qs[0].style.Slashed? ==> !OpensHex(WriteAll(qs) + post))
      && AllWritable(qs[1..], post)
  }

  function Plain(qs: seq<Quoted>): bytes {
    if qs == [] then [] else [qs[0].c] + Plain(qs[1..])
  }

  lemma ScanOne(dst: bytes, q: Quoted, post: bytes)
    requires Writable(q) && (q.style.Slashed? ==> !OpensHex(WriteOne(q) + post))
    ensures Scan(dst, WriteOne(q) + post, InQuotes)
         == Advance(|WriteOne(q)|, Scan(dst + [q.c], post, InQuotes))
  {
    var s := WriteOne(q) + post;
    assert s[|WriteOne(q)|..] == post;
    match q.style {
      case Raw =>
      case Hex(_, _) =>
        assert s[2] == WriteOne(q)[2] && s[3] == WriteOne(q)[3];
      case Letter =>
        assert s[0] == BACKSLASH && s[1] == LetterFor(q.c) != 120;
        assert Unescape(s[1]) == q.c;
      case Slashed =>
        assert s[0] == BACKSLASH && s[1] == q.c == Unescape(q.c);
    }
  }

  /** Inside double quotes each byte is read as what it was written for. */
  lemma {:induction false} ScanQuoted(dst: bytes, qs: seq<Quoted>, post: bytes)
    requires AllWritable(qs, post)
    ensures Scan(dst, WriteAll(qs) + post, InQuotes)
         == Advance(|WriteAll(qs)|, Scan(dst + Plain(qs), post, InQuotes))
    decreases |qs|
  {
    hide Scan, WriteOne, Writable, Unescape, OpensHex;
    if qs == [] {
      assert WriteAll(qs) + post == post && dst + Plain(qs) == dst;
    } else {
      var one, more := WriteOne(qs[0]), WriteAll(qs[1..]);
      Associative(one, more, post);
      Associative(dst, [qs[0].c], Plain(qs[1..]));
      ScanOne(dst, qs[0], more + post);
      ScanQuoted(dst + [qs[0].c], qs[1..], post);
    }
  }

  lemma {:induction false} QuotedNoCR(qs: seq<Quoted>, post: bytes)
    requires AllWritable(qs, post)
    ensures CR !in WriteAll(qs)
  {
    hide WriteOne, Writable, OpensHex;
    if qs != [] { QuotedNoCR(qs[1..], post); }
  }

  /** Between apostrophes nothing is special, backslashes neither. */
  lemma {:induction false} ScanLiteral(dst: bytes, chars: bytes, post: bytes)
    requires APOS !in chars
    ensures Scan(dst, chars + post, InApostrophes) == Advance(|chars|, Scan(dst + chars, post, InApostrophes))
    decreases |chars|
  {
    if chars == [] {
      assert chars + post == post && dst + chars == dst;
    } else {
      assert (chars + post)[1..] == chars[1..] + post;
      Associative(dst, [chars[0]], chars[1..]);
      assert chars == [chars[0]] + chars[1..];
      ScanLiteral(dst + [chars[0]], chars[1..], post);
    }
  }

  lemma ScanClosing(dst: bytes, post: bytes)
    ensures Scan(dst, [QUOTE] + post, InQuotes) == Token(dst, 1)
    ensures Scan(dst, [APOS] + post, InApostrophes) == Token(dst, 1)
  {
  }

  // ---------------------------------------------------------------- one token

  /** How a token may be written. */
  datatype Text =
    | Unquoted(chars: bytes)
    | Apostrophes(chars: bytes)
    | Quotes(escaped: seq<Quoted>)

  /** The bytes it stands for. */
  function Meaning(t: Text): bytes {
    match t
    case Unquoted(chars) => chars
    case Apostrophes(chars) => chars
    case Quotes(qs) => Plain(qs)
  }

  function WriteText(t: Text): bytes {
    match t
    case Unquoted(chars) => chars
    case Apostrophes(chars) => [APOS] + chars + [APOS]
    case Quotes(qs) => [QUOTE] + WriteAll(qs) + [QUOTE]
  }

  predicate TextOk(t: Text) {
    match t
    case Unquoted(chars) => chars != [] && !IsBlank(chars[0]) && forall i :: 0 <= i < |chars| ==> !EndsBare(chars[i])
    case Apostrophes(chars) => APOS !in chars && CR !in chars
    case Quotes(qs) => AllWritable(qs, [QUOTE])
  }

  /** TAB, LF, VT, FF, CR and space. */
  predicate IsBlank(c: byte) { c in {9, 10, 11, 12, 13, 32} }

  /** White space that may stand between tokens (a CR would end the line). */
  predicate IsGap(s: bytes) {
    forall i :: 0 <= i < |s| ==> IsBlank(s[i]) && s[i] != CR
  }

  lemma SkipGap(gap: bytes, s: bytes)
    requires IsGap(gap) && (s != [] ==> !IsSpace(s[0]))
    ensures Argument([], gap + s) == Advance(|gap|, Scan([], s, Bare))
  {
    var src := gap + s;
    assert s != [] ==> src[|gap|] == s[0];
    assert WordStart(src, 0) == |gap| by { assert forall k :: 0 <= k < |gap| ==> IsSpace(src[k]); }
    assert src[|gap|..] == s;
  }

  /** One token in front of anything that ends it. */
  lemma ArgumentOfText(gap: bytes, t: Text, post: bytes)
    requires IsGap(gap) && TextOk(t) && (t.Unquoted? && post != [] ==> EndsBare(post[0]))
    ensures Argument([], gap + WriteText(t) + post) == Token(Meaning(t), |gap + WriteText(t)|)
  {
    hide AllWritable, WordStart, Argument, Scan;
    var s := WriteText(t) + post;
    Associative(gap, WriteText(t), post);
    assert s[0] == WriteText(t)[0];
    SkipGap(gap, s);
    match t
    case Unquoted(chars) => ScanUnquoted(chars, post);
    case Apostrophes(chars) => ScanApostrophes(chars, post);
    case Quotes(qs) => ScanQuotes(qs, post);
  }

  lemma ScanApostrophes(chars: bytes, post: bytes)
    requires APOS !in chars
    ensures Scan([], [APOS] + chars + [APOS] + post, Bare) == Token(chars, |chars| + 2)
  {
    var s := [APOS] + chars + [APOS] + post;
    assert s[1..] == chars + ([APOS] + post);
    assert Scan([], s, Bare) == Advance(1, Scan([], s[1..], InApostrophes));
    hide Scan;
    ScanLiteral([], chars, [APOS] + post);
    ScanClosing(chars, post);
    assert [] + chars == chars;
  }

  lemma ScanQuotes(qs: seq<Quoted>, post: bytes)
    requires AllWritable(qs, [QUOTE])
    ensures Scan([], [QUOTE] + WriteAll(qs) + [QUOTE] + post, Bare) == Token(Plain(qs), |WriteAll(qs)| + 2)
  {
    hide WriteAll, AllWritable;
    var s := [QUOTE] + WriteAll(qs) + [QUOTE] + post;
    assert s[1..] == WriteAll(qs) + ([QUOTE] + post);
    assert Scan([], s, Bare) == Advance(1, Scan([], s[1..], InQuotes));
    hide Scan;
    QuoteEnds(qs, post);
    ScanQuoted([], qs, [QUOTE] + post);
    ScanClosing(Plain(qs), post);
    assert [] + Plain(qs) == Plain(qs);
  }

  lemma ScanUnquoted(chars: bytes, post: bytes)
    requires TextOk(Unquoted(chars)) && (post != [] ==> EndsBare(post[0]))
    ensures Scan([], chars + post, Bare) == Token(chars, |chars|)
  {
    BareScan([], chars, post);
    assert [] + chars == chars;
    assert Scan(chars, post, Bare) == Token(chars, 0);
  }

  /** A closing quote is no hex digit, whatever follows it. */
  lemma {:induction false} QuoteEnds(qs: seq<Quoted>, post: bytes)
    requires AllWritable(qs, [QUOTE])
    ensures AllWritable(qs, [QUOTE] + post)
  {
    hide WriteOne, Writable;
    if qs != [] {
      QuoteEnds(qs[1..], post);
      var s := WriteAll(qs) + [QUOTE];
      Associative(WriteAll(qs), [QUOTE], post);
      if OpensHex(s + post) {
        assert forall i :: 0 <= i < |s| && i < 4 ==> (s + post)[i] == s[i];
        assert |s| >= 4 ==> OpensHex(s);
        assert s[|s| - 1] == QUOTE;
      }
    }
  }

  /** A quote that is not closed runs to the end of the line. */
  lemma UnclosedQuote(gap: bytes, qs: seq<Quoted>)
    requires IsGap(gap) && AllWritable(qs, [])
    ensures Argument([], gap + ([QUOTE] + WriteAll(qs))) == Token(Plain(qs), |gap| + 1 + |WriteAll(qs)|)
  {
    hide AllWritable, WordStart, Argument;
    var s := [QUOTE] + WriteAll(qs);
    SkipGap(gap, s);
    assert s[1..] == WriteAll(qs) + [];
    ScanQuoted([], qs, []);
    assert [] + Plain(qs) == Plain(qs);
  }

  lemma UnclosedApostrophe(gap: bytes, chars: bytes)
    requires IsGap(gap) && APOS !in chars
    ensures Argument([], gap + ([APOS] + chars)) == Token(chars, |gap| + 1 + |chars|)
  {
    hide WordStart, Argument;
    var s := [APOS] + chars;
    SkipGap(gap, s);
    assert s[1..] == chars + [];
    ScanLiteral([], chars, []);
    assert [] + chars == chars;
  }

  // ---------------------------------------------------------------- a line of tokens

  /** One written token and the blanks before it. */
  datatype Word = Word(gap: bytes, text: Text)

  predicate WordOk(w: Word) { IsGap(w.gap) && TextOk(w.text) }

  /** It may follow a bare token: blanks part them, or the quote does. */
  predicate Parted(w: Word) {
    if w.gap != [] then EndsBare(w.gap[0]) else !w.text.Unquoted?
  }

  predicate AllOk(ws: seq<Word>) {
    && (forall i :: 0 <= i < |ws| ==> WordOk(ws[i]))
    && (forall i :: 0 < i < |ws| && ws[i - 1].text.Unquoted? ==> Parted(ws[i]))
  }

  function WriteWords(ws: seq<Word>): bytes {
    if ws == [] then [] else ws[0].gap + WriteText(ws[0].text) + WriteWords(ws[1..])
  }

  function Texts(ws: seq<Word>): (ts: seq<bytes>)
    ensures |ts| == |ws|
  {
    if ws == [] then [] else [Meaning(ws[0].text)] + Texts(ws[1..])
  }

  lemma FirstWritten(ws: seq<Word>)
    requires AllOk(ws) && ws != []
    ensures Argument([], WriteWords(ws)) == Token(Meaning(ws[0].text), |ws[0].gap + WriteText(ws[0].text)|)
    ensures WriteWords(ws)[|ws[0].gap + WriteText(ws[0].text)|..] == WriteWords(ws[1..])
    ensures AllOk(ws[1..]) && WriteWords(ws) != []
  {
    hide AllWritable, Argument, Meaning, Parted, EndsBare;
    var head, more := ws[0].gap + WriteText(ws[0].text), WriteWords(ws[1..]);
    if |ws| > 1 {
      NextEnds(ws[1], WriteWords(ws[1..][1..]));
      assert more == ws[1].gap + WriteText(ws[1].text) + WriteWords(ws[1..][1..]);
    }
    hide WriteText, TextOk, IsGap;
    ArgumentOfText(ws[0].gap, ws[0].text, more);
    assert (head + more)[|head|..] == more;
  }

  lemma NextEnds(w: Word, more: bytes)
    requires WordOk(w)
    ensures var s := w.gap + WriteText(w.text) + more; s != [] && (Parted(w) ==> EndsBare(s[0]))
  {
    hide AllWritable;
    var s := w.gap + WriteText(w.text) + more;
    assert s[0] == if w.gap != [] then w.gap[0] else WriteText(w.text)[0];
  }

  lemma {:induction false} TokensOfWords(ws: seq<Word>)
    requires AllOk(ws)
    ensures TokensOf(WriteWords(ws)) == Texts(ws)
  {
    hide AllOk, WriteText, Meaning, Argument;
    if ws != [] {
      FirstWritten(ws);
      TokensOfWords(ws[1..]);
    }
  }

  /** The last token does not end in white space that is trimmed off. */
  predicate EndsClean(ws: seq<Word>)
    requires ws != []
  {
    var t := ws[|ws| - 1].text;
    t.Unquoted? && t.chars != [] ==> !IsBlank(t.chars[|t.chars| - 1])
  }

  lemma {:induction false} LastWritten(ws: seq<Word>)
    requires AllOk(ws) && ws != [] && EndsClean(ws)
    ensures CR !in WriteWords(ws) && WriteWords(ws) != []
    ensures !IsSpace(WriteWords(ws)[|WriteWords(ws)| - 1])
    decreases |ws|
  {
    hide AllWritable;
    var head := ws[0].gap + WriteText(ws[0].text);
    NoCRWritten(ws[0]);
    if |ws| == 1 {
      assert ws[1..] == [] && WriteWords(ws) == head;
      var t := WriteText(ws[0].text);
      assert head[|head| - 1] == t[|t| - 1];
    } else {
      assert AllOk(ws[1..]) && EndsClean(ws[1..]);
      LastWritten(ws[1..]);
      var more := WriteWords(ws[1..]);
      assert (head + more)[|head + more| - 1] == more[|more| - 1];
    }
  }

  lemma NoCRWritten(w: Word)
    requires WordOk(w)
    ensures CR !in w.gap + WriteText(w.text)
  {
    hide AllWritable;
    assert CR !in w.gap;
    match w.text
    case Unquoted(chars) => assert EndsBare(CR);
    case Apostrophes(chars) =>
    case Quotes(qs) => QuotedNoCR(qs, [QUOTE]);
  }

  /** Every line of tokens, each of them bare, between apostrophes or double-quoted with
      any mixture of escapes, is read back as exactly the bytes it was written for: as
      nothing if the first of them is empty. */
  lemma InlineRoundTrip(ws: seq<Word>, tail: bytes)
    requires ws != [] && AllOk(ws) && EndsClean(ws) && IsGap(tail)
    ensures InlineOf(WriteWords(ws) + tail + CRLF)
         == if Texts(ws)[0] == [] then None else Some(Cmd(Texts(ws)[0], Texts(ws)[1..]))
  {
    hide AllOk, EndsClean, WriteWords, Meaning, WriteText, Argument, TokensOf, Trimmed;
    var data, line := WriteWords(ws), WriteWords(ws) + tail + CRLF;
    LastWritten(ws);
    assert line[..|data|] == data;
    forall i | |data| <= i < |line| ensures IsSpace(line[i]) {
      if i < |data| + |tail| { assert line[i] == tail[i - |data|]; }
    }
    TrimmedUnique(line, data);
    FirstWritten(ws);
    TokensOfWords(ws[1..]);
    assert Texts(ws) == [Meaning(ws[0].text)] + Texts(ws[1..]);
  }
}
