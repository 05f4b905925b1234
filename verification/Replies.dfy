/** Nested replies: the encoder of resp/value.go and the decoder of redeotest/redeotest.go. */
module Replies {
  import opened Bytes
  import opened Decimal
  import opened Lines
  import opened Syntax
  import opened Delivery
  import opened Readers
  import opened Writers
  import opened Layout
  import opened Framing

  /** A value that ResponseWriter.Append supports. `Int` stands for every integer kind,
      `Text` for strings, byte slices and command arguments, `Float` for the decimal text
      of a floating-point number. The entries of a map are in the order in which the map
      is iterated. */
  datatype Value =
    | Nil
    | Failure(msg: bytes)
    | Bool(b: bool)
    | Int(n: int)
    | Text(text: bytes)
    | Float(text: bytes)
    | Slice(items: seq<Value>)
    | Map(entries: seq<Entry>)

  datatype Entry = Entry(key: Value, val: Value)

  /** The text of an error reply: "ERR " is put in front unless it is there. */
  function ErrorText(msg: bytes): bytes {
    if ERR <= msg then msg else ERR + msg
  }

  /** What Append appends. */
  function Encode(v: Value): bytes
    decreases v, 1
  {
    match v
    case Nil => NIL
    case Failure(msg) => EncodeText(MINUS, ErrorText(msg))
    case Bool(b) => SizeLine(COLON, if b then 1 else 0)
    case Int(n) => SizeLine(COLON, Wrap(n))
    case Text(text) => EncodeBulk(text)
    case Float(text) => EncodeText(PLUS, text)
    case Slice(items) => SizeLine(STAR, |items|) + EncodeItems(items)
    case Map(entries) => SizeLine(STAR, 2 * |entries|) + EncodeEntries(entries)
  }

  function EncodeItems(items: seq<Value>): bytes
    decreases items, 0
  {
    if items == [] then [] else Encode(items[0]) + EncodeItems(items[1..])
  }

  function EncodeEntries(entries: seq<Entry>): bytes
    decreases entries, 0
  {
    if entries == [] then []
    else EncodeEntry(entries[0]) + EncodeEntries(entries[1..])
  }

  function EncodeEntry(e: Entry): bytes
    decreases e, 2
  {
    Encode(e.key) + Encode(e.val)
  }

  // ---------------------------------------------------------------- on the wire

  /** The bytes that a value is sent as. */
  ghost predicate IsEncoded(s: bytes, v: Value)
    decreases v, 1
  {
    match v
    case Nil => s == [36, 45, 49, 13, 10]
    case Failure(msg) => s == [45] + (if [69, 82, 82, 32] <= msg then msg else [69, 82, 82, 32] + msg) + [13, 10]
    case Bool(b) => s == [58, if b then 49 else 48, 13, 10]
    case Int(n) => IsNumberLine(s, 58, Wrap(n))
    case Text(text) => IsBulk(s, text)
    case Float(text) => s == [43] + text + [13, 10]
    case Slice(items) => exists parts :: IsArray(s, parts) && AreEncoded(parts, items)
    case Map(entries) => exists parts :: IsArray(s, parts) && InTurn(parts, entries)
  }

  ghost predicate AreEncoded(parts: seq<bytes>, items: seq<Value>)
    decreases items, 0
  {
    |parts| == |items| && forall i :: 0 <= i < |items| ==> IsEncoded(parts[i], items[i])
  }

  /** A key, its value, the next key and so on. */
  ghost predicate InTurn(parts: seq<bytes>, entries: seq<Entry>)
    decreases entries, 0
  {
    && |parts| == 2 * |entries|
    && forall i :: 0 <= i < |entries| ==> IsPair(parts[2 * i], parts[2 * i + 1], entries[i])
  }

  ghost predicate IsPair(key: bytes, val: bytes, e: Entry)
    decreases e, 2
  {
    IsEncoded(key, e.key) && IsEncoded(val, e.val)
  }

  /** What Append appends is what the value is to be sent as, at any depth. */
  lemma {:induction false} EncodedOnWire(v: Value)
    ensures IsEncoded(Encode(v), v)
    decreases v, 1
  {
    hide IsArray, IsBulk, IsNumberLine;
    match v
    case Bool(b) => SingleDigit(if b then 1 else 0);
    case Int(n) => SizeLineOnWire(SizeLine(COLON, Wrap(n)), COLON, Wrap(n));
    case Text(text) => BulkOnWire(EncodeBulk(text), text);
    case Slice(items) =>
      var parts := ItemsOnWire(items);
      ArrayOnWire(parts);
    case Map(entries) =>
      var parts := EntriesOnWire(entries);
      ArrayOnWire(parts);
    case _ =>
  }

  lemma SingleDigit(n: nat)
    requires n < 10
    ensures SizeLine(COLON, n) == [58, 48 + n, 13, 10]
  {
  }

  lemma {:induction false} ItemsOnWire(items: seq<Value>) returns (parts: seq<bytes>)
    ensures AreEncoded(parts, items) && Flatten(parts) == EncodeItems(items)
    decreases items, 0
  {
    hide Encode, IsEncoded;
    parts := [];
    if items != [] {
      EncodedOnWire(items[0]);
      var more := ItemsOnWire(items[1..]);
      parts := [Encode(items[0])] + more;
      assert parts[1..] == more;
    }
  }

  lemma {:induction false} EntriesOnWire(entries: seq<Entry>) returns (parts: seq<bytes>)
    ensures InTurn(parts, entries) && Flatten(parts) == EncodeEntries(entries)
    decreases entries, 0
  {
    hide Encode, IsPair;
    parts := [];
    if entries != [] {
      var e := entries[0];
      PairOnWire(e);
      var more := EntriesOnWire(entries[1..]);
      var pair := [Encode(e.key), Encode(e.val)];
      parts := pair + more;
      assert parts[1..][1..] == more && parts[1..][0] == Encode(e.val);
      forall i | 0 <= i < |entries|
        ensures IsPair(parts[2 * i], parts[2 * i + 1], entries[i])
      {
        if i > 0 {
          assert parts[2 * i] == more[2 * (i - 1)] && parts[2 * i + 1] == more[2 * (i - 1) + 1];
          assert entries[i] == entries[1..][i - 1];
        }
      }
    }
  }

  lemma PairOnWire(e: Entry)
    ensures IsPair(Encode(e.key), Encode(e.val), e)
    decreases e, 2
  {
    EncodedOnWire(e.key);
    EncodedOnWire(e.val);
  }

  /** An error text that has the prefix is sent as it is, any other with the prefix once. */
  lemma ErrorOnWire(msg: bytes)
    ensures [69, 82, 82, 32] <= msg ==> Encode(Failure(msg)) == [45] + msg + [13, 10]
    ensures !([69, 82, 82, 32] <= msg) ==> Encode(Failure(msg)) == [45, 69, 82, 82, 32] + msg + [13, 10]
  {
  }

  method Append(w: Writer, v: Value)
    requires w.Valid()
    modifies w, w.data
    ensures w.Extends(Encode(v))
    decreases v, 1
  {
    hide SizeLine, EncodeBulk, EncodeText;
    match v
    case Nil => w.AppendNil();
    case Failure(msg) =>
      var text := msg;
      if !(ERR <= msg) { text := ERR + msg; }
      w.AppendError(text);
    case Bool(b) =>
      if b { w.AppendInt(1); } else { w.AppendInt(0); }
    case Int(n) => w.AppendInt(Wrap(n));
    case Text(text) => w.AppendBulk(text);
    case Float(text) => w.AppendInline(text);
    case Slice(items) => AppendItems(w, v);
    case Map(entries) => AppendEntries(w, v);
  }

  method AppendItems(w: Writer, v: Value)
    requires w.Valid() && v.Slice?
    modifies w, w.data
    ensures w.Extends(Encode(v))
    decreases v, 0
  {
    hide SizeLine, Encode, EncodeItems;
    var items := v.items;
    EncodeNone(items, []);
    w.AppendArrayLen(|items|);
    ghost var sent := SizeLine(STAR, |items|);
    assert sent + EncodeItems(items[..0]) == sent;
    for i := 0 to |items|
      invariant w.Extends(sent) && sent == SizeLine(STAR, |items|) + EncodeItems(items[..i])
    {
      EncodeItemsSnoc(items, i);
      Append(w, items[i]);
      sent := sent + Encode(items[i]);
    }
    EncodeSlice(v);
  }

  method AppendEntries(w: Writer, v: Value)
    requires w.Valid() && v.Map?
    modifies w, w.data
    ensures w.Extends(Encode(v))
    decreases v, 0
  {
    hide SizeLine, Encode, EncodeEntry, EncodeEntries;
    var entries := v.entries;
    EncodeNone([], entries);
    w.AppendArrayLen(2 * |entries|);
    ghost var sent := SizeLine(STAR, 2 * |entries|);
    assert sent + EncodeEntries(entries[..0]) == sent;
    for i := 0 to |entries|
      invariant w.Extends(sent) && sent == SizeLine(STAR, 2 * |entries|) + EncodeEntries(entries[..i])
    {
      EncodeEntriesSnoc(entries, i);
      AppendEntry(w, entries[i]);
      sent := sent + EncodeEntry(entries[i]);
    }
    EncodeMap(v);
  }

  method AppendEntry(w: Writer, e: Entry)
    requires w.Valid()
    modifies w, w.data
    ensures w.Extends(EncodeEntry(e))
    decreases e, 2
  {
    hide Encode;
    Append(w, e.key);
    Append(w, e.val);
  }

  lemma EncodeNone(items: seq<Value>, entries: seq<Entry>)
    ensures EncodeItems(items[..0]) == [] && EncodeEntries(entries[..0]) == []
  {
  }

  lemma EncodeSlice(v: Value)
    requires v.Slice?
    ensures Encode(v) == SizeLine(STAR, |v.items|) + EncodeItems(v.items[..|v.items|])
  {
    assert v.items[..|v.items|] == v.items;
  }

  lemma EncodeMap(v: Value)
    requires v.Map?
    ensures Encode(v) == SizeLine(STAR, 2 * |v.entries|) + EncodeEntries(v.entries[..|v.entries|])
  {
    assert v.entries[..|v.entries|] == v.entries;
  }

  lemma {:induction false} EncodeItemsSnoc(items: seq<Value>, i: nat)
    requires i < |items|
    ensures EncodeItems(items[..i + 1]) == EncodeItems(items[..i]) + Encode(items[i])
    decreases i
  {
    hide Encode;
    if i == 0 {
      assert items[..1] == [items[0]] && items[..1][1..] == [];
    } else {
      assert items[..i + 1][1..] == items[1..][..i] && items[..i][1..] == items[1..][..i - 1];
      EncodeItemsSnoc(items[1..], i - 1);
    }
  }

  lemma {:induction false} EncodeEntriesSnoc(entries: seq<Entry>, i: nat)
    requires i < |entries|
    ensures EncodeEntries(entries[..i + 1])
         == EncodeEntries(entries[..i]) + EncodeEntry(entries[i])
    decreases i
  {
    hide EncodeEntry;
    if i == 0 {
      assert entries[..1] == [entries[0]] && entries[..1][1..] == [];
    } else {
      assert entries[..i + 1][1..] == entries[1..][..i] && entries[..i][1..] == entries[1..][..i - 1];
      EncodeEntriesSnoc(entries[1..], i - 1);
    }
  }

  // ---------------------------------------------------------------- decoding

  /** What parseResult returns. Bulk and inline replies are both Go strings. */
  datatype Reply = NilReply | ErrorReply(text: bytes) | IntReply(n: int) | TextReply(text: bytes) | ArrayReply(items: seq<Reply>)

  function Convert<T, U>(p: Parsed<T>, f: T -> U): Parsed<U> {
    match p
    case Incomplete => Incomplete
    case Bad(e) => Bad(e)
    case Done(v, rest) => Done(f(v), rest)
  }

  function ParseReply(s: bytes): (p: Parsed<Reply>)
    ensures p.Done? ==> |p.rest| < |s|
    decreases |s|, 0
  {
    match TypeOf(s)
    case None => Incomplete
    case Some(BulkReply) => Convert(ParseBulk(s), t => TextReply(t))
    case Some(InlineReply) => Convert(ParseText(s, PLUS), t => TextReply(t))
    case Some(ErrorReply) => Convert(ParseText(s, MINUS), t => Reply.ErrorReply(t))
    case Some(IntReply) => Convert(ParseInteger(s), n => Reply.IntReply(n))
    case Some(NilReply) => Convert(ParseNil(s), u => Reply.NilReply)
    case Some(ArrayReply) =>
      (match ParseHeader(s, STAR, InvalidMultiBulkLength)
       case Incomplete => Incomplete
       case Bad(e) => Bad(e)
       case Done(n, rest) => Convert(ParseReplies(rest, n), rs => Reply.ArrayReply(rs)))
    case Some(UnknownReply) => Bad(Unexpected)
  }

  function ParseReplies(s: bytes, k: nat): (p: Parsed<seq<Reply>>)
    ensures p.Done? ==> |p.rest| <= |s| && |p.value| == k
    decreases |s|, k + 1
  {
    if k == 0 then Done([], s)
    else
      match ParseReply(s)
      case Incomplete => Incomplete
      case Bad(e) => Bad(e)
      case Done(r, rest) =>
        match ParseReplies(rest, k - 1)
        case Incomplete => Incomplete
        case Bad(e) => Bad(e)
        case Done(rs, rest') => Done([r] + rs, rest')
  }

  /** No chunk border falls inside a header or a line of the reply. */
  ghost predicate ClearReply(s: bytes, p: Plan)
    decreases |s|, 0
  {
    && ClearLine(s, p)
    && (TypeOf(s) == Some(BulkReply) ==> ClearBulk(s, p))
    && (TypeOf(s) == Some(ReplyType.ArrayReply) ==>
          var h := ParseHeader(s, STAR, InvalidMultiBulkLength);
          h.Done? ==> ClearReplies(h.rest, h.value, p))
  }

  ghost predicate ClearReplies(s: bytes, k: nat, p: Plan)
    decreases |s|, k + 1
  {
    k > 0 ==>
      && ClearReply(s, p)
      && (ParseReply(s).Done? ==> ClearReplies(ParseReply(s).rest, k - 1, p))
  }

  lemma ClearReplyBytes(s: bytes, p: Plan)
    requires ClearReply(s, p)
    ensures |s| >= p.low + 2
  {
  }

  /** A reply that is no array, of the type that was peeked. */
  method ReadLeaf(r: Reader, typ: ReplyType) returns (res: Result<Reply>)
    requires r.Valid() && TypeOf(r.Unread()) == Some(typ) && !typ.ArrayReply?
    modifies r, r.buf
    ensures r.Kept() && |r.Unread()| <= |old(r.Unread())| && r.Faults(Lost(res))
    ensures Agrees(ParseReply(old(r.Unread())), res, r.Unread(), r.rd)
    ensures res.Ok? ==> !res.value.ArrayReply? && (res.value.ErrorReply? <==> typ.ErrorReply?)
    ensures old(r.Smooth() && ClearReply(r.Unread(), r.plan)) ==> r.Smooth() && !Lost(res)
  {
    hide ParseBulk, ParseText, ParseInteger, ParseNil, ParseHeader, ClearLine, ClearBulk, ClearReplies, TypeOf, Reader.Smooth, Reader.Unread;
    match typ
    case BulkReply =>
      var t := r.ReadBulkString();
      res := if t.Ok? then Ok(TextReply(t.value)) else Err(t.error);
    case InlineReply =>
      var t := r.ReadInlineString();
      res := if t.Ok? then Ok(TextReply(t.value)) else Err(t.error);
    case IntReply =>
      var n := r.ReadInt();
      res := if n.Ok? then Ok(Reply.IntReply(n.value)) else Err(n.error);
    case ErrorReply =>
      var t := r.ReadError();
      res := if t.Ok? then Ok(Reply.ErrorReply(t.value)) else Err(t.error);
    case NilReply =>
      var u := r.ReadNil();
      res := if u.Ok? then Ok(Reply.NilReply) else Err(u.error);
    case UnknownReply =>
      res := Err(Unexpected);
  }

  /** parseResult. */
  method ParseResult(r: Reader) returns (res: Result<Reply>)
    requires r.Valid()
    modifies r, r.buf
    ensures r.Kept() && r.Faults(Lost(res))
    ensures old(r.Unread()) == [] ==> res == Err(IO(r.rd.end)) && r.Unread() == []
    ensures Agrees(ParseReply(old(r.Unread())), res, r.Unread(), r.rd)
    ensures old(r.Smooth() && ClearReply(r.Unread(), r.plan)) ==> r.Smooth() && !Lost(res)
    decreases |r.Unread()|, 0
  {
    hide ParseBulk, ParseText, ParseInteger, ParseNil, ParseHeader, ParseReplies, ClearLine, ClearBulk, ClearReplies;
    hide TypeOf, Reader.Smooth, Reader.Unread;
    if ClearReply(r.Unread(), r.plan) { ClearReplyBytes(r.Unread(), r.plan); }
    var typ := r.PeekType();
    if typ.Err? { return Err(typ.error); }
    if typ.value != ReplyType.ArrayReply {
      res := ReadLeaf(r, typ.value);
      return;
    }
    var sz := r.ReadArrayLen();
    if sz.Err? { return Err(sz.error); }
    var vv := ParseItems(r, sz.value);
    return if vv.Ok? then Ok(Reply.ArrayReply(vv.value)) else Err(vv.error);
  }

  /** The loop of parseResult over the elements of an array. */
  method ParseItems(r: Reader, sz: nat) returns (res: Result<seq<Reply>>)
    requires r.Valid()
    modifies r, r.buf
    ensures r.Kept() && r.Faults(Lost(res))
    ensures Agrees(ParseReplies(old(r.Unread()), sz), res, r.Unread(), r.rd)
    ensures old(r.Smooth() && ClearReplies(r.Unread(), sz, r.plan)) ==> r.Smooth() && !Lost(res)
    decreases |r.Unread()|, 1
  {
    hide ParseReply, ParseReplies, ClearReply, Reader.Unread, Reader.Smooth;
    ghost var s, planned := r.Unread(), r.Smooth() && ClearReplies(r.Unread(), sz, r.plan);
    var vv: seq<Reply> := [];
    NoReplies(s);
    for i := 0 to sz
      invariant r.Kept() && r.Faults(false) && ParseReplies(s, i) == Done(vv, r.Unread())
      invariant planned ==> r.Smooth() && ClearReplies(r.Unread(), sz - i, r.plan)
    {
      RepliesStep(s, i, sz, vv, r.Unread());
      ghost var u := r.Unread();
      var v := ParseResult(r);
      if v.Err? { return Err(v.error); }
      vv := vv + [v.value];
    }
    return Ok(vv);
  }

  lemma NoReplies(s: bytes)
    ensures ParseReplies(s, 0) == Done([], s)
  {
  }

  lemma {:induction false} RepliesStep(s: bytes, i: nat, n: nat, rs: seq<Reply>, u: bytes)
    requires i < n && ParseReplies(s, i) == Done(rs, u)
    ensures |u| <= |s|
    ensures ParseReply(u).Done? ==> ParseReplies(s, i + 1) == Done(rs + [ParseReply(u).value], ParseReply(u).rest)
    ensures ParseReply(u).Incomplete? ==> ParseReplies(s, n).Incomplete?
    ensures ParseReply(u).Bad? ==> ParseReplies(s, n) == Bad(ParseReply(u).error)
    decreases i
  {
    hide ParseReply;
    if i > 0 {
      var rest := ParseReply(s).rest;
      RepliesStep(rest, i - 1, n - 1, ParseReplies(rest, i - 1).value, u);
      var rs' := ParseReplies(rest, i - 1).value;
      assert rs == [ParseReply(s).value] + rs';
      if ParseReply(u).Done? {
        assert rs + [ParseReply(u).value] == [ParseReply(s).value] + (rs' + [ParseReply(u).value]);
      }
    } else if ParseReply(s).Done? {
      assert rs + [ParseReply(s).value] == [ParseReply(s).value] + [];
      assert ParseReplies(ParseReply(s).rest, 0) == Done([], ParseReply(s).rest);
    }
  }

  // ---------------------------------------------------------------- round trip

  /** Text that fits a one-line reply: it holds no CR and does not end in white space. */
  predicate LineText(text: bytes) {
    CR !in text && (text != [] ==> !IsSpace(text[|text| - 1]))
  }

  /** A status or error text is read back as it was written exactly if it fits a line. */
  lemma TextRoundTrip(prefix: byte, text: bytes, suffix: bytes)
    requires !IsSpace(prefix)
    ensures ParseText(EncodeText(prefix, text) + suffix, prefix) == Done(text, suffix) <==> LineText(text)
  {
    hide MessageOf, Trimmed, SplitLine;
    var s := EncodeText(prefix, text) + suffix;
    if CR in text {
      LineBrokenOff(prefix, text, suffix);
      assert |SplitLine(s).rest| > |suffix|;
    } else {
      LineWhole(prefix, text, suffix);
      MessageOfLine(prefix, text);
      if LineText(text) { TrimmedUnique(text, text); }
    }
  }

  /** The reply that a value must come back as. */
  function Expected(v: Value): Reply
    decreases v, 1
  {
    match v
    case Nil => Reply.NilReply
    case Failure(msg) => Reply.ErrorReply(ErrorText(msg))
    case Bool(b) => Reply.IntReply(if b then 1 else 0)
    case Int(n) => Reply.IntReply(Wrap(n))
    case Text(text) => TextReply(text)
    case Float(text) => TextReply(text)
    case Slice(items) => Reply.ArrayReply(ExpectedItems(items))
    case Map(entries) => Reply.ArrayReply(ExpectedEntries(entries))
  }

  function ExpectedItems(items: seq<Value>): (rs: seq<Reply>)
    ensures |rs| == |items|
    decreases items, 0
  {
    if items == [] then [] else [Expected(items[0])] + ExpectedItems(items[1..])
  }

  /** Keys and values in turn. */
  function ExpectedEntries(entries: seq<Entry>): (rs: seq<Reply>)
    ensures |rs| == 2 * |entries|
    decreases entries, 0
  {
    if entries == [] then [] else ExpectedEntry(entries[0]) + ExpectedEntries(entries[1..])
  }

  function ExpectedEntry(e: Entry): (rs: seq<Reply>)
    ensures |rs| == 2
    decreases e, 2
  {
    [Expected(e.key), Expected(e.val)]
  }

  /** Every text that travels on a line, at any depth, fits one. */
  predicate Supported(v: Value)
    decreases v, 1
  {
    match v
    case Failure(msg) => LineText(ErrorText(msg))
    case Float(text) => LineText(text)
    case Slice(items) => SupportedItems(items)
    case Map(entries) => SupportedEntries(entries)
    case _ => true
  }

  predicate SupportedItems(items: seq<Value>)
    decreases items, 0
  {
    items != [] ==> Supported(items[0]) && SupportedItems(items[1..])
  }

  predicate SupportedEntries(entries: seq<Entry>)
    decreases entries, 0
  {
    entries != [] ==> SupportedEntry(entries[0]) && SupportedEntries(entries[1..])
  }

  predicate SupportedEntry(e: Entry)
    decreases e, 2
  {
    Supported(e.key) && Supported(e.val)
  }

  /** Decoding what Append wrote gives the value back and leaves exactly what follows. */
  lemma {:induction false} ReplyRoundTrip(v: Value, suffix: bytes)
    requires Supported(v) && |Encode(v)| <= MAX_INT64
    ensures ParseReply(Encode(v) + suffix) == Done(Expected(v), suffix)
    decreases v, 1
  {
    match v
    case Slice(items) => SliceRoundTrip(v, suffix);
    case Map(entries) => MapRoundTrip(v, suffix);
    case _ => LeafRoundTrip(v, suffix);
  }

  lemma LeafRoundTrip(v: Value, suffix: bytes)
    requires Supported(v) && |Encode(v)| <= MAX_INT64 && !v.Slice? && !v.Map?
    ensures ParseReply(Encode(v) + suffix) == Done(Expected(v), suffix)
  {
    hide ParseBulk, ParseText, ParseInteger, ParseNil, ErrorText;
    match v
    case Nil => NilRoundTrip(suffix);
    case Failure(msg) =>
      TextRoundTrip(MINUS, ErrorText(msg), suffix);
      TypeOfPrefix(MINUS, Encode(v) + suffix);
    case Bool(b) => IntReplyRoundTrip(if b then 1 else 0, suffix);
    case Int(n) => IntReplyRoundTrip(Wrap(n), suffix);
    case Text(text) =>
      EncodeBulkLength(text);
      BulkRoundTrip(text, suffix);
      TypeOfBulk(text, suffix);
    case Float(text) =>
      TextRoundTrip(PLUS, text, suffix);
      TypeOfPrefix(PLUS, Encode(v) + suffix);
  }

  lemma TypeOfPrefix(prefix: byte, s: bytes)
    requires s != [] && s[0] == prefix && prefix in {PLUS, MINUS, COLON, STAR}
    ensures TypeOf(s) == Some(if prefix == PLUS then InlineReply else if prefix == MINUS then ReplyType.ErrorReply
                              else if prefix == COLON then ReplyType.IntReply else ReplyType.ArrayReply)
  {
  }

  lemma TypeOfBulk(text: bytes, suffix: bytes)
    ensures TypeOf(EncodeBulk(text) + suffix) == Some(BulkReply)
  {
    var s := EncodeBulk(text) + suffix;
    assert s[0] == DOLLAR && s[1] == FormatInt(|text|)[0];
  }

  lemma NilRoundTrip(suffix: bytes)
    ensures ParseReply(NIL + suffix) == Done(Reply.NilReply, suffix)
  {
    var s := NIL + suffix;
    FindCRUnique(s, 3);
    assert s[..5] == NIL && s[5..] == suffix;
  }

  lemma IntReplyRoundTrip(n: int, suffix: bytes)
    requires IsInt64(n)
    ensures ParseReply(SizeLine(COLON, n) + suffix) == Done(Reply.IntReply(n), suffix)
  {
    hide IntOf;
    SplitSizeLine(COLON, n, suffix);
    IntRoundTrip(n);
    TypeOfPrefix(COLON, SizeLine(COLON, n) + suffix);
  }

  lemma {:induction false} SliceRoundTrip(v: Value, suffix: bytes)
    requires v.Slice? && Supported(v) && |Encode(v)| <= MAX_INT64
    ensures ParseReply(Encode(v) + suffix) == Done(Expected(v), suffix)
    decreases v, 0
  {
    hide SizeLine, ParseHeader, ParseReplies, EncodeItems;
    var items := v.items;
    var body := EncodeItems(items) + suffix;
    EncodeItemsLength(items);
    assert Encode(v) + suffix == SizeLine(STAR, |items|) + body;
    HeaderRoundTrip(STAR, |items|, InvalidMultiBulkLength, body);
    PrefixOfSizeLine(STAR, |items|, body);
    ItemsRoundTrip(items, suffix);
  }

  lemma {:induction false} MapRoundTrip(v: Value, suffix: bytes)
    requires v.Map? && Supported(v) && |Encode(v)| <= MAX_INT64
    ensures ParseReply(Encode(v) + suffix) == Done(Expected(v), suffix)
    decreases v, 0
  {
    hide SizeLine, ParseHeader, ParseReplies, EncodeEntries;
    var entries := v.entries;
    var body := EncodeEntries(entries) + suffix;
    EncodeEntriesLength(entries);
    assert Encode(v) + suffix == SizeLine(STAR, 2 * |entries|) + body;
    HeaderRoundTrip(STAR, 2 * |entries|, InvalidMultiBulkLength, body);
    PrefixOfSizeLine(STAR, 2 * |entries|, body);
    EntriesRoundTrip(entries, suffix);
  }

  lemma PrefixOfSizeLine(prefix: byte, n: int, rest: bytes)
    ensures SizeLine(prefix, n) + rest != [] && (SizeLine(prefix, n) + rest)[0] == prefix
  {
  }

  lemma {:induction false} ItemsRoundTrip(items: seq<Value>, suffix: bytes)
    requires SupportedItems(items) && |EncodeItems(items)| <= MAX_INT64
    ensures ParseReplies(EncodeItems(items) + suffix, |items|) == Done(ExpectedItems(items), suffix)
    decreases items, 0
  {
    hide ParseReply, Encode, Expected;
    if items == [] {
      assert EncodeItems(items) + suffix == suffix;
    } else {
      var tail := EncodeItems(items[1..]) + suffix;
      assert EncodeItems(items) + suffix == Encode(items[0]) + tail;
      ReplyRoundTrip(items[0], tail);
      ItemsRoundTrip(items[1..], suffix);
    }
  }

  lemma {:induction false} EntriesRoundTrip(entries: seq<Entry>, suffix: bytes)
    requires SupportedEntries(entries) && |EncodeEntries(entries)| <= MAX_INT64
    ensures ParseReplies(EncodeEntries(entries) + suffix, 2 * |entries|) == Done(ExpectedEntries(entries), suffix)
    decreases entries, 0
  {
    hide ParseReply, ParseReplies, Encode, Expected;
    if entries == [] {
      NoReplies(suffix);
      assert EncodeEntries(entries) + suffix == suffix;
    } else {
      var e := entries[0];
      var tail := EncodeEntries(entries[1..]) + suffix;
      assert EncodeEntries(entries) + suffix == EncodeEntry(e) + tail by { hide EncodeEntry; }
      EntriesRoundTrip(entries[1..], suffix);
      EntryRoundTrip(e, tail, 2 * |entries| - 2);
      hide EncodeEntries, EncodeEntry;
      assert [Expected(e.key)] + ([Expected(e.val)] + ExpectedEntries(entries[1..])) == ExpectedEntries(entries);
    }
  }

  lemma {:induction false} EntryRoundTrip(e: Entry, tail: bytes, k: nat)
    requires SupportedEntry(e) && |EncodeEntry(e)| <= MAX_INT64
    ensures ParseReplies(tail, k).Done? ==>
              ParseReplies(EncodeEntry(e) + tail, k + 2)
                == Done([Expected(e.key)] + ([Expected(e.val)] + ParseReplies(tail, k).value), ParseReplies(tail, k).rest)
    decreases e, 2
  {
    hide ParseReply, Encode, Expected;
    assert EncodeEntry(e) + tail == Encode(e.key) + (Encode(e.val) + tail);
    ReplyRoundTrip(e.key, Encode(e.val) + tail);
    ReplyRoundTrip(e.val, tail);
  }

  lemma {:induction false} EncodeItemsLength(items: seq<Value>)
    ensures |items| <= |EncodeItems(items)|
    decreases items
  {
    if items != [] { EncodeItemsLength(items[1..]); EncodeLength(items[0]); }
  }

  lemma {:induction false} EncodeEntriesLength(entries: seq<Entry>)
    ensures 2 * |entries| <= |EncodeEntries(entries)|
    decreases entries
  {
    if entries != [] {
      EncodeEntriesLength(entries[1..]);
      EncodeLength(entries[0].key);
      EncodeLength(entries[0].val);
    }
  }

  lemma EncodeLength(v: Value)
    ensures |Encode(v)| >= 3
  {
  }

  /** And for no other value: where some text does not fit its line, what comes back is
      not the value, or the stream is left two bytes early. */
  lemma {:induction false} ReplyFaithful(v: Value, suffix: bytes)
    requires |Encode(v)| <= MAX_INT64
    ensures Supported(v) <==> ParseReply(Encode(v) + suffix) == Done(Expected(v), suffix)
    ensures !Supported(v) ==> OutOfStep(ParseReply(Encode(v) + suffix), Expected(v), suffix)
    decreases v, 1
  {
    hide ParseReply, Encode, Expected, Supported;
    if Supported(v) {
      ReplyRoundTrip(v, suffix);
    } else {
      match v
      case Slice(items) => SliceUnsupported(v, suffix);
      case Map(entries) => MapUnsupported(v, suffix);
      case _ => LeafUnsupported(v, suffix);
      assert CRLF + suffix != suffix by { assert |CRLF + suffix| == 2 + |suffix|; }
    }
  }

  /** If this is the value at all, its last CRLF is still unread. */
  predicate OutOfStep<T(==)>(p: Parsed<T>, v: T, suffix: bytes) {
    p.Done? && p.value == v ==> p.rest == CRLF + suffix
  }

  lemma LeafUnsupported(v: Value, suffix: bytes)
    requires !Supported(v) && !v.Slice? && !v.Map?
    ensures OutOfStep(ParseReply(Encode(v) + suffix), Expected(v), suffix)
  {
    hide ParseText, ErrorText;
    var prefix, text := if v.Float? then PLUS else MINUS, if v.Float? then v.text else ErrorText(v.msg);
    TypeOfPrefix(prefix, Encode(v) + suffix);
    TextUnsupported(prefix, text, suffix);
  }

  lemma TextUnsupported(prefix: byte, text: bytes, suffix: bytes)
    requires !IsSpace(prefix) && !LineText(text)
    ensures OutOfStep(ParseText(EncodeText(prefix, text) + suffix, prefix), text, suffix)
  {
    hide Trimmed, MessageOf, SplitLine;
    if CR in text {
      LineBrokenOff(prefix, text, suffix);
      MessageBrokenOff(prefix, text, suffix);
    } else {
      LineWhole(prefix, text, suffix);
      MessageOfLine(prefix, text);
    }
  }

  /** A CR in the text ends the line right behind the byte that follows it. */
  lemma LineBrokenOff(prefix: byte, text: bytes, suffix: bytes)
    requires !IsSpace(prefix) && CR in text
    ensures var s, i := EncodeText(prefix, text) + suffix, FindCR(text);
      i < |text| && i + 3 <= |s| && SplitLine(s) == Done(s[..i + 3], s[i + 3..])
  {
    var s, i := EncodeText(prefix, text) + suffix, FindCR(text);
    assert forall k :: 0 <= k < |text| ==> s[k + 1] == text[k];
    FindCRUnique(s, i + 1);
  }

  lemma LineWhole(prefix: byte, text: bytes, suffix: bytes)
    requires !IsSpace(prefix) && CR !in text
    ensures SplitLine(EncodeText(prefix, text) + suffix) == Done(EncodeText(prefix, text), suffix)
  {
    var s := EncodeText(prefix, text) + suffix;
    assert forall k :: 0 <= k < |text| ==> s[k + 1] == text[k];
    FindCRUnique(s, |text| + 1);
    assert s[..|text| + 3] == EncodeText(prefix, text) && s[|text| + 3..] == suffix;
  }

  /** Such a line holds the whole text only if the two bytes at the CR are its last. */
  lemma MessageBrokenOff(prefix: byte, text: bytes, suffix: bytes)
    requires !IsSpace(prefix) && CR in text
    requires FindCR(text) < |text|
    ensures var s, i := EncodeText(prefix, text) + suffix, FindCR(text);
      && i + 3 <= |s|
      && (MessageOf(s[..i + 3], prefix) == Ok(text) ==> s[i + 3..] == CRLF + suffix)
  {
    hide Trimmed, FindCR;
    var s, i := EncodeText(prefix, text) + suffix, FindCR(text);
    var line := s[..i + 3];
    if i + 2 == |text| {
      assert s[i + 3..] == CRLF + suffix;
    } else if i + 1 == |text| {
      assert text[i] == CR && line[i + 1] == text[i] && line[i + 2] == CR;
      assert |Trimmed(line)| <= i + 1;
    }
  }

  /** The first of several replies, and the others. */
  lemma FirstReply(s: bytes, k: nat)
    ensures var p, q := ParseReply(s), ParseReplies(s, k + 1);
      if p.Done? && ParseReplies(p.rest, k).Done? then
        q == Done([p.value] + ParseReplies(p.rest, k).value, ParseReplies(p.rest, k).rest)
      else
        !q.Done?
  {
    hide ParseReply;
  }

  lemma StopsAtCR(s: bytes, k: nat)
    ensures ParseReplies(CRLF + s, k + 1) == Bad(Unexpected)
  {
  }

  lemma {:induction false} SliceUnsupported(v: Value, suffix: bytes)
    requires v.Slice? && !Supported(v) && |Encode(v)| <= MAX_INT64
    ensures OutOfStep(ParseReply(Encode(v) + suffix), Expected(v), suffix)
    decreases v, 0
  {
    hide SizeLine, ParseHeader, ParseReplies, EncodeItems;
    var items := v.items;
    var body := EncodeItems(items) + suffix;
    EncodeItemsLength(items);
    assert Encode(v) + suffix == SizeLine(STAR, |items|) + body;
    HeaderRoundTrip(STAR, |items|, InvalidMultiBulkLength, body);
    PrefixOfSizeLine(STAR, |items|, body);
    ItemsUnsupported(items, suffix);
  }

  lemma {:induction false} MapUnsupported(v: Value, suffix: bytes)
    requires v.Map? && !Supported(v) && |Encode(v)| <= MAX_INT64
    ensures OutOfStep(ParseReply(Encode(v) + suffix), Expected(v), suffix)
    decreases v, 0
  {
    hide SizeLine, ParseHeader, ParseReplies, EncodeEntries;
    var entries := v.entries;
    var body := EncodeEntries(entries) + suffix;
    EncodeEntriesLength(entries);
    assert Encode(v) + suffix == SizeLine(STAR, 2 * |entries|) + body;
    HeaderRoundTrip(STAR, 2 * |entries|, InvalidMultiBulkLength, body);
    PrefixOfSizeLine(STAR, 2 * |entries|, body);
    EntriesUnsupported(entries, suffix);
  }

  lemma {:induction false} ItemsUnsupported(items: seq<Value>, suffix: bytes)
    requires !SupportedItems(items) && |EncodeItems(items)| <= MAX_INT64
    ensures OutOfStep(ParseReplies(EncodeItems(items) + suffix, |items|), ExpectedItems(items), suffix)
    decreases items, 0
  {
    hide ParseReply, ParseReplies, Encode, Expected, Supported;
    var tail := EncodeItems(items[1..]) + suffix;
    assert EncodeItems(items) + suffix == Encode(items[0]) + tail;
    FirstReply(EncodeItems(items) + suffix, |items| - 1);
    ReplyFaithful(items[0], tail);
    if Supported(items[0]) {
      ItemsUnsupported(items[1..], suffix);
      var q := ParseReplies(tail, |items| - 1);
      if q.Done? { assert ([Expected(items[0])] + q.value)[1..] == q.value; }
      assert ExpectedItems(items)[1..] == ExpectedItems(items[1..]);
    } else if |items| == 1 {
      assert tail == suffix;
      NoReplies(CRLF + suffix);
    } else {
      StopsAtCR(tail, |items| - 2);
    }
  }

  lemma {:induction false} EntriesUnsupported(entries: seq<Entry>, suffix: bytes)
    requires !SupportedEntries(entries) && |EncodeEntries(entries)| <= MAX_INT64
    ensures OutOfStep(ParseReplies(EncodeEntries(entries) + suffix, 2 * |entries|), ExpectedEntries(entries), suffix)
    decreases entries, 0
  {
    hide ParseReply, ParseReplies, Encode, EncodeEntry, Expected, ExpectedEntry, SupportedEntry;
    var e, k := entries[0], 2 * |entries[1..]|;
    var tail := EncodeEntries(entries[1..]) + suffix;
    assert EncodeEntries(entries) + suffix == EncodeEntry(e) + tail;
    if SupportedEntry(e) {
      EntriesUnsupported(entries[1..], suffix);
      EntryRoundTrip(e, tail, k);
      EntryThenRest(e, tail, k);
      if ParseReplies(tail, k).Done? { EntryFirst(e, ParseReplies(tail, k).value, ExpectedEntries(entries[1..])); }
    } else {
      EntryUnsupported(e, tail, k);
      assert ExpectedEntries(entries)[..2] == ExpectedEntry(e);
      if |entries| == 1 { assert tail == suffix; }
    }
  }

  lemma EntryFirst(e: Entry, q: seq<Reply>, more: seq<Reply>)
    ensures [Expected(e.key)] + ([Expected(e.val)] + q) == ExpectedEntry(e) + more ==> q == more
  {
    assert ([Expected(e.key)] + ([Expected(e.val)] + q))[2..] == q;
    assert (ExpectedEntry(e) + more)[2..] == more;
  }

  /** Where the rest fails to parse, so does the whole. */
  lemma EntryThenRest(e: Entry, tail: bytes, k: nat)
    requires SupportedEntry(e) && |EncodeEntry(e)| <= MAX_INT64
    ensures ParseReplies(EncodeEntry(e) + tail, k + 2).Done? ==> ParseReplies(tail, k).Done?
    decreases e, 2
  {
    hide ParseReply, Encode, Expected;
    assert EncodeEntry(e) + tail == Encode(e.key) + (Encode(e.val) + tail);
    ReplyRoundTrip(e.key, Encode(e.val) + tail);
    ReplyRoundTrip(e.val, tail);
    assert ParseReplies(Encode(e.val) + tail, k + 1).Done? ==> ParseReplies(tail, k).Done?;
  }

  lemma {:induction false} EntryUnsupported(e: Entry, tail: bytes, k: nat)
    requires !SupportedEntry(e) && |EncodeEntry(e)| <= MAX_INT64
    ensures var p := ParseReplies(EncodeEntry(e) + tail, k + 2);
      p.Done? && p.value[..2] == ExpectedEntry(e) ==> k == 0 && p.rest == CRLF + tail
    decreases e, 2
  {
    hide ParseReply, Encode, Expected, Supported;
    var s := Encode(e.val) + tail;
    assert EncodeEntry(e) + tail == Encode(e.key) + s;
    var p, q := ParseReplies(Encode(e.key) + s, k + 2), ExpectedEntry(e);
    if p.Done? && p.value[..2] == q { assert p.value[0] == q[..2][0] && p.value[1] == q[..2][1]; }
    ReplyFaithful(e.key, s);
    if Supported(e.key) {
      ReplyFaithful(e.val, tail);
      var t := ParseReplies(s, k + 1);
      if p.Done? {
        assert p.value[1] == t.value[0] == ParseReply(s).value && p.rest == t.rest;
        NoReplies(ParseReply(s).rest);
      }
      if k > 0 { StopsAtCR(tail, k - 1); }
    } else {
      StopsAtCR(s, k);
    }
  }

  // ---------------------------------------------------------------- framed replies

  /** A reply that no chunk border falls into is framed. */
  lemma {:induction false} ClearEncoded(v: Value, suffix: bytes, p: Plan)
    requires Supported(v) && |Encode(v)| <= MAX_INT64 && p.low <= |suffix|
    requires NoCut(|suffix|, |Encode(v) + suffix|, p.cuts)
    ensures ClearReply(Encode(v) + suffix, p)
    decreases v, 1
  {
    hide ParseReply, ParseHeader, ClearReplies, SizeLine, ClearLine;
    match v
    case Slice(items) =>
      var body := EncodeItems(items) + suffix;
      EncodeItemsLength(items);
      assert Encode(v) + suffix == SizeLine(STAR, |items|) + body;
      ClearElements(|items|, body, p);
      ClearItems(items, suffix, p);
    case Map(entries) =>
      var body := EncodeEntries(entries) + suffix;
      EncodeEntriesLength(entries);
      assert Encode(v) + suffix == SizeLine(STAR, 2 * |entries|) + body;
      ClearElements(2 * |entries|, body, p);
      ClearEntries(entries, suffix, p);
    case _ => ClearLeaf(v, suffix, p);
  }

  lemma ClearElements(n: nat, body: bytes, p: Plan)
    requires n <= MAX_INT64 && p.low <= |body|
    requires NoCut(|body|, |SizeLine(STAR, n) + body|, p.cuts)
    ensures ClearReplies(body, n, p) ==> ClearReply(SizeLine(STAR, n) + body, p)
  {
    hide SizeLine, ParseHeader, ClearLine;
    ClearHeader(STAR, n, body, p);
    HeaderRoundTrip(STAR, n, InvalidMultiBulkLength, body);
    PrefixOfSizeLine(STAR, n, body);
  }

  lemma ClearLeaf(v: Value, suffix: bytes, p: Plan)
    requires Supported(v) && |Encode(v)| <= MAX_INT64 && !v.Slice? && !v.Map? && p.low <= |suffix|
    requires NoCut(|suffix|, |Encode(v) + suffix|, p.cuts)
    ensures ClearReply(Encode(v) + suffix, p)
  {
    hide SizeLine, ParseHeader, ErrorText, SplitLine;
    var s := Encode(v) + suffix;
    match v
    case Nil =>
      assert NIL == EncodeText(DOLLAR, [MINUS, 49]);
      ClearText(DOLLAR, [MINUS, 49], suffix, p);
    case Failure(msg) => ClearText(MINUS, ErrorText(msg), suffix, p);
    case Bool(b) =>
      ClearHeaderOf(if b then 1 else 0, suffix, p);
    case Int(n) => ClearHeaderOf(Wrap(n), suffix, p);
    case Text(text) =>
      EncodeBulkLength(text);
      BulkRoundTrip(text, suffix);
      TypeOfBulk(text, suffix);
      var body := text + CRLF + suffix;
      assert s == SizeLine(DOLLAR, |text|) + body;
      ClearHeader(DOLLAR, |text|, body, p);
    case Float(text) => ClearText(PLUS, text, suffix, p);
  }

  lemma ClearText(prefix: byte, text: bytes, suffix: bytes, p: Plan)
    requires prefix in {DOLLAR, MINUS, PLUS} && (prefix == DOLLAR ==> text != [] && text[0] == MINUS)
    requires CR !in text && p.low <= |suffix|
    requires NoCut(|suffix|, |EncodeText(prefix, text) + suffix|, p.cuts)
    ensures ClearReply(EncodeText(prefix, text) + suffix, p)
  {
    var s := EncodeText(prefix, text) + suffix;
    assert forall k :: 0 <= k < |text| ==> s[k + 1] == text[k];
    FindCRUnique(s, |text| + 1);
    assert s[|text| + 3..] == suffix;
  }

  lemma ClearHeaderOf(n: int, suffix: bytes, p: Plan)
    requires p.low <= |suffix| && NoCut(|suffix|, |SizeLine(COLON, n) + suffix|, p.cuts)
    ensures ClearReply(SizeLine(COLON, n) + suffix, p)
  {
    hide SplitLine;
    SplitSizeLine(COLON, n, suffix);
    TypeOfPrefix(COLON, SizeLine(COLON, n) + suffix);
  }

  lemma {:induction false} ClearItems(items: seq<Value>, suffix: bytes, p: Plan)
    requires SupportedItems(items) && |EncodeItems(items)| <= MAX_INT64 && p.low <= |suffix|
    requires NoCut(|suffix|, |EncodeItems(items) + suffix|, p.cuts)
    ensures ClearReplies(EncodeItems(items) + suffix, |items|, p)
    decreases items, 0
  {
    hide ParseReply, Encode, Supported, ClearReply, Expected;
    if items != [] {
      var tail := EncodeItems(items[1..]) + suffix;
      assert EncodeItems(items) + suffix == Encode(items[0]) + tail;
      ReplyRoundTrip(items[0], tail);
      ClearEncoded(items[0], tail, p);
      ClearItems(items[1..], suffix, p);
    }
  }

  lemma {:induction false} ClearEntries(entries: seq<Entry>, suffix: bytes, p: Plan)
    requires SupportedEntries(entries) && |EncodeEntries(entries)| <= MAX_INT64 && p.low <= |suffix|
    requires NoCut(|suffix|, |EncodeEntries(entries) + suffix|, p.cuts)
    ensures ClearReplies(EncodeEntries(entries) + suffix, 2 * |entries|, p)
    decreases entries, 0
  {
    hide ParseReply, Supported, ClearReply, SupportedEntry, EncodeEntry;
    if entries != [] {
      var tail := EncodeEntries(entries[1..]) + suffix;
      assert EncodeEntries(entries) + suffix == EncodeEntry(entries[0]) + tail;
      ClearEntries(entries[1..], suffix, p);
      ClearEntry(entries[0], tail, 2 * |entries| - 2, p);
    }
  }

  lemma {:induction false} ClearEntry(e: Entry, tail: bytes, k: nat, p: Plan)
    requires SupportedEntry(e) && |EncodeEntry(e)| <= MAX_INT64 && p.low <= |tail|
    requires NoCut(|tail|, |EncodeEntry(e) + tail|, p.cuts)
    requires ClearReplies(tail, k, p)
    ensures ClearReplies(EncodeEntry(e) + tail, k + 2, p)
    decreases e, 2
  {
    hide ParseReply, Encode, Supported, ClearReply, Expected;
    assert EncodeEntry(e) + tail == Encode(e.key) + (Encode(e.val) + tail);
    ReplyRoundTrip(e.key, Encode(e.val) + tail);
    ReplyRoundTrip(e.val, tail);
    ClearEncoded(e.key, Encode(e.val) + tail, p);
    ClearEncoded(e.val, tail, p);
  }

  /** A response recorder: it keeps what is written, and decodes replies until its source
      ends. Whatever the size of the buffers, the decoded replies are the values, unless the
      delivery fails the reader; it does not where the recording fits the buffer. */
  method Record(w: Writer, vs: seq<Value>, capacity: nat) returns (sent: bool, got: seq<Reply>, err: Option<Error>)
    requires w.Valid() && w.Wire() == [] && capacity > 0
    requires SupportedItems(vs) && |EncodeItems(vs)| <= MAX_INT64
    modifies w, w.data
    ensures sent <==> |EncodeItems(vs)| <= old(w.Limit())
    ensures sent ==> got <= ExpectedItems(vs) && (LostBy(err) || (err.None? && got == ExpectedItems(vs)))
    ensures sent && |EncodeItems(vs)| <= capacity ==> err.None?
  {
    hide Encode, SupportedItems, ParseReplies, ClearReplies, Reader.Unread;
    for i := 0 to |vs|
      invariant w.Valid() && (w.data == old(w.data) || fresh(w.data))
      invariant w.Wire() == EncodeItems(vs[..i]) && w.Limit() == old(w.Limit())
    {
      EncodeItemsSnoc(vs, i);
      Append(w, vs[i]);
    }
    assert vs[..|vs|] == vs;
    sent := w.Flush();
    got, err := [], Some(TooLong);
    if sent {
      assert w.Wire() == w.sink.written;
      got, err := Decode(w.sink.written, capacity, vs);
    }
  }

  method Decode(recorded: bytes, capacity: nat, ghost vs: seq<Value>) returns (got: seq<Reply>, err: Option<Error>)
    requires capacity > 0 && recorded == EncodeItems(vs)
    requires SupportedItems(vs) && |EncodeItems(vs)| <= MAX_INT64
    ensures got <= ExpectedItems(vs) && (LostBy(err) || (err.None? && got == ExpectedItems(vs)))
    ensures |recorded| <= capacity ==> err.None?
  {
    hide Encode, SupportedItems, ParseReplies, ClearReplies;
    var chunks := if recorded == [] then [] else [recorded];
    OneChunk(recorded);
    var r := new Reader(capacity, Source(chunks, EOF));
    r.plan := Plan({0}, 0, false);
    assert EncodeItems(vs) + [] == recorded;
    ClearItems(vs, [], r.plan);
    got, err := Responses(r, vs);
  }

  /** The loop of Responses: parseResult until the end of the source. */
  method Responses(r: Reader, ghost vs: seq<Value>) returns (vv: seq<Reply>, err: Option<Error>)
    requires r.Valid() && r.rd.end == EOF && r.Unread() == EncodeItems(vs)
    requires SupportedItems(vs) && |EncodeItems(vs)| <= MAX_INT64
    modifies r, r.buf
    ensures r.Kept() && r.Faults(LostBy(err))
    ensures vv <= ExpectedItems(vs) && (LostBy(err) || (err.None? && vv == ExpectedItems(vs) && r.Unread() == []))
    ensures old(r.Smooth() && ClearReplies(r.Unread(), |vs|, r.plan)) ==> err.None?
  {
    hide Encode, Expected, Supported, ParseReply, ParseReplies, ClearReply, ClearReplies, EncodeItems, Reader.Unread, Reader.Smooth;
    ghost var i, planned := 0, r.Smooth() && ClearReplies(r.Unread(), |vs|, r.plan);
    vv := [];
    assert vs[0..] == vs;
    while true
      invariant r.Kept() && r.Faults(false) && i <= |vs|
      invariant r.Unread() == EncodeItems(vs[i..]) && SupportedItems(vs[i..]) && |EncodeItems(vs[i..])| <= MAX_INT64
      invariant ExpectedItems(vs) == vv + ExpectedItems(vs[i..])
      invariant planned ==> r.Smooth() && ClearReplies(r.Unread(), |vs| - i, r.plan)
      decreases |vs| - i
    {
      NextReply(vs, i);
      if planned && i < |vs| { ClearNext(r.Unread(), |vs| - i, r.plan); }
      var v := ParseResult(r);
      if v == Err(IO(EOF)) { return vv, None; }
      if v.Err? { return vv, Some(v.error); }
      vv := vv + [v.value];
      i := i + 1;
    }
  }

  lemma NextReply(vs: seq<Value>, i: nat)
    requires i <= |vs| && SupportedItems(vs[i..]) && |EncodeItems(vs[i..])| <= MAX_INT64
    ensures i == |vs| ==> EncodeItems(vs[i..]) == [] && ExpectedItems(vs[i..]) == []
    ensures i < |vs| ==>
              var rest := EncodeItems(vs[i + 1..]);
              && ParseReply(EncodeItems(vs[i..])) == Done(Expected(vs[i]), rest)
              && SupportedItems(vs[i + 1..]) && |rest| <= |EncodeItems(vs[i..])|
              && ExpectedItems(vs[i..]) == [Expected(vs[i])] + ExpectedItems(vs[i + 1..])
  {
    hide ParseReply, Encode, Expected, Supported;
    if i < |vs| {
      assert vs[i..][0] == vs[i] && vs[i..][1..] == vs[i + 1..];
      ReplyRoundTrip(vs[i], EncodeItems(vs[i + 1..]));
    }
  }

  lemma ClearNext(s: bytes, k: nat, p: Plan)
    requires k > 0 && ClearReplies(s, k, p)
    ensures ClearReply(s, p)
    ensures ParseReply(s).Done? ==> ClearReplies(ParseReply(s).rest, k - 1, p)
  {
  }

  lemma OneChunk(s: bytes)
    ensures var chunks := if s == [] then [] else [s]; Flatten(chunks) == s && OnCuts(chunks, {0})
  {
    assert [s][1..] == [] && s + [] == s;
  }
}
