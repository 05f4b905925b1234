/** Scanning replies into destinations: resp/scan.go, for nil destinations, cells and slices. */
module Scanning {
  import opened Bytes
  import opened Syntax
  import opened Delivery
  import opened Readers
  import opened Replies

  /** Where a reply may go: nowhere (a nil destination), into a variable of some kind, or
      into a slice, which grows by copies of `zero`. */
  datatype Target =
    | Ignore
    | Cell(kind: nat, value: Reply)
    | SliceOf(zero: Target, items: seq<Target>)

  /** What a variable of a kind makes of a reply that is no array, if it can take it.
      This stands for scanNil, scanInt, scanString and scanValue. */
  type Converter = (nat, Reply) -> Option<Reply>

  // ---------------------------------------------------------------- what scanning means

  /** The first error of a list of results. */
  function First(es: seq<Option<Error>>): (e: Option<Error>)
    ensures e.None? <==> forall i :: 0 <= i < |es| ==> es[i].None?
    ensures e.Some? ==>
              exists i :: 0 <= i < |es| && es[i] == e && forall j :: 0 <= j < i ==> es[j].None?
  {
    if es == [] then None
    else if es[0].Some? then es[0]
    else
      var e := First(es[1..]);
      assert e.Some? ==> exists i :: 0 <= i < |es| && es[i] == e && forall j :: 0 <= j < i ==> es[j].None? by {
        if e.Some? {
          var i :| 0 <= i < |es[1..]| && es[1..][i] == e && forall j :: 0 <= j < i ==> es[1..][j].None?;
          assert es[i + 1] == e && forall j :: 0 < j < i + 1 ==> es[j] == es[1..][j - 1];
        }
      }
      e
  }

  /** The elements of a slice destination for `n` replies. */
  function Room(items: seq<Target>, zero: Target, n: nat): (ts: seq<Target>)
    ensures |ts| == if n > |items| then n else |items|
  {
    if |items| < n then items + seq(n - |items|, i => zero) else items
  }

  function StoreLeaf(conv: Converter, v: Reply, t: Target): (Target, Option<Error>) {
    match t
    case Ignore => (t, None)
    case Cell(kind, _) =>
      (match conv(kind, v)
       case Some(x) => (Cell(kind, x), None)
       case None => (t, Some(Error.Conversion)))
    case SliceOf(_, _) => (t, Some(Error.Conversion))
  }

  /** What must be stored: an element whose reply fails keeps what it had. */
  function Stored(conv: Converter, v: Reply, t: Target): Target {
    match v
    case ErrorReply(_) => t
    case ArrayReply(vs) =>
      (match t
       case SliceOf(zero, items) =>
         var ts := Room(items, zero, |vs|);
         SliceOf(zero, seq(|ts|, i requires 0 <= i < |ts| => if i < |vs| then Stored(conv, vs[i], ts[i]) else ts[i]))
       case _ => t)
    case _ => StoreLeaf(conv, v, t).0
  }

  /** What must be reported: the first error in the order of the replies. */
  function Report(conv: Converter, v: Reply, t: Target): Option<Error> {
    match v
    case ErrorReply(text) => Some(ServerError(text))
    case ArrayReply(vs) =>
      (match t
       case Ignore => First(seq(|vs|, i requires 0 <= i < |vs| => Report(conv, vs[i], Ignore)))
       case Cell(_, _) => Some(Error.Conversion)
       case SliceOf(zero, items) =>
         var ts := Room(items, zero, |vs|);
         First(seq(|vs|, i requires 0 <= i < |vs| => Report(conv, vs[i], ts[i]))))
    case _ => StoreLeaf(conv, v, t).1
  }

  /** No error reply at any depth. */
  predicate Quiet(v: Reply) {
    match v
    case ErrorReply(_) => false
    case ArrayReply(vs) => forall i :: 0 <= i < |vs| ==> Quiet(vs[i])
    case _ => true
  }

  /** No error reply but perhaps the very last leaf. */
  predicate QuietButLast(v: Reply) {
    v.ArrayReply? && v.items != [] ==>
      && (forall i :: 0 <= i < |v.items| - 1 ==> Quiet(v.items[i]))
      && QuietButLast(v.items[|v.items| - 1])
  }

  /** Every array of the reply meets a destination that takes all of it. */
  predicate Fits(v: Reply, t: Target) {
    v.ArrayReply? ==>
      match t
      case Ignore => QuietButLast(v)
      case Cell(_, _) => v.items == []
      case SliceOf(zero, items) =>
        var ts := Room(items, zero, |v.items|);
        forall i :: 0 <= i < |v.items| ==> Fits(v.items[i], ts[i])
  }

  /** What is nil reports an error exactly for a reply with an error in it. */
  lemma {:induction false} IgnoredReport(conv: Converter, v: Reply)
    ensures Report(conv, v, Ignore).None? <==> Quiet(v)
  {
    if v.ArrayReply? {
      var es := seq(|v.items|, i requires 0 <= i < |v.items| => Report(conv, v.items[i], Ignore));
      assert Report(conv, v, Ignore) == First(es);
      forall i | 0 <= i < |v.items| ensures es[i].None? <==> Quiet(v.items[i]) {
        IgnoredReport(conv, v.items[i]);
      }
    }
  }

  lemma {:induction false} QuietFits(v: Reply)
    requires Quiet(v)
    ensures QuietButLast(v)
  {
    if v.ArrayReply? && v.items != [] { QuietFits(v.items[|v.items| - 1]); }
  }

  /** An array of plain replies fits any slice. */
  lemma PlainArrayFits(v: Reply, t: Target)
    requires v.ArrayReply? && t.SliceOf?
    requires forall i :: 0 <= i < |v.items| ==> !v.items[i].ArrayReply?
    ensures Fits(v, t)
  {
  }

  // ---------------------------------------------------------------- in terms of conversions

  /** A reply that is neither an array nor an error. */
  predicate IsPlain(v: Reply) { !v.ArrayReply? && !v.ErrorReply? }

  /** The place of element `i` of a slice with these elements: what is there, or a new one. */
  function PlaceOf(items: seq<Target>, zero: Target, i: nat): Target {
    if i < |items| then items[i] else zero
  }

  /** Every leaf of the reply is no error, and is taken by the variable it goes to. */
  predicate Taken(conv: Converter, v: Reply, t: Target) {
    match v
    case ErrorReply(_) => false
    case ArrayReply(vs) =>
      (match t
       case Ignore => forall i :: 0 <= i < |vs| ==> Taken(conv, vs[i], Ignore)
       case Cell(_, _) => false
       case SliceOf(zero, items) => forall i :: 0 <= i < |vs| ==> Taken(conv, vs[i], PlaceOf(items, zero, i)))
    case _ => t.Ignore? || (t.Cell? && conv(t.kind, v).Some?)
  }

  /** No error is reported exactly for a reply of which everything is taken. */
  lemma {:induction false} ReportTaken(conv: Converter, v: Reply, t: Target)
    ensures Report(conv, v, t).None? <==> Taken(conv, v, t)
  {
    if v.ArrayReply? && !t.Cell? {
      var vs := v.items;
      var ts := Places(t, |vs|);
      ReportPlaces(conv, vs, t);
      var es := Reports(conv, vs, ts, |vs|);
      forall i | 0 <= i < |vs| ensures es[i].None? <==> Taken(conv, vs[i], ts[i]) { ReportTaken(conv, vs[i], ts[i]); }
    }
  }

  /** Otherwise it is the error of the first of the replies that is not all taken. */
  lemma ReportFirst(conv: Converter, v: Reply, t: Target)
    requires !Taken(conv, v, t)
    ensures v.ErrorReply? ==> Report(conv, v, t) == Some(ServerError(v.text))
    ensures IsPlain(v) || (v.ArrayReply? && t.Cell?) ==> Report(conv, v, t) == Some(Error.Conversion)
    ensures v.ArrayReply? && !t.Cell? ==>
              exists i :: 0 <= i < |v.items| && FirstAt(conv, v.items, Places(t, |v.items|), i)
                          && Report(conv, v, t) == Report(conv, v.items[i], Places(t, |v.items|)[i])
  {
    ReportTaken(conv, v, t);
    if v.ArrayReply? && !t.Cell? {
      var vs, ts := v.items, Places(t, |v.items|);
      ReportPlaces(conv, vs, t);
      var es := Reports(conv, vs, ts, |vs|);
      var i :| 0 <= i < |es| && es[i] == First(es) && forall j :: 0 <= j < i ==> es[j].None?;
      forall j | 0 <= j <= i ensures es[j].None? <==> Taken(conv, vs[j], ts[j]) { ReportTaken(conv, vs[j], ts[j]); }
      assert FirstAt(conv, vs, ts, i);
    }
  }

  /** Reply `i` is the first that is not all taken. */
  predicate FirstAt(conv: Converter, vs: seq<Reply>, ts: seq<Target>, i: nat)
    requires i < |vs| <= |ts|
  {
    !Taken(conv, vs[i], ts[i]) && forall j :: 0 <= j < i ==> Taken(conv, vs[j], ts[j])
  }

  /** The places that `n` replies go to. */
  function Places(t: Target, n: nat): (ts: seq<Target>)
    requires !t.Cell?
    ensures |ts| >= n
    ensures forall i :: 0 <= i < n ==> ts[i] == if t.Ignore? then Ignore else PlaceOf(t.items, t.zero, i)
  {
    if t.Ignore? then seq(n, i => Ignore) else Room(t.items, t.zero, n)
  }

  lemma ReportPlaces(conv: Converter, vs: seq<Reply>, t: Target)
    requires !t.Cell?
    ensures Report(conv, Reply.ArrayReply(vs), t) == First(Reports(conv, vs, Places(t, |vs|), |vs|))
  {
    hide First;
    if t.Ignore? {
      assert Reports(conv, vs, Places(t, |vs|), |vs|)
          == seq(|vs|, i requires 0 <= i < |vs| => Report(conv, vs[i], Ignore));
    } else {
      ReportSlice(conv, vs, t);
    }
  }

  /** This reply leaves what it meets as it is. */
  predicate LeavesAlone(conv: Converter, v: Reply, t: Target) {
    match t
    case Ignore => true
    case Cell(kind, _) => !IsPlain(v) || conv(kind, v).None?
    case SliceOf(_, _) => !v.ArrayReply?
  }

  /** A variable has the new value if its conversion succeeds, and else the old one. */
  lemma StoredCell(conv: Converter, v: Reply, kind: nat, x: Reply)
    ensures Stored(conv, v, Cell(kind, x))
         == Cell(kind, if IsPlain(v) && conv(kind, v).Some? then conv(kind, v).value else x)
  {
  }

  lemma StoredAlone(conv: Converter, v: Reply, t: Target)
    requires LeavesAlone(conv, v, t)
    ensures Stored(conv, v, t) == t
  {
  }

  /** A slice grows to the number of replies and never shrinks. Each reply goes to its
      place; elements behind the last reply stay, and so do those, in a slice that has
      grown too, whose reply leaves them alone. */
  lemma StoredElements(conv: Converter, vs: seq<Reply>, zero: Target, items: seq<Target>, i: nat)
    ensures var u := Stored(conv, Reply.ArrayReply(vs), SliceOf(zero, items));
      && u.SliceOf? && u.zero == zero && |u.items| == (if |vs| > |items| then |vs| else |items|)
      && (i < |vs| ==> u.items[i] == Stored(conv, vs[i], PlaceOf(items, zero, i)))
      && (|vs| <= i < |items| ==> u.items[i] == items[i])
      && (i < |vs| && i < |items| && LeavesAlone(conv, vs[i], items[i]) ==> u.items[i] == items[i])
  {
    if i < |vs| && i < |items| && LeavesAlone(conv, vs[i], items[i]) { StoredAlone(conv, vs[i], items[i]); }
  }

  // ---------------------------------------------------------------- the scanner

  /** How a scan of the reply `v`, which ends where `end` begins, must come out: `left`
      whole replies are left over in front of `end`, none exactly if `v` fits. What fits
      is stored and reported. Into nil, any reply is reported as it must be. */
  ghost predicate Outcome(conv: Converter, v: Reply, end: bytes, t: Target, u: Target, err: Option<Error>, rest: bytes, left: nat) {
    && Leads(rest, left, end)
    && (left == 0 <==> Fits(v, t))
    && (left == 0 ==> u == Stored(conv, v, t) && err == Report(conv, v, t))
    && (t.Ignore? ==> u == Ignore && err == Report(conv, v, Ignore))
  }

  /** `n` replies lead from `s` to `end`. */
  ghost predicate Leads(s: bytes, n: nat, end: bytes) {
    ParseReplies(s, n).Done? && ParseReplies(s, n).rest == end
  }

  ghost predicate Scanned(conv: Converter, p: Parsed<Reply>, t: Target, u: Target, err: Option<Error>, rest: bytes, left: nat) {
    p.Done? ==> Outcome(conv, p.value, p.rest, t, u, err, rest, left)
  }

  ghost predicate ScannedArray(conv: Converter, p: Parsed<seq<Reply>>, t: Target, u: Target, err: Option<Error>, rest: bytes, left: nat) {
    p.Done? ==> Outcome(conv, Reply.ArrayReply(p.value), p.rest, t, u, err, rest, left)
  }

  /** A reply that is consumed to its end is one that fits. */
  lemma NothingLeft(conv: Converter, v: Reply, end: bytes, t: Target, u: Target, err: Option<Error>, rest: bytes, left: nat)
    requires Outcome(conv, v, end, t, u, err, rest, left)
    ensures rest == end <==> Fits(v, t)
  {
    if left > 0 { Shrinks(rest, left); } else { NoReplies(rest); }
  }

  /** What a scan that comes out so has done, in terms of the conversions alone: a reply
      that is no array always sets its variable or reports that it cannot. */
  lemma OutcomeOfPlain(conv: Converter, v: Reply, end: bytes, kind: nat, x: Reply, u: Target, err: Option<Error>, rest: bytes, left: nat)
    requires Outcome(conv, v, end, Cell(kind, x), u, err, rest, left) && IsPlain(v)
    ensures rest == end && (err.None? <==> conv(kind, v).Some?)
    ensures u == Cell(kind, if conv(kind, v).Some? then conv(kind, v).value else x)
  {
    NothingLeft(conv, v, end, Cell(kind, x), u, err, rest, left);
    ReportTaken(conv, v, Cell(kind, x));
    StoredCell(conv, v, kind, x);
  }

  /** No error is reported exactly if everything of the reply is taken: for a reply that
      fits, and for any reply into nil. */
  lemma OutcomeTaken(conv: Converter, v: Reply, end: bytes, t: Target, u: Target, err: Option<Error>, rest: bytes, left: nat)
    requires Outcome(conv, v, end, t, u, err, rest, left) && (Fits(v, t) || t.Ignore?)
    ensures err.None? <==> Taken(conv, v, t)
  {
    hide Fits, Report, Stored, Leads;
    ReportTaken(conv, v, t);
  }

  /** A slice that an array fits has each element set by its own reply, or left alone. */
  lemma OutcomeOfSlice(conv: Converter, vs: seq<Reply>, end: bytes, zero: Target, items: seq<Target>, u: Target, err: Option<Error>,
                       rest: bytes, left: nat, i: nat)
    requires Outcome(conv, Reply.ArrayReply(vs), end, SliceOf(zero, items), u, err, rest, left)
    requires Fits(Reply.ArrayReply(vs), SliceOf(zero, items))
    ensures u.SliceOf? && u.zero == zero && |u.items| == (if |vs| > |items| then |vs| else |items|)
    ensures i < |vs| ==> u.items[i] == Stored(conv, vs[i], PlaceOf(items, zero, i))
    ensures i < |items| && (i < |vs| ==> LeavesAlone(conv, vs[i], items[i])) ==> u.items[i] == items[i]
  {
    hide Fits, Report, Stored, Leads, LeavesAlone;
    StoredElements(conv, vs, zero, items, i);
  }

  /** Delivery is framed at a reply that a scan into `t` reads in step. */
  ghost predicate ClearScan(s: bytes, t: Target, p: Plan) {
    ClearReply(s, p) && ParseReply(s).Done? && (t.Ignore? || Fits(ParseReply(s).value, t))
  }

  ghost predicate ClearArray(s: bytes, n: nat, t: Target, p: Plan) {
    && ClearReplies(s, n, p) && ParseReplies(s, n).Done?
    && (t.Ignore? || Fits(Reply.ArrayReply(ParseReplies(s, n).value), t))
  }

  /** scan. */
  method Scan(conv: Converter, r: Reader, t: Target) returns (u: Target, err: Option<Error>, ghost left: nat)
    requires r.Valid()
    modifies r, r.buf
    ensures r.Kept() && |r.Unread()| <= |old(r.Unread())| && r.FaultShows(err.Some?)
    ensures !r.faulty ==> Scanned(conv, ParseReply(old(r.Unread())), t, u, err, r.Unread(), left)
    ensures old(!r.faulty && r.Smooth() && ClearScan(r.Unread(), t, r.plan)) ==> r.Smooth() && !r.faulty
    decreases |r.Unread()|, 0
  {
    hide ParseReplies, ParseText, ParseHeader, ParseBulk, ParseInteger, ParseNil, TypeOf;
    hide ClearReplies, ClearLine, ClearBulk, Outcome, Fits, Stored, Report, StoreLeaf, Reader.Unread, Reader.Smooth;
    ghost var s := r.Unread();
    if ClearReply(s, r.plan) { ClearReplyBytes(s, r.plan); }
    left := 0;
    var typ := r.PeekType();
    if typ.Err? { return t, Some(typ.error), 0; }
    if typ.value == ReplyType.ArrayReply {
      var sz := r.ReadArrayLen();
      if sz.Err? { return t, Some(sz.error), 0; }
      u, err, left := ScanArray(conv, r, t, sz.value);
    } else {
      u, err := ScanLeaf(conv, r, t, typ.value);
    }
  }

  /** An error, or a reply that is stored as it is. */
  method ScanLeaf(conv: Converter, r: Reader, t: Target, typ: ReplyType) returns (u: Target, err: Option<Error>)
    requires r.Valid() && TypeOf(r.Unread()) == Some(typ) && !typ.ArrayReply?
    modifies r, r.buf
    ensures r.Kept() && |r.Unread()| <= |old(r.Unread())| && r.FaultShows(err.Some?)
    ensures !r.faulty ==> Scanned(conv, ParseReply(old(r.Unread())), t, u, err, r.Unread(), 0)
    ensures old(!r.faulty && r.Smooth() && ClearReply(r.Unread(), r.plan)) ==> r.Smooth() && !r.faulty
  {
    hide ParseReply, ClearReply, TypeOf, Outcome, StoreLeaf, Reader.Unread, Reader.Smooth;
    var src := ReadLeaf(r, typ);
    if src.Err? { return t, Some(src.error); }
    if typ == ReplyType.ErrorReply {
      ErrorScanned(conv, src.value, t, r.Unread());
      return t, Some(ServerError(src.value.text));
    }
    LeafScanned(conv, src.value, t, r.Unread());
    var stored := StoreLeaf(conv, src.value, t);
    return stored.0, stored.1;
  }

  /** scanArray, behind the header. */
  method ScanArray(conv: Converter, r: Reader, t: Target, sz: nat) returns (u: Target, err: Option<Error>, ghost left: nat)
    requires r.Valid()
    modifies r, r.buf
    ensures r.Kept() && |r.Unread()| <= |old(r.Unread())| && r.FaultShows(err.Some?)
    ensures !r.faulty ==> ScannedArray(conv, ParseReplies(old(r.Unread()), sz), t, u, err, r.Unread(), left)
    ensures old(!r.faulty && r.Smooth() && ClearArray(r.Unread(), sz, t, r.plan)) ==> r.Smooth() && !r.faulty
    decreases |r.Unread()|, 2
  {
    hide ParseReplies, ClearReplies, Outcome, InStep, Reader.Unread, Reader.Smooth;
    match t
    case Ignore =>
      err, left := ScanIgnored(conv, r, sz);
      u := Ignore;
    case Cell(_, _) =>
      CellOutcome(conv, r.Unread(), sz, t);
      return t, Some(Error.Conversion), sz;
    case SliceOf(zero, items) =>
      var ts;
      ts, err, left := ScanSlice(conv, r, Room(items, zero, sz), sz);
      u := SliceOf(zero, ts);
      if !r.faulty { SliceOutcome(conv, old(r.Unread()), sz, t, ts, err, r.Unread(), left); }
  }

  /** The loop over an array that nobody wants: it ends at the first error. */
  method ScanIgnored(conv: Converter, r: Reader, sz: nat) returns (err: Option<Error>, ghost left: nat)
    requires r.Valid()
    modifies r, r.buf
    ensures r.Kept() && |r.Unread()| <= |old(r.Unread())| && r.FaultShows(err.Some?)
    ensures !r.faulty ==> ScannedArray(conv, ParseReplies(old(r.Unread()), sz), Ignore, Ignore, err, r.Unread(), left)
    ensures old(!r.faulty && r.Smooth() && ClearArray(r.Unread(), sz, Ignore, r.plan)) ==> r.Smooth() && !r.faulty
    decreases |r.Unread()|, 1
  {
    hide ParseReply, ParseReplies, ClearReplies, ClearReply, Outcome, Reader.Unread, Reader.Smooth;
    ghost var s, planned := r.Unread(), !r.faulty && r.Smooth() && ClearArray(r.Unread(), sz, Ignore, r.plan);
    ghost var p := ParseReplies(s, sz);
    NoReplies(s);
    err, left := None, 0;
    for i := 0 to sz
      invariant r.Kept() && r.FaultShows(err.Some?) && |r.Unread()| <= |s|
      invariant !r.faulty && p.Done? ==>
                  ParseReplies(s, i) == Done(p.value[..i], r.Unread()) && AllQuiet(p.value[..i])
      invariant planned ==> r.Smooth() && !r.faulty && ClearReplies(r.Unread(), sz - i, r.plan)
    {
      ghost var u := r.Unread();
      if p.Done? { ItemAt(s, i, sz); }
      if planned { ClearNext(u, sz - i, r.plan); }
      var gone, e, k := Scan(conv, r, Ignore);
      if e.Some? {
        left := k + (sz - i - 1);
        if !r.faulty && p.Done? { IgnoredStops(conv, p, i, ParseReply(u).rest, gone, e, r.Unread(), k); }
        return e, left;
      }
      if !r.faulty && p.Done? { IgnoredGoesOn(conv, p.value, i, ParseReply(u).rest, gone, r.Unread(), k); }
    }
    if !r.faulty && p.Done? { IgnoredEnds(conv, p.value, p.rest); }
  }

  /** The loop over the elements of a slice: an element that fails does not end it. */
  method ScanSlice(conv: Converter, r: Reader, room: seq<Target>, sz: nat)
    returns (ts: seq<Target>, err: Option<Error>, ghost left: nat)
    requires r.Valid() && sz <= |room|
    modifies r, r.buf
    ensures r.Kept() && |r.Unread()| <= |old(r.Unread())| && r.FaultShows(err.Some?)
    ensures !r.faulty ==> InStep(conv, old(r.Unread()), sz, sz, room, ts, err, r.Unread(), left)
    ensures old(!r.faulty && r.Smooth() && ClearReplies(r.Unread(), sz, r.plan)) && AllFit(ParseReplies(old(r.Unread()), sz), room) ==>
              r.Smooth() && !r.faulty
    decreases |r.Unread()|, 1
  {
    hide ParseReply, ParseReplies, ClearReplies, ClearReply, InStep, Reader.Unread, Reader.Smooth;
    ghost var s := r.Unread();
    ghost var planned := !r.faulty && r.Smooth() && ClearReplies(s, sz, r.plan) && AllFit(ParseReplies(s, sz), room);
    InStepStart(conv, s, sz, room);
    ts, err, left := room, None, 0;
    for i := 0 to sz
      invariant r.Kept() && r.FaultShows(err.Some?) && |r.Unread()| <= |s| && |ts| == |room|
      invariant !r.faulty ==> InStep(conv, s, i, sz, room, ts, err, r.Unread(), left)
      invariant planned ==> r.Smooth() && !r.faulty && ClearReplies(r.Unread(), sz - i, r.plan)
    {
      ghost var u := r.Unread();
      if planned { ClearNext(u, sz - i, r.plan); }
      if planned { InStepParsed(conv, s, i, sz, room, ts, err, u, left); }
      var t, e, k := Scan(conv, r, ts[i]);
      if planned { NothingLed(r.Unread(), ParseReply(u).rest); }
      if !r.faulty { InStepNext(conv, s, i, sz, room, ts, err, u, left, t, e, r.Unread(), k); }
      left := left + k;
      ts := ts[i := t];
      if e.Some? && err.None? { err := e; }
    }
  }

  /** Scan into several values: it ends behind the first reply that reports an error,
      the `k`-th. */
  method ScanValues(conv: Converter, r: Reader, ts: seq<Target>)
    returns (us: seq<Target>, err: Option<Error>, k: nat, ghost left: nat)
    requires r.Valid()
    modifies r, r.buf
    ensures r.Kept() && r.FaultShows(err.Some?) && k <= |ts| && (err.None? ==> k == |ts|)
    ensures !r.faulty ==> InStep(conv, old(r.Unread()), k, |ts|, ts, us, err, r.Unread(), left)
    ensures !r.faulty && err.Some? ==> NoErrorBefore(conv, ParseReplies(old(r.Unread()), |ts|), ts, k)
    ensures old(!r.faulty && r.Smooth() && ClearReplies(r.Unread(), |ts|, r.plan)) && AllFit(ParseReplies(old(r.Unread()), |ts|), ts) ==>
              r.Smooth() && !r.faulty
  {
    hide ParseReply, ParseReplies, ClearReplies, ClearReply, InStep, Reader.Unread, Reader.Smooth;
    ghost var s, sz := r.Unread(), |ts|;
    ghost var planned := !r.faulty && r.Smooth() && ClearReplies(s, sz, r.plan) && AllFit(ParseReplies(s, sz), ts);
    InStepStart(conv, s, sz, ts);
    us, err, k, left := ts, None, 0, 0;
    while k < |ts|
      invariant r.Kept() && r.FaultShows(err.Some?) && |us| == |ts| && k <= |ts|
      invariant !r.faulty ==> InStep(conv, s, k, sz, ts, us, None, r.Unread(), left)
      invariant planned ==> r.Smooth() && !r.faulty && ClearReplies(r.Unread(), sz - k, r.plan)
    {
      ghost var u := r.Unread();
      if planned { ClearNext(u, sz - k, r.plan); }
      if planned { InStepParsed(conv, s, k, sz, ts, us, None, u, left); }
      var t, e, m := Scan(conv, r, us[k]);
      if planned { NothingLed(r.Unread(), ParseReply(u).rest); }
      if !r.faulty {
        NoneSoFar(conv, s, k, sz, ts, us, u, left);
        InStepNext(conv, s, k, sz, ts, us, None, u, left, t, e, r.Unread(), m);
      }
      left := left + m;
      us, k := us[k := t], k + 1;
      if e.Some? { return us, e, k, left; }
    }
  }

  // ---------------------------------------------------------------- steps

  lemma ErrorScanned(conv: Converter, v: Reply, t: Target, rest: bytes)
    requires v.ErrorReply?
    ensures Outcome(conv, v, rest, t, t, Some(ServerError(v.text)), rest, 0)
  {
    NoReplies(rest);
  }

  lemma LeafScanned(conv: Converter, v: Reply, t: Target, rest: bytes)
    requires !v.ErrorReply? && !v.ArrayReply?
    ensures Outcome(conv, v, rest, t, StoreLeaf(conv, v, t).0, StoreLeaf(conv, v, t).1, rest, 0)
  {
    NoReplies(rest);
  }

  lemma CellOutcome(conv: Converter, s: bytes, n: nat, t: Target)
    requires t.Cell?
    ensures ScannedArray(conv, ParseReplies(s, n), t, t, Some(Error.Conversion), s, n)
  {
  }

  /** Replies one at a time: the first `i` of them, the next, and what is behind. */
  lemma {:induction false} ItemAt(s: bytes, i: nat, n: nat)
    requires i < n && ParseReplies(s, n).Done?
    ensures var p, q := ParseReplies(s, n), ParseReplies(s, i);
      && q.Done? && q.value == p.value[..i] && ParseReply(q.rest).Done?
      && ParseReply(q.rest) == Done(p.value[i], ParseReply(q.rest).rest)
      && ParseReplies(s, i + 1) == Done(p.value[..i + 1], ParseReply(q.rest).rest)
      && Leads(ParseReply(q.rest).rest, n - i - 1, p.rest)
    decreases i
  {
    hide ParseReply;
    var p := ParseReplies(s, n);
    var u := ParseReply(s).rest;
    var tail := ParseReplies(u, n - 1);
    assert p.value == [ParseReply(s).value] + tail.value;
    NoReplies(s);
    NoReplies(u);
    if i == 0 {
      assert p.value[..1] == [ParseReply(s).value] + [];
    } else {
      ItemAt(u, i - 1, n - 1);
      assert p.value[..i] == [ParseReply(s).value] + tail.value[..i - 1];
      assert p.value[..i + 1] == [ParseReply(s).value] + tail.value[..i];
    }
  }

  lemma Shrinks(s: bytes, n: nat)
    requires n > 0 && ParseReplies(s, n).Done?
    ensures |ParseReplies(s, n).rest| < |s|
  {
  }

  predicate AllQuiet(vs: seq<Reply>) {
    forall i :: 0 <= i < |vs| ==> Quiet(vs[i])
  }

  lemma FirstIs(es: seq<Option<Error>>, i: nat)
    requires i < |es| && es[i].Some? && forall j :: 0 <= j < i ==> es[j].None?
    ensures First(es) == es[i]
  {
  }

  function IgnoredReports(conv: Converter, vs: seq<Reply>): seq<Option<Error>> {
    seq(|vs|, i requires 0 <= i < |vs| => Report(conv, vs[i], Ignore))
  }

  lemma IgnoredReportsOf(conv: Converter, vs: seq<Reply>)
    ensures Report(conv, Reply.ArrayReply(vs), Ignore) == First(IgnoredReports(conv, vs))
  {
    assert IgnoredReports(conv, vs)
        == seq(|vs|, i requires 0 <= i < |vs| => Report(conv, vs[i], Ignore));
  }

  lemma IgnoredStops(conv: Converter, p: Parsed<seq<Reply>>, i: nat, mid: bytes, u: Target, e: Option<Error>, rest: bytes, k: nat)
    requires p.Done? && i < |p.value| && AllQuiet(p.value[..i])
    requires e.Some? && Outcome(conv, p.value[i], mid, Ignore, u, e, rest, k)
    requires Leads(mid, |p.value| - i - 1, p.rest)
    ensures ScannedArray(conv, p, Ignore, Ignore, e, rest, k + (|p.value| - i - 1))
  {
    hide ParseReplies, Report, Stored, First;
    var vs, v := p.value, Reply.ArrayReply(p.value);
    var es := IgnoredReports(conv, vs);
    IgnoredReportsOf(conv, vs);
    forall j | 0 <= j < i ensures Quiet(vs[j]) && es[j].None? {
      assert vs[j] == vs[..i][j];
      IgnoredReport(conv, vs[j]);
    }
    FirstIs(es, i);
    IgnoredReport(conv, vs[i]);
    assert !Quiet(vs[i]) && (i + 1 < |vs| ==> !Fits(v, Ignore));
    if i + 1 == |vs| { assert QuietButLast(v) <==> QuietButLast(vs[i]); }
    StoredIgnored(conv, v);
    LeadsOn(rest, k, mid, |vs| - i - 1, p.rest);
  }

  lemma {:induction false} LeadsOn(s: bytes, m: nat, mid: bytes, n: nat, end: bytes)
    requires Leads(s, m, mid) && Leads(mid, n, end)
    ensures Leads(s, m + n, end)
    decreases m
  {
    hide ParseReply;
    if m > 0 { LeadsOn(ParseReply(s).rest, m - 1, mid, n, end); }
  }

  lemma StoredIgnored(conv: Converter, v: Reply)
    ensures Stored(conv, v, Ignore) == Ignore
  {
  }

  lemma IgnoredGoesOn(conv: Converter, vs: seq<Reply>, i: nat, mid: bytes, u: Target, rest: bytes, k: nat)
    requires i < |vs| && AllQuiet(vs[..i])
    requires Outcome(conv, vs[i], mid, Ignore, u, None, rest, k)
    ensures AllQuiet(vs[..i + 1]) && rest == mid
  {
    hide Report, Stored;
    IgnoredReport(conv, vs[i]);
    QuietFits(vs[i]);
    NoReplies(rest);
    assert vs[..i + 1] == vs[..i] + [vs[i]];
  }

  lemma IgnoredEnds(conv: Converter, vs: seq<Reply>, end: bytes)
    requires AllQuiet(vs)
    ensures Outcome(conv, Reply.ArrayReply(vs), end, Ignore, Ignore, None, end, 0)
  {
    hide Report, Stored;
    var v := Reply.ArrayReply(vs);
    IgnoredReport(conv, v);
    QuietFits(v);
    StoredIgnored(conv, v);
    NoReplies(end);
  }

  /** All replies are there and fit their places. */
  ghost predicate AllFit(p: Parsed<seq<Reply>>, room: seq<Target>) {
    p.Done? && |p.value| <= |room| && FirstFit(p.value, room, |p.value|)
  }

  predicate FirstFit(vs: seq<Reply>, room: seq<Target>, i: nat)
    requires i <= |vs| <= |room|
  {
    forall j :: 0 <= j < i ==> Fits(vs[j], room[j])
  }

  function Reports(conv: Converter, vs: seq<Reply>, room: seq<Target>, i: nat): seq<Option<Error>>
    requires i <= |vs| <= |room|
  {
    seq(i, j requires 0 <= j < i => Report(conv, vs[j], room[j]))
  }

  /** Where the loop over a slice stands after `i` of `n` elements: as many replies as
      are still to be scanned, and `left` more, lead to the end of the array. None more
      exactly if each of the `i` replies fitted; then all of them are dealt with. */
  ghost predicate InStep(conv: Converter, s: bytes, i: nat, n: nat, room: seq<Target>,
                         ts: seq<Target>, err: Option<Error>, u: bytes, left: nat) {
    var p := ParseReplies(s, n);
    p.Done? ==>
      && i <= n <= |room| == |ts| && Leads(u, n - i + left, p.rest)
      && (left == 0 <==> FirstFit(p.value, room, i))
      && (left == 0 ==>
            && ParseReplies(s, i) == Done(p.value[..i], u)
            && (forall j :: 0 <= j < |room| ==> ts[j] == if j < i then Stored(conv, p.value[j], room[j]) else room[j])
            && err == First(Reports(conv, p.value, room, i)))
  }

  lemma InStepStart(conv: Converter, s: bytes, n: nat, room: seq<Target>)
    requires n <= |room|
    ensures InStep(conv, s, 0, n, room, room, None, s, 0)
  {
    NoReplies(s);
  }

  lemma InStepParsed(conv: Converter, s: bytes, i: nat, n: nat, room: seq<Target>,
                     ts: seq<Target>, err: Option<Error>, u: bytes, left: nat)
    requires i < n <= |room| && InStep(conv, s, i, n, room, ts, err, u, left) && AllFit(ParseReplies(s, n), room)
    ensures |ts| == |room| && ParseReply(u).Done? && Fits(ParseReply(u).value, ts[i])
  {
    hide ParseReply, ParseReplies, Fits;
    ItemAt(s, i, n);
  }

  lemma LeadsStep(u: bytes, m: nat, end: bytes)
    requires m > 0 && Leads(u, m, end)
    ensures ParseReply(u).Done? && Leads(ParseReply(u).rest, m - 1, end)
  {
  }

  lemma InStepNext(conv: Converter, s: bytes, i: nat, n: nat, room: seq<Target>,
                   ts: seq<Target>, err: Option<Error>, u: bytes, left: nat, t: Target, e: Option<Error>, u': bytes, k: nat)
    requires i < n <= |room| == |ts| && InStep(conv, s, i, n, room, ts, err, u, left)
    requires Scanned(conv, ParseReply(u), ts[i], t, e, u', k)
    ensures InStep(conv, s, i + 1, n, room, ts[i := t], if e.Some? && err.None? then e else err, u', left + k)
  {
    hide ParseReply, ParseReplies, Fits, Stored, Report, First, Leads;
    var p := ParseReplies(s, n);
    if p.Done? {
      LeadsStep(u, n - i + left, p.rest);
      LeadsOn(u', k, ParseReply(u).rest, n - i + left - 1, p.rest);
      ItemAt(s, i, n);
      assert FirstFit(p.value, room, i + 1) <==> FirstFit(p.value, room, i) && Fits(p.value[i], room[i]);
      if left + k == 0 {
        NothingLed(u', ParseReply(u).rest);
        var es := Reports(conv, p.value, room, i);
        assert Reports(conv, p.value, room, i + 1) == es + [e];
        FirstSnoc(es, e);
      }
    }
  }

  lemma NothingLed(s: bytes, end: bytes)
    requires Leads(s, 0, end)
    ensures s == end
  {
    NoReplies(s);
  }

  /** Of the first `k` replies, only the last may report an error. */
  ghost predicate NoErrorBefore(conv: Converter, p: Parsed<seq<Reply>>, ts: seq<Target>, k: nat) {
    AllFit(p, ts) && k <= |p.value| ==>
      0 < k && forall j :: 0 <= j < k - 1 ==> Report(conv, p.value[j], ts[j]).None?
  }

  lemma NoneSoFar(conv: Converter, s: bytes, i: nat, n: nat, ts: seq<Target>, us: seq<Target>, u: bytes, left: nat)
    requires InStep(conv, s, i, n, ts, us, None, u, left)
    ensures NoErrorBefore(conv, ParseReplies(s, n), ts, i + 1)
  {
    hide ParseReplies, Report;
    var p := ParseReplies(s, n);
    if AllFit(p, ts) && i < |p.value| {
      var es := Reports(conv, p.value, ts, i);
      forall j | 0 <= j < i ensures Report(conv, p.value[j], ts[j]).None? { assert es[j].None?; }
    }
  }

  lemma {:induction false} FirstSnoc(es: seq<Option<Error>>, e: Option<Error>)
    ensures First(es + [e]) == if First(es).Some? then First(es) else e
    decreases |es|
  {
    if es == [] {
      assert [] + [e] == [e];
    } else {
      assert (es + [e])[1..] == es[1..] + [e];
      FirstSnoc(es[1..], e);
    }
  }

  lemma SliceOutcome(conv: Converter, s: bytes, n: nat, t: Target, ts: seq<Target>, err: Option<Error>, rest: bytes, left: nat)
    requires t.SliceOf? && InStep(conv, s, n, n, Room(t.items, t.zero, n), ts, err, rest, left)
    ensures ScannedArray(conv, ParseReplies(s, n), t, SliceOf(t.zero, ts), err, rest, left)
  {
    hide ParseReplies, First;
    var p, room := ParseReplies(s, n), Room(t.items, t.zero, n);
    if p.Done? && left == 0 {
      StoredSlice(conv, p.value, t, ts);
      ReportSlice(conv, p.value, t);
    }
  }

  lemma StoredSlice(conv: Converter, vs: seq<Reply>, t: Target, ts: seq<Target>)
    requires t.SliceOf? && |ts| == |Room(t.items, t.zero, |vs|)|
    requires var room := Room(t.items, t.zero, |vs|);
      forall j :: 0 <= j < |room| ==> ts[j] == if j < |vs| then Stored(conv, vs[j], room[j]) else room[j]
    ensures Stored(conv, Reply.ArrayReply(vs), t) == SliceOf(t.zero, ts)
  {
    var room := Room(t.items, t.zero, |vs|);
    assert Stored(conv, Reply.ArrayReply(vs), t).items == ts;
  }

  lemma ReportSlice(conv: Converter, vs: seq<Reply>, t: Target)
    requires t.SliceOf?
    ensures Report(conv, Reply.ArrayReply(vs), t)
         == First(Reports(conv, vs, Room(t.items, t.zero, |vs|), |vs|))
  {
    var room := Room(t.items, t.zero, |vs|);
    assert Reports(conv, vs, room, |vs|)
        == seq(|vs|, i requires 0 <= i < |vs| => Report(conv, vs[i], room[i]));
  }
}
