/** What stream handlers do with a command: any sequence of calls of Next and Read that
    suits the caller, up to the return of the handler. */
module Conducts {
  import opened Bytes
  import opened Decimal
  import opened Tokens
  import opened Syntax
  import opened Verdicts
  import opened Delivery
  import opened Readers
  import opened Bulks
  import opened Commands
  import opened Requests
  import opened LazyCommands

  /** What a stream handler has got to see: of each argument that it opened the pieces its
      Reads returned, and whether it is still at the last one, short of its EOF. */
  datatype Look = Look(pieces: seq<seq<bytes>>, open: bool) {
    function Opened(): Look { Look(pieces + [[]], true) }

    function Got(data: bytes): Look
      requires pieces != []
    {
      Look(pieces[..|pieces| - 1] + [pieces[|pieces| - 1] + [data]], true)
    }

    function Ended(): Look { Look(pieces, false) }

    /** The bytes seen of the argument opened last. */
    function Last(): bytes
      requires pieces != []
    {
      Flatten(pieces[|pieces| - 1])
    }
  }

  const NOTHING: Look := Look([], false)

  /** What a stream handler does next: Next, a Read into a buffer of some size, or return. */
  datatype Action = TakeNext | ReadUpTo(size: nat) | Finish

  /** A handler decides by what it has seen. */
  type Conduct = Look -> Action

  /** It calls Next while there are arguments and not before it has read the last one to
      its EOF; it reads from an open argument only, and at least one byte. */
  ghost predicate Orderly(act: Conduct, nargs: nat) {
    forall look :: Fits(act(look), look, nargs)
  }

  predicate Fits(a: Action, look: Look, nargs: nat) {
    match a
    case TakeNext => !look.open && |look.pieces| < nargs
    case ReadUpTo(k) => look.open && look.pieces != [] && k > 0
    case Finish => true
  }

  /** It has seen the truth: the arguments in order, the last perhaps in part. */
  predicate Saw(look: Look, args: seq<bytes>) {
    && |look.pieces| <= |args|
    && (forall i :: 0 <= i < |look.pieces| ==> Flatten(look.pieces[i]) <= args[i])
    && (forall i :: 0 <= i < |look.pieces| && !(look.open && i == |look.pieces| - 1) ==> Flatten(look.pieces[i]) == args[i])
  }

  /** It has come to see this by what it did. */
  predicate Came(act: Conduct, look: Look)
    decreases |look.pieces|, if look.pieces == [] then 0 else |look.pieces[|look.pieces| - 1]|, if look.open then 0 else 1
  {
    var n := |look.pieces|;
    if !look.open then
      n == 0 || (act(Look(look.pieces, true)).ReadUpTo? && Came(act, Look(look.pieces, true)))
    else
      n > 0 &&
      var before, last := look.pieces[..n - 1], look.pieces[n - 1];
      if last == [] then act(Look(before, false)).TakeNext? && Came(act, Look(before, false))
      else
        var was := Look(before + [last[..|last| - 1]], true);
        act(was).ReadUpTo? && |last[|last| - 1]| <= act(was).size && Came(act, was)
  }

  lemma CameOpened(act: Conduct, look: Look)
    requires Came(act, look) && !look.open && act(look).TakeNext?
    ensures Came(act, look.Opened())
  {
    var next := look.Opened();
    assert next.pieces[..|look.pieces|] == look.pieces;
    assert Look(look.pieces, false) == look;
  }

  lemma CameGot(act: Conduct, look: Look, data: bytes)
    requires Came(act, look) && look.open && look.pieces != [] && act(look).ReadUpTo? && |data| <= act(look).size
    ensures Came(act, look.Got(data)) && look.Got(data).Last() == look.Last() + data
  {
    var n := |look.pieces|;
    var got, last := look.Got(data), look.pieces[n - 1] + [data];
    assert got.pieces[..n - 1] == look.pieces[..n - 1] && got.pieces[n - 1] == last;
    assert last[..|last| - 1] == look.pieces[n - 1];
    assert look.pieces[..n - 1] + [look.pieces[n - 1]] == look.pieces;
    FlattenSnoc(look.pieces[n - 1], data);
  }

  lemma {:induction false} FlattenSnoc(pieces: seq<bytes>, data: bytes)
    ensures Flatten(pieces + [data]) == Flatten(pieces) + data
    decreases |pieces|
  {
    if pieces == [] {
      assert [] + [data] == [data] && [data][1..] == [] && data + [] == data;
    } else {
      assert (pieces + [data])[1..] == pieces[1..] + [data];
      FlattenSnoc(pieces[1..], data);
    }
  }

  /** The payload bytes among the `m` bytes behind those that are `n` before the end of the
      bulk of `n0` bytes at the front of `s`. */
  ghost function Piece(s: bytes, n0: nat, n: nat, m: nat): bytes
    requires m <= n <= n0 <= |s|
  {
    s[n0 - n..][..Left(n) - Left(n - m)]
  }

  /** Whatever of these stops its Reads make, the conduct never reads on from the last
      trailer byte of a bulk. `s` is the unread stream, or, inside a bulk of `n0` bytes of
      which `n` are still to come, the stream from the start of its payload. */
  ghost predicate Suited(act: Conduct, nargs: nat, look: Look, s: bytes, n0: nat, n: nat, cuts: set<nat>)
    requires n <= n0 <= |s| && Orderly(act, nargs)
    decreases if |look.pieces| < nargs then nargs - |look.pieces| else 0, n, look.open
  {
    assert Fits(act(look), look, nargs);
    match act(look)
    case Finish => true
    case TakeNext =>
      var h := ParseHeader(s, DOLLAR, InvalidBulkLength);
      ParseBulk(s).Done? ==> Suited(act, nargs, look.Opened(), h.rest, h.value + 2, h.value + 2, cuts)
    case ReadUpTo(k) =>
      if n == 0 then Suited(act, nargs, look.Ended(), s[n0..], 0, 0, cuts)
      else
        && n != 1
        && forall m :: 0 < m <= n && MayStop(n, k, m, |s| - n0, cuts) ==>
             Suited(act, nargs, look.Got(Piece(s, n0, n, m)), s, n0, n - m, cuts)
  }

  /** Arguments that `look` has not opened yet. */
  function Unopened(look: Look, nargs: nat): nat {
    if |look.pieces| < nargs then nargs - |look.pieces| else 0
  }

  /** On a delivery without cuts, what comes behind the command has no say. */
  lemma {:induction false} SuitedAlone(act: Conduct, nargs: nat, look: Look, s: bytes, rest: bytes, n0: nat, n: nat)
    requires Orderly(act, nargs) && n <= n0 <= |s| && ParseBulks(s[n0..], Unopened(look, nargs)).Done?
    requires look.open || n0 == 0
    ensures Suited(act, nargs, look, s, n0, n, {}) <==> Suited(act, nargs, look, s + rest, n0, n, {})
    decreases Unopened(look, nargs), n, look.open
  {
    hide ParseBulk, ParseHeader, Orderly;
    Fitting(act, look, nargs);
    assert (s + rest)[n0..] == s[n0..] + rest;
    if act(look).TakeNext? {
      assert s[0..] == s;
      BulkExtends(s, rest);
      ParseBulkParts(s);
      var h := ParseHeader(s, DOLLAR, InvalidBulkLength);
      SuitedAlone(act, nargs, look.Opened(), h.rest, rest, h.value + 2, h.value + 2);
    } else if act(look).ReadUpTo? {
      if n == 0 {
        assert s[n0..][0..] == s[n0..];
        SuitedAlone(act, nargs, look.Ended(), s[n0..], rest, 0, 0);
      } else if n > 1 {
        var m := Min(act(look).size, n);
        SuitedAtHand(look, nargs, s, n0, n, m, act, act(look).size);
        SuitedAtHand(look, nargs, s + rest, n0, n, m, act, act(look).size);
        PieceAlone(s, rest, n0, n, m);
        SuitedAlone(act, nargs, look.Got(Piece(s, n0, n, m)), s, rest, n0, n - m);
      }
    }
  }

  lemma PieceAlone(s: bytes, rest: bytes, n0: nat, n: nat, m: nat)
    requires m <= n <= n0 <= |s|
    ensures Piece(s + rest, n0, n, m) == Piece(s, n0, n, m)
  {
  }

  // ---------------------------------------------------------------- at work

  /** The stream of arguments `s` begins at, or, inside one, the payload: what has been
      seen so far is true of `args`, and those not opened yet lead to `end`. */
  ghost predicate Onward(look: Look, args: seq<bytes>, end: bytes, s: bytes, n0: nat) {
    var n := |look.pieces|;
    && n <= |args| && n0 <= |s| && ParseBulks(s[n0..], |args| - n) == Done(args[n..], end)
    && (forall i :: 0 <= i < n && !(look.open && i == n - 1) ==> Flatten(look.pieces[i]) == args[i])
    && (look.open ==> n > 0 && n0 == |args[n - 1]| + 2 && args[n - 1] == s[..n0 - 2])
    && (!look.open ==> n0 == 0)
  }

  /** The command stream stands where `look` says. */
  ghost predicate Stands(c: CommandStream, look: Look, s: bytes, n0: nat)
    reads c, c.inline, c.inline.slots, c.arg, c.rd, if c.rd != null then {c.rd.buf} else {}
  {
    && c.Valid() && c.rd != null && c.rd.Valid() && !c.isInline && c.pos == |look.pieces| <= c.nargs
    && (if look.open then
          look.pieces != [] && c.arg != null && Tracked(c.arg, s, n0) && look.Last() == Seen(s, n0, c.arg.n)
        else
          c.Pending() == 0 && c.rd.Unread() == s && n0 == 0)
  }

  /** The delivery keeps to its plan, and what is left of the command is framed. */
  ghost predicate OnCourse(c: CommandStream, s: bytes, n0: nat)
    reads c, c.rd, if c.rd != null then {c.rd.buf} else {}
    requires c.rd != null
  {
    && c.rd.Smooth() && !c.rd.plan.seated && n0 <= |s| && |s| >= c.rd.plan.low + n0
    && ClearBulks(s[n0..], c.Remaining(), c.rd.plan)
  }

  /** What every call keeps. */
  twostate predicate Attended(c: CommandStream)
    reads c, c.inline, c.inline.slots, c.rd
  {
    && c.Valid() && c.Repr() == old(c.Repr()) && c.rd != null && c.rd == old(c.rd) && c.rd.Kept()
    && c.isInline == old(c.isInline) && c.nargs == old(c.nargs) && c.name == old(c.name)
  }

  /** One call of Next. */
  method AttendNext(c: CommandStream, look: Look, ghost s: bytes) returns (err: Option<Error>, ghost s': bytes, ghost n0: nat)
    requires Stands(c, look, s, 0) && !look.open && c.pos < c.nargs
    modifies c, c.rd, c.rd.buf
    ensures Attended(c) && c.rd.Faults(LostBy(err)) && (c.arg == null || fresh(c.arg))
    ensures err.None? ==>
              && Stands(c, look.Opened(), s', n0) && c.arg.n == n0 && n0 >= 2
              && ParseHeader(s, DOLLAR, InvalidBulkLength) == Done(n0 - 2, s')
    ensures err.Some? ==> Agrees(ParseBulk(s), Err(err.value), [], c.rd.rd)
    ensures old(OnCourse(c, s, 0)) ==> err.None? && OnCourse(c, s', n0)
  {
    hide ParseHeader, ParseBulk, ClearBulk, Agrees, Reader.Smooth, Reader.Unread, Command.Valid, Command.Backing;
    s', n0 := [], 0;
    if c.rd.Smooth() && ClearBulks(s, c.Remaining(), c.rd.plan) { ClearNext(s, c.Remaining(), c.rd.plan); }
    var a := c.Next();
    if a.Err? { return Some(a.error), [], 0; }
    err, s', n0 := None, c.rd.Unread(), a.value.b.n;
  }

  lemma ClearNext(s: bytes, k: nat, p: Plan)
    requires k > 0 && ClearBulks(s, k, p)
    ensures ClearBulk(s, p)
    ensures var h := ParseHeader(s, DOLLAR, InvalidBulkLength);
      && h.Done? && |h.rest| >= h.value + 2 + p.low
      && ClearBulks(h.rest[h.value + 2..], k - 1, p)
  {
    ClearBulkParts(s, p);
  }

  /** One Read: the end of the argument, or some of its bytes. */
  method AttendRead(c: CommandStream, k: nat, look: Look, ghost s: bytes, ghost n0: nat)
    returns (look': Look, more: bytes, err: Option<Error>)
    requires Stands(c, look, s, n0) && look.open && k > 0
    modifies c.arg, c.rd, c.rd.buf
    ensures Attended(c) && c.rd.Faults(LostBy(err)) && c.arg == old(c.arg) && c.pos == old(c.pos) && c.arg != null && c.arg.n <= old(c.arg.n)
    ensures err.None? && old(c.arg.n) == 0 ==> look' == look.Ended() && n0 <= |s| && Stands(c, look', s[n0..], 0)
    ensures err.None? && old(c.arg.n) > 0 ==>
              && look' == look.Got(more) && |more| <= k && c.arg.n < old(c.arg.n) && Stands(c, look', s, n0)
              && (n0 <= |s| ==> more == Piece(s, n0, old(c.arg.n), old(c.arg.n) - c.arg.n))
    ensures n0 <= |s| ==> (err.Some? <==> old(c.arg.n) == 1) && (err.Some? ==> err == Some(Split))
    ensures old(OnCourse(c, s, n0)) ==> c.rd.Smooth()
    ensures old(OnCourse(c, s, n0)) && err.None? ==>
              if old(c.arg.n) == 0 then OnCourse(c, s[n0..], 0)
              else OnCourse(c, s, n0) && MayStop(old(c.arg.n), k, old(c.arg.n) - c.arg.n, |s| - n0, c.rd.plan.cuts)
    ensures old(AtHand(c.arg) && c.arg.n > 1) ==> AtHand(c.arg) && c.arg.n == old(c.arg.n) - Min(k, old(c.arg.n))
  {
    hide Seen, Piece, ClearBulks, OnCuts, Flatten, OnTheWay, OnCourse, AtHand, MayStop, Reader.Smooth, Command.Valid, Command.Backing;
    look', err := look, None;
    CourseOnTheWay(c, s, n0);
    ghost var course := OnCourse(c, s, n0);
    var before := c.arg.n;
    var e, count;
    more, count, e := TrackedRead(c.arg, k, s, n0);
    if course { CourseBack(c, s, n0); }
    if count < 0 { return look, [], Some(Split); }
    PieceOf(s, n0, before, before - c.arg.n, more);
    if before == 0 {
      return look.Ended(), [], None;
    }
    if e.Some? { return look, [], Some(IO(e.value)); }
    look' := look.Got(more);
    FlattenSnoc(look.pieces[|look.pieces| - 1], more);
  }

  lemma CourseOnTheWay(c: CommandStream, s: bytes, n0: nat)
    requires c.rd != null && c.arg != null && c.arg.rd == c.rd && Tracked(c.arg, s, n0)
    ensures OnCourse(c, s, n0) ==>
              OnTheWay(c.arg) && n0 <= |s| && |s| >= c.rd.plan.low + n0 && ClearBulks(s[n0..], c.Remaining(), c.rd.plan)
  {
  }

  lemma CourseBack(c: CommandStream, s: bytes, n0: nat)
    requires c.rd != null && c.arg != null && c.arg.rd == c.rd && Tracked(c.arg, s, n0)
    requires OnTheWay(c.arg) && n0 <= |s| && |s| >= c.rd.plan.low + n0 && ClearBulks(s[n0..], c.Remaining(), c.rd.plan)
    ensures OnCourse(c, s, n0) && OnCourse(c, s[n0..], 0)
  {
    assert s[n0..][0..] == s[n0..];
  }

  lemma PieceOf(s: bytes, n0: nat, n: nat, m: nat, more: bytes)
    requires 2 <= n0 && m <= n <= n0 && n0 - (n - m) <= |s|
    requires Seen(s, n0, n - m) == Seen(s, n0, n) + more
    ensures |more| <= m && (n0 <= |s| ==> more == Piece(s, n0, n, m))
  {
    assert |Seen(s, n0, n - m)| - |Seen(s, n0, n)| == Left(n) - Left(n - m);
    if n0 <= |s| {
      assert more == Seen(s, n0, n - m)[|Seen(s, n0, n)|..];
    }
  }

  /** A handler at work on a command stream, from the opening of the command to its own
      return. It sees the truth and leaves the rest of the command for Discard; or a Read
      is made on the last trailer byte. (A handler whose source runs dry inside an argument
      is not followed any further.) */
  method Attend(c: CommandStream, act: Conduct) returns (look: Look, err: Option<Error>)
    requires c.Valid() && c.rd != null && c.rd.Valid() && !c.isInline && c.pos == 0 && c.arg == null
    requires Orderly(act, c.nargs)
    modifies c, c.rd, c.rd.buf
    ensures Attended(c) && c.rd.Faults(LostBy(err)) && (c.arg == null || fresh(c.arg))
    ensures Came(act, look) && (err.None? ==> act(look).Finish? && (!look.open ==> c.Pending() == 0))
    ensures var p := ParseBulks(old(c.rd.Unread()), c.nargs);
      p.Done? ==>
        if err.Some? then err.value.Delivery()
        else
          && Saw(look, p.value) && c.pos == |look.pieces| <= c.nargs && c.Pending() <= |c.rd.Unread()|
          && ParseBulks(c.rd.Unread()[c.Pending()..], c.Remaining()) == Done(p.value[c.pos..], p.rest)
    ensures old(c.rd.Smooth() && !c.rd.plan.seated && ClearBulks(c.rd.Unread(), c.nargs, c.rd.plan) && |c.rd.Unread()| >= c.rd.plan.low)
            && ParseBulks(old(c.rd.Unread()), c.nargs).Done? ==>
              var p, s, plan := ParseBulks(old(c.rd.Unread()), c.nargs), old(c.rd.Unread()), c.rd.plan;
              && (err.None? ==> c.RestClear())
              && (Suited(act, c.nargs, NOTHING, s, 0, 0, plan.cuts) ==> err.None?)
              && (NoCut(|p.rest|, |s|, plan.cuts) ==> (err.None? <==> Suited(act, c.nargs, NOTHING, s, 0, 0, {})))
  {
    hide Came, Saw, Onward, Stands, OnCourse, Suited, Orderly, Fits, ParseBulks, ClearBulks, Reader.Smooth, Reader.Unread, Command.Valid;
    ghost var u, n0: nat := c.rd.Unread(), 0;
    ghost var s, cuts, p := u, c.rd.plan.cuts, ParseBulks(u, c.nargs);
    ghost var course := p.Done? && c.rd.Smooth() && !c.rd.plan.seated && ClearBulks(u, c.nargs, c.rd.plan) && |u| >= c.rd.plan.low;
    ghost var suited := course && Suited(act, c.nargs, NOTHING, u, 0, 0, cuts);
    ghost var whole := course && NoCut(|p.rest|, |u|, cuts);
    look, err := NOTHING, None;
    Begin(c, act, u);
    while !act(look).Finish?
      invariant Attended(c) && c.rd.Faults(false) && err.None? && (c.arg == null || fresh(c.arg))
      invariant Stands(c, look, s, n0) && Came(act, look) && c.Pending() <= n0 && c.pos <= c.nargs
      invariant p.Done? ==> Onward(look, p.value, p.rest, s, n0) && |s| <= |u| && n0 <= |s|
      invariant course ==> OnCourse(c, s, n0)
      invariant suited ==> Suited(act, c.nargs, look, s, n0, c.Pending(), cuts)
      invariant whole ==> (Suited(act, c.nargs, NOTHING, u, 0, 0, {}) <==> Suited(act, c.nargs, look, s, n0, c.Pending(), {}))
      decreases c.nargs - c.pos, c.Pending(), look.open
    {
      look, err, s, n0 := AttendOnce(c, act, look, s, n0, if p.Done? then p.value else [], if p.Done? then p.rest else []);
      if err.Some? { return; }
    }
    if n0 <= |s| { FinishSuits(act, c.nargs, look, s, n0, c.Pending()); }
    AllSeen(c, look, p, s, n0);
  }

  /** What one action does: from a look `look` at the stream `s`, with `n` bytes of the open
      bulk still to come, to the next such, or to an error. `course` says that the delivery
      is framed. */
  ghost predicate Goes(act: Conduct, nargs: nat, args: seq<bytes>, end: bytes, cuts: set<nat>, course: bool,
                       look: Look, s: bytes, n0: nat, n: nat,
                       look': Look, s': bytes, n0': nat, n': nat, err: Option<Error>)
    requires n <= n0 && n' <= n0' && Orderly(act, nargs)
  {
    Onward(look, args, end, s, n0) && |args| == nargs ==>
      && (if err.None? then Onward(look', args, end, s', n0') && n0' <= |s'| <= |s| else err.value.Delivery())
      && (course ==>
            && (Suited(act, nargs, look, s, n0, n, cuts) ==> err.None? && Suited(act, nargs, look', s', n0', n', cuts))
            && (NoCut(|end|, |s|, cuts) ==>
                  (Suited(act, nargs, look, s, n0, n, {}) <==> err.None? && Suited(act, nargs, look', s', n0', n', {}))))
  }

  /** One action of the handler. */
  method AttendOnce(c: CommandStream, act: Conduct, look: Look, ghost s: bytes, ghost n0: nat, ghost args: seq<bytes>, ghost end: bytes)
    returns (look': Look, err: Option<Error>, ghost s': bytes, ghost n0': nat)
    requires Stands(c, look, s, n0) && c.Pending() <= n0 && Orderly(act, c.nargs) && !act(look).Finish? && Came(act, look)
    modifies c, c.arg, c.rd, c.rd.buf
    ensures Attended(c) && c.rd.Faults(LostBy(err)) && (c.arg == null || c.arg == old(c.arg) || fresh(c.arg))
    ensures Came(act, look') && (err.Some? ==> n0' == c.Pending())
    ensures err.None? ==> Stands(c, look', s', n0') && c.Pending() <= n0' && c.pos <= c.nargs
    ensures err.None? ==>
              || c.pos > old(c.pos)
              || (c.pos == old(c.pos) && (c.Pending() < old(c.Pending()) || (c.Pending() == old(c.Pending()) && look.open && !look'.open)))
    ensures Goes(act, c.nargs, args, end, c.rd.plan.cuts, old(OnCourse(c, s, n0)), look, s, n0, old(c.Pending()),
                 look', s', n0', c.Pending(), err)
    ensures old(OnCourse(c, s, n0)) && Onward(look, args, end, s, n0) && |args| == c.nargs && err.None? ==> OnCourse(c, s', n0')
  {
    hide Came, Onward, OnCourse, Suited, Orderly, Goes, Reader.Smooth, Reader.Unread, Command.Valid;
    Fitting(act, look, c.nargs);
    if act(look).TakeNext? {
      look', err, s', n0' := OnceNext(c, act, look, s, args, end);
    } else {
      look', err, s', n0' := OnceRead(c, act, look, s, n0, args, end);
    }
  }

  method OnceNext(c: CommandStream, act: Conduct, look: Look, ghost s: bytes, ghost args: seq<bytes>, ghost end: bytes)
    returns (look': Look, err: Option<Error>, ghost s': bytes, ghost n0: nat)
    requires Stands(c, look, s, 0) && Orderly(act, c.nargs) && act(look).TakeNext? && !look.open && c.pos < c.nargs && Came(act, look)
    modifies c, c.rd, c.rd.buf
    ensures Attended(c) && c.rd.Faults(LostBy(err)) && (c.arg == null || fresh(c.arg))
    ensures Came(act, look') && (err.Some? ==> n0 == c.Pending())
    ensures err.None? ==> Stands(c, look', s', n0) && c.Pending() <= n0 && c.pos == old(c.pos) + 1
    ensures Goes(act, c.nargs, args, end, c.rd.plan.cuts, old(OnCourse(c, s, 0)), look, s, 0, 0, look', s', n0, c.Pending(), err)
    ensures old(OnCourse(c, s, 0)) && err.None? ==> OnCourse(c, s', n0)
  {
    hide Came, Onward, OnCourse, Suited, Orderly, ParseBulks, ClearBulks, NoCut, Reader.Smooth, Reader.Unread, Command.Valid;
    ghost var onward, cuts := Onward(look, args, end, s, 0) && |args| == c.nargs, c.rd.plan.cuts;
    look' := look.Opened();
    err, s', n0 := AttendNext(c, look, s);
    if err.Some? {
      if onward { NextThere(look, args, end, s); }
      return look, err, s, c.Pending();
    }
    CameOpened(act, look);
    if onward { OnwardOpened(look, args, end, s, s', n0, act, cuts); }
  }

  method OnceRead(c: CommandStream, act: Conduct, look: Look, ghost s: bytes, ghost n0: nat, ghost args: seq<bytes>, ghost end: bytes)
    returns (look': Look, err: Option<Error>, ghost s': bytes, ghost n0': nat)
    requires Stands(c, look, s, n0) && c.Pending() <= n0 && Orderly(act, c.nargs) && Came(act, look)
    requires act(look).ReadUpTo? && act(look).size > 0 && look.open
    modifies c.arg, c.rd, c.rd.buf
    ensures Attended(c) && c.rd.Faults(LostBy(err)) && c.arg == old(c.arg) && c.pos == old(c.pos)
    ensures Came(act, look') && (err.Some? ==> n0' == c.Pending())
    ensures err.None? ==>
              && Stands(c, look', s', n0') && c.Pending() <= n0'
              && (c.Pending() < old(c.Pending()) || (c.Pending() == old(c.Pending()) && look.open && !look'.open))
    ensures Goes(act, c.nargs, args, end, c.rd.plan.cuts, old(OnCourse(c, s, n0)), look, s, n0, old(c.Pending()),
                 look', s', n0', c.Pending(), err)
    ensures old(OnCourse(c, s, n0)) && err.None? ==> OnCourse(c, s', n0')
  {
    hide Came, Goes, Onward, OnCourse, Suited, Orderly, ParseBulks, ClearBulks, MayStop, Piece, AtHand, NoCut, Reader.Smooth, Reader.Unread, Command.Valid;
    ghost var n, course, cuts := c.Pending(), OnCourse(c, s, n0), c.rd.plan.cuts;
    if course && Onward(look, args, end, s, n0) { CourseAtHand(c, look, args, end, s, n0); }
    var more;
    look', more, err := AttendRead(c, act(look).size, look, s, n0);
    GoesRead(act, c.nargs, args, end, cuts, course, look, s, n0, n, act(look).size, look', c.arg.n, err);
    if err.Some? { return look, err, s, c.Pending(); }
    s', n0' := if n == 0 then s[n0..] else s, if n == 0 then 0 else n0;
    if n == 0 { CameEnded(act, look); } else { CameGot(act, look, more); }
  }

  lemma FinishSuits(act: Conduct, nargs: nat, look: Look, s: bytes, n0: nat, n: nat)
    requires n <= n0 <= |s| && Orderly(act, nargs) && act(look).Finish?
    ensures Suited(act, nargs, look, s, n0, n, {})
  {
  }

  lemma Fitting(act: Conduct, look: Look, nargs: nat)
    requires Orderly(act, nargs)
    ensures Fits(act(look), look, nargs)
  {
  }

  lemma CameEnded(act: Conduct, look: Look)
    requires Came(act, look) && look.open && act(look).ReadUpTo?
    ensures Came(act, look.Ended())
  {
    assert Look(look.pieces, true) == look;
  }

  lemma NextThere(look: Look, args: seq<bytes>, end: bytes, s: bytes)
    requires Onward(look, args, end, s, 0) && !look.open && |look.pieces| < |args|
    ensures ParseBulk(s).Done?
  {
    assert s[0..] == s;
  }

  /** Next opens the next of the arguments. */
  lemma OnwardOpened(look: Look, args: seq<bytes>, end: bytes, s: bytes, s': bytes, n0: nat, act: Conduct, cuts: set<nat>)
    requires Onward(look, args, end, s, 0) && !look.open && |look.pieces| < |args|
    requires n0 >= 2 && ParseHeader(s, DOLLAR, InvalidBulkLength) == Done(n0 - 2, s')
    requires Orderly(act, |args|) && act(look).TakeNext?
    ensures Onward(look.Opened(), args, end, s', n0) && n0 <= |s'| <= |s|
    ensures Suited(act, |args|, look, s, 0, 0, cuts) <==> Suited(act, |args|, look.Opened(), s', n0, n0, cuts)
    ensures Suited(act, |args|, look, s, 0, 0, {}) <==> Suited(act, |args|, look.Opened(), s', n0, n0, {})
  {
    hide ParseHeader, Orderly;
    assert s[0..] == s;
    var n := |look.pieces|;
    assert args[n..][0] == args[n] && args[n..][1..] == args[n + 1..];
    forall i | 0 <= i < n ensures look.Opened().pieces[i] == look.pieces[i] {}
  }

  /** A Read goes on through the argument, or comes to its end. */
  lemma OnwardEnded(look: Look, args: seq<bytes>, end: bytes, s: bytes, n0: nat)
    requires Onward(look, args, end, s, n0) && look.open && look.Last() == Seen(s, n0, 0)
    ensures Onward(look.Ended(), args, end, s[n0..], 0)
  {
    hide ParseBulks;
    assert s[n0..][0..] == s[n0..];
  }

  lemma OnwardGot(look: Look, args: seq<bytes>, end: bytes, s: bytes, n0: nat, n: nat, m: nat)
    requires Onward(look, args, end, s, n0) && look.open && m <= n <= n0
    ensures n0 <= |s| && Onward(look.Got(Piece(s, n0, n, m)), args, end, s, n0)
  {
    hide ParseBulks, Piece;
  }

  lemma SuitedGot(look: Look, nargs: nat, s: bytes, n0: nat, n: nat, m: nat, act: Conduct, k: nat, cuts: set<nat>)
    requires Orderly(act, nargs) && act(look) == ReadUpTo(k) && n <= n0 <= |s| && n > 1 && 0 < m <= n
    requires Suited(act, nargs, look, s, n0, n, cuts) && MayStop(n, k, m, |s| - n0, cuts)
    ensures Suited(act, nargs, look.Got(Piece(s, n0, n, m)), s, n0, n - m, cuts)
  {
    hide Orderly, Piece, MayStop;
  }

  /** Where nothing cuts it short, a Read gets all that it asks for. */
  lemma SuitedAtHand(look: Look, nargs: nat, s: bytes, n0: nat, n: nat, m: nat, act: Conduct, k: nat)
    requires Orderly(act, nargs) && act(look) == ReadUpTo(k) && n <= n0 <= |s| && n > 1 && m == Min(k, n) && m > 0
    ensures Suited(act, nargs, look, s, n0, n, {}) <==> Suited(act, nargs, look.Got(Piece(s, n0, n, m)), s, n0, n - m, {})
  {
    hide Orderly, Piece;
    var end := |s| - n0;
    assert MayStop(n, k, m, end, {});
    assert forall j :: 0 < j <= n && MayStop(n, k, j, end, {}) ==> j == m;
  }

  lemma GoesRead(act: Conduct, nargs: nat, args: seq<bytes>, end: bytes, cuts: set<nat>, course: bool,
                 look: Look, s: bytes, n0: nat, n: nat, k: nat, look': Look, n': nat, err: Option<Error>)
    requires Orderly(act, nargs) && act(look) == ReadUpTo(k) && n' <= n <= n0
    requires look.open && look.pieces != [] && 2 <= n0 && n0 - n <= |s| && look.Last() == Seen(s, n0, n)
    requires n0 <= |s| ==> (err.Some? <==> n == 1) && (err.Some? ==> err == Some(Split))
    requires err.None? && n == 0 ==> n0 <= |s| && look' == look.Ended()
    requires n0 <= |s| && n > 1 ==> n' < n && look' == look.Got(Piece(s, n0, n, n - n'))
    requires n0 <= |s| && course && n > 1 ==> MayStop(n, k, n - n', |s| - n0, cuts)
    requires course && n > 1 && Onward(look, args, end, s, n0) && NoCut(|end|, |s|, cuts) ==> n - n' == Min(k, n)
    ensures if err.Some? then Goes(act, nargs, args, end, cuts, course, look, s, n0, n, look, s, n', n', err)
            else if n == 0 then Goes(act, nargs, args, end, cuts, course, look, s, n0, n, look', s[n0..], 0, 0, err)
            else Goes(act, nargs, args, end, cuts, course, look, s, n0, n, look', s, n0, n', err)
  {
    if Onward(look, args, end, s, n0) && |args| == nargs {
      OnwardFits(look, args, end, s, n0);
      hide Onward, ParseBulks, Orderly, Piece, MayStop, NoCut, Suited;
      OnwardRead(look, args, end, s, n0, n, n - n', act, k, cuts);
    }
  }

  lemma OnwardFits(look: Look, args: seq<bytes>, end: bytes, s: bytes, n0: nat)
    requires Onward(look, args, end, s, n0)
    ensures n0 <= |s|
  {
    hide ParseBulks;
  }

  lemma OnwardRead(look: Look, args: seq<bytes>, end: bytes, s: bytes, n0: nat, n: nat, m: nat, act: Conduct, k: nat, cuts: set<nat>)
    requires Onward(look, args, end, s, n0) && look.open && n <= n0 && m <= n
    requires Orderly(act, |args|) && act(look) == ReadUpTo(k)
    ensures n0 <= |s|
    ensures n == 0 && look.Last() == Seen(s, n0, n) ==>
              && Onward(look.Ended(), args, end, s[n0..], 0)
              && (Suited(act, |args|, look, s, n0, n, cuts) <==> Suited(act, |args|, look.Ended(), s[n0..], 0, 0, cuts))
              && (Suited(act, |args|, look, s, n0, n, {}) <==> Suited(act, |args|, look.Ended(), s[n0..], 0, 0, {}))
    ensures n == 1 ==> !Suited(act, |args|, look, s, n0, n, cuts) && !Suited(act, |args|, look, s, n0, n, {})
    ensures n > 1 && m > 0 ==>
              && Onward(look.Got(Piece(s, n0, n, m)), args, end, s, n0)
              && (Suited(act, |args|, look, s, n0, n, cuts) && MayStop(n, k, m, |s| - n0, cuts) ==>
                    Suited(act, |args|, look.Got(Piece(s, n0, n, m)), s, n0, n - m, cuts))
              && (m == Min(k, n) && Suited(act, |args|, look.Got(Piece(s, n0, n, m)), s, n0, n - m, {}) ==>
                    Suited(act, |args|, look, s, n0, n, {}))
              && (m == Min(k, n) && Suited(act, |args|, look, s, n0, n, {}) ==>
                    Suited(act, |args|, look.Got(Piece(s, n0, n, m)), s, n0, n - m, {}))
  {
    hide ParseBulks, Orderly, Piece, MayStop;
    if n == 0 && look.Last() == Seen(s, n0, n) { OnwardEnded(look, args, end, s, n0); }
    if n > 1 && m > 0 {
      hide Suited;
      OnwardGot(look, args, end, s, n0, n, m);
      if m == Min(k, n) { SuitedAtHand(look, |args|, s, n0, n, m, act, k); }
      if Suited(act, |args|, look, s, n0, n, cuts) && MayStop(n, k, m, |s| - n0, cuts) {
        SuitedGot(look, |args|, s, n0, n, m, act, k, cuts);
      }
    }
  }

  lemma CourseAtHand(c: CommandStream, look: Look, args: seq<bytes>, end: bytes, s: bytes, n0: nat)
    requires Stands(c, look, s, n0) && look.open && OnCourse(c, s, n0) && Onward(look, args, end, s, n0)
    ensures NoCut(|end|, |s|, c.rd.plan.cuts) ==> AtHand(c.arg)
  {
    hide ClearBulks, ParseBulks, Reader.Smooth, Command.Valid;
  }

  lemma Begin(c: CommandStream, act: Conduct, u: bytes)
    requires c.Valid() && c.rd != null && c.rd.Valid() && !c.isInline && c.pos == 0 && c.arg == null && c.rd.Unread() == u
    ensures Stands(c, NOTHING, u, 0) && Came(act, NOTHING)
    ensures var p := ParseBulks(u, c.nargs); p.Done? ==> Onward(NOTHING, p.value, p.rest, u, 0)
    ensures c.rd.Smooth() && !c.rd.plan.seated && ClearBulks(u, c.nargs, c.rd.plan) && |u| >= c.rd.plan.low ==> OnCourse(c, u, 0)
  {
    hide ParseBulks, ClearBulks, Command.Valid, Reader.Smooth, Flatten;
    assert u[0..] == u;
    var p := ParseBulks(u, c.nargs);
    if p.Done? { assert p.value[0..] == p.value; }
  }

  /** When the handler returns. */
  lemma AllSeen(c: CommandStream, look: Look, p: Parsed<seq<bytes>>, s: bytes, n0: nat)
    requires Stands(c, look, s, n0) && c.Pending() <= n0
    ensures c.pos == |look.pieces| && c.rd.Valid() && (!look.open ==> c.Pending() == 0)
    ensures p.Done? && Onward(look, p.value, p.rest, s, n0) && |p.value| == c.nargs ==>
              && Saw(look, p.value) && c.Pending() <= |c.rd.Unread()| && c.pos <= c.nargs
              && ParseBulks(c.rd.Unread()[c.Pending()..], c.Remaining()) == Done(p.value[c.pos..], p.rest)
    ensures OnCourse(c, s, n0) && n0 <= |s| && c.Pending() <= |c.rd.Unread()| ==> c.RestClear()
  {
    hide ParseBulks, ClearBulks, Seen, Reader.Smooth, Reader.Unread, Command.Valid;
    if n0 <= |s| {
      assert c.rd.Unread()[c.Pending()..] == s[n0..];
      if p.Done? && Onward(look, p.value, p.rest, s, n0) { LastSeen(look, p.value, p.rest, s, n0, c.Pending()); }
    }
  }

  lemma LastSeen(look: Look, args: seq<bytes>, end: bytes, s: bytes, n0: nat, n: nat)
    requires Onward(look, args, end, s, n0)
    requires look.open ==> 2 <= n0 && n <= n0 && look.Last() == Seen(s, n0, n)
    ensures Saw(look, args)
  {
    hide ParseBulks;
  }

  // ---------------------------------------------------------------- reading everything

  /** The first `limit` arguments are read to their ends, the `i`-th with buffers of the
      sizes `sizes(i)`. */
  function Draining(limit: nat, sizes: nat -> Sizes): Conduct {
    (look: Look) =>
      if !look.open then if |look.pieces| < limit then TakeNext else Finish
      else if look.pieces == [] then Finish
      else ReadUpTo(sizes(|look.pieces| - 1)(|look.pieces[|look.pieces| - 1]|))
  }

  ghost predicate AllPositive(sizes: nat -> Sizes) {
    forall i :: Positive(sizes(i))
  }

  lemma DrainingOrderly(limit: nat, nargs: nat, sizes: nat -> Sizes)
    requires AllPositive(sizes) && limit <= nargs
    ensures Orderly(Draining(limit, sizes), nargs)
  {
    forall look ensures Fits(Draining(limit, sizes)(look), look, nargs) {
      if look.open && look.pieces != [] {
        assert Positive(sizes(|look.pieces| - 1));
      }
    }
  }

  /** Each of the `k` bulks at the front of `s`, the first of them the `i`-th argument, is
      safe with the sizes for it. */
  ghost predicate SafeArgs(s: bytes, i: nat, k: nat, cuts: set<nat>, sizes: nat -> Sizes)
    requires AllPositive(sizes)
    decreases k
  {
    k > 0 && ParseBulk(s).Done? ==>
      var b := ParseBulk(s);
      assert Positive(sizes(i));
      SafeBy(|b.value| + 2, sizes(i), 0, |b.rest|, cuts) && SafeArgs(b.rest, i + 1, k - 1, cuts, sizes)
  }

  /** Reading everything suits exactly if every argument is safe with its sizes. */
  lemma {:induction false} DrainingSuits(limit: nat, nargs: nat, sizes: nat -> Sizes, look: Look, s: bytes, n0: nat, n: nat, cuts: set<nat>)
    requires AllPositive(sizes) && Orderly(Draining(limit, sizes), nargs) && n <= n0 <= |s| && |look.pieces| <= limit <= nargs
    requires if look.open then look.pieces != [] else n0 == 0
    ensures SuitedIfSafe(limit, nargs, sizes, look, s, n0, n, cuts)
    decreases limit - |look.pieces|, n, look.open
  {
    hide SuitedIfSafe, Orderly, AllPositive, ParseHeader, ParseBulk;
    if look.open {
      if n == 0 {
        DrainingSuits(limit, nargs, sizes, look.Ended(), s[n0..], 0, 0, cuts);
        DrainingEnds(limit, nargs, sizes, look, s, n0, cuts);
      } else {
        forall m | 0 < m <= n ensures SuitedIfSafe(limit, nargs, sizes, look.Got(Piece(s, n0, n, m)), s, n0, n - m, cuts) {
          DrainingSuits(limit, nargs, sizes, look.Got(Piece(s, n0, n, m)), s, n0, n - m, cuts);
        }
        DrainingReads(limit, nargs, sizes, look, s, n0, n, cuts);
      }
    } else if |look.pieces| < limit && ParseBulk(s).Done? {
      ParseBulkParts(s);
      var h := ParseHeader(s, DOLLAR, InvalidBulkLength);
      DrainingSuits(limit, nargs, sizes, look.Opened(), h.rest, h.value + 2, h.value + 2, cuts);
      DrainingOpens(limit, nargs, sizes, look, s, cuts);
    } else {
      DrainingStops(limit, nargs, sizes, look, s, cuts);
    }
  }

  /** What is left of the open argument, and the arguments behind it, are safe. */
  ghost predicate SafeFrom(limit: nat, sizes: nat -> Sizes, look: Look, s: bytes, n0: nat, n: nat, cuts: set<nat>)
    requires AllPositive(sizes) && n <= n0 <= |s| && |look.pieces| <= limit && (look.open ==> look.pieces != [])
  {
    var i := |look.pieces|;
    && (look.open ==>
          assert Positive(sizes(i - 1));
          SafeBy(n, sizes(i - 1), |look.pieces[i - 1]|, |s| - n0, cuts))
    && SafeArgs(s[n0..], i, limit - i, cuts, sizes)
  }

  ghost predicate SuitedIfSafe(limit: nat, nargs: nat, sizes: nat -> Sizes, look: Look, s: bytes, n0: nat, n: nat, cuts: set<nat>)
    requires AllPositive(sizes) && Orderly(Draining(limit, sizes), nargs)
    requires n <= n0 <= |s| && |look.pieces| <= limit <= nargs && (look.open ==> look.pieces != [])
  {
    Suited(Draining(limit, sizes), nargs, look, s, n0, n, cuts) <==> SafeFrom(limit, sizes, look, s, n0, n, cuts)
  }

  lemma DrainingEnds(limit: nat, nargs: nat, sizes: nat -> Sizes, look: Look, s: bytes, n0: nat, cuts: set<nat>)
    requires AllPositive(sizes) && Orderly(Draining(limit, sizes), nargs) && n0 <= |s|
    requires look.open && 0 < |look.pieces| <= limit <= nargs
    ensures SuitedIfSafe(limit, nargs, sizes, look.Ended(), s[n0..], 0, 0, cuts) ==> SuitedIfSafe(limit, nargs, sizes, look, s, n0, 0, cuts)
  {
    hide SafeArgs, Orderly, AllPositive;
    assert s[n0..][0..] == s[n0..];
    assert Positive(sizes(|look.pieces| - 1)) by { EachPositive(sizes, |look.pieces| - 1); }
  }

  lemma EachPositive(sizes: nat -> Sizes, i: nat)
    requires AllPositive(sizes)
    ensures Positive(sizes(i))
  {
  }

  lemma DrainingReads(limit: nat, nargs: nat, sizes: nat -> Sizes, look: Look, s: bytes, n0: nat, n: nat, cuts: set<nat>)
    requires AllPositive(sizes) && Orderly(Draining(limit, sizes), nargs) && 0 < n <= n0 <= |s|
    requires look.open && 0 < |look.pieces| <= limit <= nargs
    requires forall m :: 0 < m <= n ==> SuitedIfSafe(limit, nargs, sizes, look.Got(Piece(s, n0, n, m)), s, n0, n - m, cuts)
    ensures SuitedIfSafe(limit, nargs, sizes, look, s, n0, n, cuts)
  {
    hide SafeArgs, Orderly, AllPositive, Piece;
    var i, act := |look.pieces|, Draining(limit, sizes);
    EachPositive(sizes, i - 1);
    var size, j := sizes(i - 1), |look.pieces[i - 1]|;
    var k, end := size(j), |s| - n0;
    assert act(look) == ReadUpTo(k);
    forall m | 0 < m <= n
      ensures SafeFrom(limit, sizes, look.Got(Piece(s, n0, n, m)), s, n0, n - m, cuts)
           == (SafeBy(n - m, size, j + 1, end, cuts) && SafeArgs(s[n0..], i, limit - i, cuts, sizes))
    {
      assert |look.Got(Piece(s, n0, n, m)).pieces[i - 1]| == j + 1;
    }
    WholeStop(n, k, end, cuts);
    if Suited(act, nargs, look, s, n0, n, cuts) {
      assert SuitedIfSafe(limit, nargs, sizes, look.Got(Piece(s, n0, n, Min(k, n))), s, n0, n - Min(k, n), cuts);
      forall m | 0 < m && MayStop(n, size(j), m, end, cuts) ensures SafeBy(n - m, size, j + 1, end, cuts) {
        StopsWithin(n, k, m, end, cuts);
        assert SuitedIfSafe(limit, nargs, sizes, look.Got(Piece(s, n0, n, m)), s, n0, n - m, cuts);
      }
    }
    if SafeFrom(limit, sizes, look, s, n0, n, cuts) {
      forall m | 0 < m <= n && MayStop(n, k, m, end, cuts) ensures Suited(act, nargs, look.Got(Piece(s, n0, n, m)), s, n0, n - m, cuts) {
        assert SuitedIfSafe(limit, nargs, sizes, look.Got(Piece(s, n0, n, m)), s, n0, n - m, cuts);
      }
    }
  }

  lemma StopsWithin(n: nat, k: nat, m: nat, end: nat, cuts: set<nat>)
    requires MayStop(n, k, m, end, cuts)
    ensures m <= n
  {
  }

  lemma WholeStop(n: nat, k: nat, end: nat, cuts: set<nat>)
    requires k > 0 && n > 0
    ensures MayStop(n, k, Min(k, n), end, cuts) && 0 < Min(k, n) <= n
  {
  }

  lemma DrainingOpens(limit: nat, nargs: nat, sizes: nat -> Sizes, look: Look, s: bytes, cuts: set<nat>)
    requires AllPositive(sizes) && Orderly(Draining(limit, sizes), nargs)
    requires !look.open && |look.pieces| < limit <= nargs && ParseBulk(s).Done?
    ensures var h := ParseHeader(s, DOLLAR, InvalidBulkLength);
      && h.Done? && |h.rest| >= h.value + 2
      && (SuitedIfSafe(limit, nargs, sizes, look.Opened(), h.rest, h.value + 2, h.value + 2, cuts) ==>
            SuitedIfSafe(limit, nargs, sizes, look, s, 0, 0, cuts))
  {
    hide Orderly, AllPositive, ParseHeader, SafeBy;
    assert s[0..] == s;
    EachPositive(sizes, |look.pieces|);
    ParseBulkParts(s);
  }

  lemma DrainingStops(limit: nat, nargs: nat, sizes: nat -> Sizes, look: Look, s: bytes, cuts: set<nat>)
    requires AllPositive(sizes) && Orderly(Draining(limit, sizes), nargs)
    requires !look.open && |look.pieces| <= limit <= nargs && (|look.pieces| == limit || !ParseBulk(s).Done?)
    ensures SuitedIfSafe(limit, nargs, sizes, look, s, 0, 0, cuts)
  {
    assert s[0..] == s;
  }

  /** Of arguments as they are sent: the first `limit` are read without a Read on the last
      byte of a trailer exactly if no argument is hit by the sizes for it. */
  lemma DrainingSent(limit: nat, args: seq<bytes>, sizes: nat -> Sizes)
    requires AllPositive(sizes) && limit <= |args| && |EncodeBulks(args)| <= MAX_INT64
    ensures Orderly(Draining(limit, sizes), |args|)
    ensures Suited(Draining(limit, sizes), |args|, NOTHING, EncodeBulks(args), 0, 0, {})
       <==> forall i :: 0 <= i < limit ==> !Hit(args[i], sizes, i)
  {
    hide Suited, SafeArgs, Orderly;
    var s := EncodeBulks(args);
    DrainingOrderly(limit, |args|, sizes);
    DrainingSuits(limit, |args|, sizes, NOTHING, s, 0, 0, {});
    assert s[0..] == s && args[0..] == args;
    SafeSent(args, 0, limit, sizes);
  }

  ghost predicate Hit(arg: bytes, sizes: nat -> Sizes, i: nat)
    requires AllPositive(sizes)
  {
    assert Positive(sizes(i));
    HitBy(|arg| + 2, sizes(i), 0)
  }

  lemma {:induction false} SafeSent(args: seq<bytes>, i: nat, k: nat, sizes: nat -> Sizes)
    requires AllPositive(sizes) && i + k <= |args| && |EncodeBulks(args[i..])| <= MAX_INT64
    ensures SafeArgs(EncodeBulks(args[i..]), i, k, {}, sizes) <==> forall j :: i <= j < i + k ==> !Hit(args[j], sizes, j)
    decreases k
  {
    hide ParseBulk, EncodeBulk, AllPositive, HitBy;
    if k > 0 {
      var rest := EncodeBulks(args[i + 1..]);
      assert args[i..][0] == args[i] && args[i..][1..] == args[i + 1..];
      EncodeBulkLength(args[i]);
      BulkRoundTrip(args[i], rest);
      EachPositive(sizes, i);
      SafeAtHand(|args[i]| + 2, sizes(i), 0, |rest|, {});
      SafeSent(args, i + 1, k - 1, sizes);
    }
  }

  /** Buffers that are all of one size. */
  function OneSizeOf(piece: nat): nat -> Sizes { (i: nat) => (j: nat) => piece }

  /** With one buffer size for all Reads, that is so exactly if no argument is one byte
      short of a multiple of it. */
  lemma DrainingOneSize(limit: nat, args: seq<bytes>, piece: nat)
    requires piece > 1 && limit <= |args| && |EncodeBulks(args)| <= MAX_INT64
    ensures Orderly(Draining(limit, OneSizeOf(piece)), |args|)
    ensures Suited(Draining(limit, OneSizeOf(piece)), |args|, NOTHING, EncodeBulks(args), 0, 0, {})
       <==> forall i :: 0 <= i < limit ==> (|args[i]| + 2) % piece != 1
  {
    hide Suited, Orderly, HitBy, Draining;
    var sizes := OneSizeOf(piece);
    assert AllPositive(sizes) by { assert forall i :: Positive(sizes(i)); }
    DrainingSent(limit, args, sizes);
    forall i | 0 <= i < limit ensures Hit(args[i], sizes, i) == ((|args[i]| + 2) % piece == 1) {
      assert Positive(sizes(i));
      OneSize(|args[i]| + 2, piece, sizes(i), 0);
      SplitHitExactly(|args[i]| + 2, piece);
    }
  }

  /** Delivery is framed for a command and for reading all its arguments lazily. */
  ghost predicate ClearLazy(s: bytes, p: Plan, sizes: nat -> Sizes)
    requires AllPositive(sizes)
  {
    var o := ParseOpen(s);
    && ClearCmd(s, p)
    && (o.Done? && o.value.Bulks? ==> !p.seated && SafeArgs(o.rest, 0, o.value.nargs, p.cuts, sizes))
  }

  /** StreamCmd and a full read of every argument through Next, in Reads of any sizes, give
      the command that ReadCmd would give, unless a blank line comes before a multi-bulk:
      then the arguments are not offered at all and stay unread. */
  method ReadLazily(c: CommandStream, r: Reader, sizes: nat -> Sizes) returns (cmd: Cmd, err: Option<Error>)
    requires c.Valid() && r.Valid() && r.buf !in c.Repr() && AllPositive(sizes)
    modifies c.Repr(), r, r.buf
    ensures StreamSettled(c, r) && r.Faults(LostBy(err))
    ensures ParseCmd(old(r.Unread())).Done? ==>
              var open := ParseOpen(old(r.Unread()));
              if err.Some? then err.value.Delivery()
              else if BlankHead(old(r.Unread())) && open.Done? && open.value.Bulks? then
                cmd == Cmd(ParseCmd(old(r.Unread())).value.name, []) && r.Unread() == open.rest
              else ParseCmd(old(r.Unread())) == Done(cmd, r.Unread())
    ensures old(r.Smooth() && ClearLazy(r.Unread(), r.plan, sizes)) && ParseCmd(old(r.Unread())).Done? ==> err.None? && r.Smooth()
  {
    hide ParseOpen, ParseCmd, ParseBulks, BlankHead, ClearCmd, ClearBulks, SafeArgs, Reader.Unread, Reader.Smooth;
    hide Command.Args, Command.Valid, CommandStream.Holds;
    ghost var s := r.Unread();
    OpenAgrees(s);
    if ClearCmd(s, r.plan) { ClearOpen(s, r.plan); }
    err := StreamCmd(c, r);
    if err.Some? { return Cmd([], []), err; }
    cmd, err := ReadOpened(c, r, ParseOpen(s).value, sizes);
  }

  /** Reads the arguments of an opened command, as many as it offers. */
  method ReadOpened(c: CommandStream, r: Reader, ghost o: Opened, sizes: nat -> Sizes) returns (cmd: Cmd, err: Option<Error>)
    requires c.Holds(o, r) && r.Valid() && r.buf !in c.Repr() && AllPositive(sizes)
    modifies c, r, r.buf
    ensures c.Valid() && c.Repr() == old(c.Repr()) && r.Kept() && r.Faults(LostBy(err))
    ensures if o.Line? then err.None? && cmd == o.cmd && r.Unread() == old(r.Unread())
            else if old(c.isInline) then err.None? && cmd == Cmd(o.name, []) && r.Unread() == old(r.Unread())
            else ParseBulks(old(r.Unread()), o.nargs).Done? ==>
              if err.None? then cmd.name == o.name && ParseBulks(old(r.Unread()), o.nargs) == Done(cmd.args, r.Unread())
              else err.value.Delivery()
    ensures o.Line? || old(c.isInline) ==> (old(r.Smooth()) ==> r.Smooth())
    ensures o.Bulks? && ParseBulks(old(r.Unread()), o.nargs).Done?
            && old(r.Smooth() && !r.plan.seated && ClearBulks(r.Unread(), o.nargs, r.plan) && |r.Unread()| >= r.plan.low)
            && old(SafeArgs(r.Unread(), 0, o.nargs, r.plan.cuts, sizes)) ==>
              err.None? && r.Smooth()
  {
    hide ParseBulks, ClearBulks, SafeArgs, Suited, AllPositive, Came, Orderly, Reader.Unread, Reader.Smooth, Command.Valid;
    if c.isInline {
      return Cmd(c.name, c.inline.Args()), None;
    }
    ghost var u := r.Unread();
    DrainingOrderly(c.nargs, c.nargs, sizes);
    assert u[0..] == u;
    DrainingSuits(c.nargs, c.nargs, sizes, NOTHING, u, 0, 0, r.plan.cuts);
    var look;
    look, err := Attend(c, Draining(c.nargs, sizes));
    var args := seq(|look.pieces|, i requires 0 <= i < |look.pieces| => Flatten(look.pieces[i]));
    cmd := Cmd(c.name, args);
    NoBulks(r.Unread());
    if err.None? { Drained(c.nargs, sizes, look); }
    if err.None? && ParseBulks(u, c.nargs).Done? { AllRead(look, args, ParseBulks(u, c.nargs), r.Unread()); }
  }

  lemma Drained(nargs: nat, sizes: nat -> Sizes, look: Look)
    requires Came(Draining(nargs, sizes), look) && Draining(nargs, sizes)(look).Finish?
    ensures !look.open && |look.pieces| >= nargs
  {
  }

  lemma AllRead(look: Look, args: seq<bytes>, p: Parsed<seq<bytes>>, u: bytes)
    requires p.Done? && Saw(look, p.value) && !look.open && |look.pieces| == |p.value| == |args|
    requires forall i :: 0 <= i < |args| ==> args[i] == Flatten(look.pieces[i])
    ensures args == p.value && u[0..] == u
  {
  }
}
