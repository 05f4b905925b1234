/** Commands that recycle their argument storage: Command of resp/command.go. */
module Commands {
  import opened Bytes
  import opened Lines
  import opened Tokens
  import opened Syntax
  import opened Delivery
  import opened Slices
  import opened Readers

  /** Command. `slots[..count]` is the Go slice Args and slots.Length its capacity: what
      lies beyond `count` is storage left over from earlier commands. */
  class Command {
    var name: bytes
    var slots: array<Slice>
    var count: nat

    /** The recycling invariant: unused slots are empty, and no two slots share storage. */
    ghost predicate Valid()
      reads this, slots
    {
      && count <= slots.Length
      && (forall i :: 0 <= i < slots.Length ==> slots[i].Valid())
      && (forall i :: count <= i < slots.Length ==> slots[i].Len() == 0)
      && (forall i, j :: 0 <= i < j < slots.Length ==> slots[i].Backing() !! slots[j].Backing())
    }

    ghost function Backing(): set<array<byte>>
      reads this, slots
    {
      BackingOf(slots[..])
    }

    ghost function Repr(): set<object>
      reads this, slots
    {
      {this, slots} + Backing()
    }

    function Args(): (args: seq<bytes>)
      reads this, slots, Backing()
      requires Valid()
      ensures |args| == count
      ensures forall i :: 0 <= i < count ==> args[i] == slots[i].Contents()
    {
      seq(count, i requires 0 <= i < count && Valid() reads this, slots, Backing() => slots[i].Contents())
    }

    /** What a successful read leaves in the command. */
    function Cmd(): Cmd
      reads this, slots, Backing()
      requires Valid()
    {
      Tokens.Cmd(name, Args())
    }

    constructor ()
      ensures Valid() && count == 0 && fresh(slots) && Backing() == {}
    {
      name, count := [], 0;
      slots := new Slice[0];
    }

    method Reset()
      requires Valid()
      modifies this, slots
      ensures Valid() && slots == old(slots) && count == 0 && name == []
      ensures Backing() == old(Backing())
    {
      for i := 0 to count
        invariant slots == old(slots) && count == old(count)
        invariant forall j :: 0 <= j < slots.Length ==>
                    slots[j] == if j < i then old(slots[j]).Truncated() else old(slots[j])
      {
        slots[i] := slots[i].Truncated();
      }
      name, count := [], 0;
      assert forall j :: 0 <= j < slots.Length ==> slots[j].Backing() == old(slots[j]).Backing();
      assert forall j :: 0 <= j < slots.Length && slots[j].Slice? ==> slots[j].arr == old(slots[j]).arr;
    }

    static function Blank(k: nat): seq<bytes> { seq(k, i => []) }

    /** A larger array of slots, the new ones nil. */
    method Reallocate(n: nat)
      requires Valid() && slots.Length <= n
      modifies this
      ensures Valid() && fresh(slots) && slots.Length == n && count == old(count) && name == old(name)
      ensures Backing() == old(Backing()) && Args() == old(Args())
    {
      ghost var was, args := slots[..], Args();
      var bigger := Padded(n);
      BackingOfPadded(was, n - |was|);
      assert forall i :: 0 <= i < n ==> bigger[i] == bigger[..][i];
      slots := bigger;
      assert Args() == args;
    }

    /** A copy of the slots with nil ones behind. */
    method Padded(n: nat) returns (bigger: array<Slice>)
      requires slots.Length <= n
      ensures fresh(bigger) && bigger[..] == slots[..] + Nils(n - slots.Length)
    {
      bigger := new Slice[n](i => Nil);
      forall i | 0 <= i < slots.Length { bigger[i] := slots[i]; }
    }

    /** Makes room for `n` arguments; the new ones are empty. */
    method Grow(n: nat)
      requires Valid() && count <= n
      modifies this
      ensures Valid() && (slots == old(slots) || fresh(slots)) && count == n && name == old(name)
      ensures Backing() == old(Backing())
      ensures Args() == old(Args()) + Blank(n - old(count))
    {
      if n > slots.Length { Reallocate(2 * n); }
      count := n;
      assert forall i :: old(count) <= i < n ==> slots[i].Contents() == [];
    }

    /** One argument was replaced, in place or in new storage. */
    twostate predicate Replaced(i: nat, v: bytes)
      reads this, slots, Backing()
      requires old(Valid()) && i < old(count)
    {
      && Valid() && slots == old(slots) && count == old(count) && name == old(name)
      && Args() == old(Args())[i := v]
      && fresh(Backing() - old(Backing()))
    }

    /** Stores a slice that append produced from slot `i`. */
    method Store(i: nat, q: Slice, ghost v: bytes, ghost args: seq<bytes>)
      requires i < count <= slots.Length
      requires Valid() && q.Valid() && q.Contents() == v
      requires q.Backing() == slots[i].Backing() || forall j :: 0 <= j < slots.Length ==> q.Backing() !! slots[j].Backing()
      requires |args| == count && forall j :: 0 <= j < count && j != i ==> slots[j].Contents() == args[j]
      modifies slots
      ensures Valid() && Args() == args[i := v]
      ensures Backing() <= old(Backing()) + q.Backing()
    {
      slots[i] := q;
    }

    /** args[i] = append(args[i], data...). */
    method AppendTo(i: nat, data: bytes)
      requires Valid() && i < count
      modifies slots, Backing()
      ensures Replaced(i, old(Args())[i] + data)
    {
      ghost var args := Args();
      var q := Append(slots[i], data);
      Store(i, q, args[i] + data, args);
    }

    /** args[i], err = r.ReadBulk(args[i]). */
    method ReadBulkInto(i: nat, r: Reader) returns (err: Option<Error>)
      requires Valid() && i < count && r.Valid() && r.buf !in Backing()
      modifies slots, Backing(), r, r.buf
      ensures r.Kept() && r.Faults(LostBy(err)) && Valid() && r.buf !in Backing() && fresh(Backing() - old(Backing()))
      ensures err.None? ==>
                && ParseBulk(old(r.Unread())).Done?
                && Replaced(i, old(Args())[i] + ParseBulk(old(r.Unread())).value)
                && r.Unread() == ParseBulk(old(r.Unread())).rest
      ensures err.Some? ==> Replaced(i, old(Args())[i]) && Agrees(ParseBulk(old(r.Unread())), Err(err.value), [], r.rd)
      ensures old(r.Smooth() && ClearBulk(r.Unread(), r.plan)) ==> err.None? && r.Smooth()
    {
      hide ParseBulk, ClearBulk, Agrees, Reader.Smooth, Reader.Unread;
      ghost var args := Args();
      var q;
      q, err := r.ReadBulk(slots[i]);
      Store(i, q, q.Contents(), args);
    }

    method Begin(name: bytes, nargs: nat)
      requires Valid() && count == 0
      modifies this
      ensures Valid() && (slots == old(slots) || fresh(slots)) && count == nargs && this.name == name
      ensures Backing() == old(Backing()) && Args() == Blank(nargs)
    {
      this.name := name;
      Grow(nargs);
    }

    /** A multi-bulk command behind its name. */
    method ReadMultiBulk(r: Reader, name: bytes, nargs: nat) returns (err: Option<Error>)
      requires Valid() && count == 0 && r.Valid() && r.buf !in Backing()
      modifies this, slots, Backing(), r, r.buf
      ensures r.Kept() && r.Faults(LostBy(err)) && Valid() && r.buf !in Backing() && fresh(Backing() - old(Backing()))
      ensures slots == old(slots) || fresh(slots)
      ensures err.None? ==> this.name == name && ParseBulks(old(r.Unread()), nargs) == Done(Args(), r.Unread())
      ensures err.Some? ==> Agrees(ParseBulks(old(r.Unread()), nargs), Err(err.value), [], r.rd)
      ensures old(r.Smooth() && ClearBulks(r.Unread(), nargs, r.plan)) ==> err.None? && r.Smooth()
    {
      hide ParseBulk, ClearBulk, ParseBulks, ClearBulks, Agrees, Reader.Smooth, Reader.Unread, Valid, Args, OnCuts, Flatten;
      Begin(name, nargs);
      err := FillSlots(r);
    }

    /** The loop of readMultiBulk over the arguments, all of them still empty. */
    method FillSlots(r: Reader) returns (err: Option<Error>)
      requires Valid() && Args() == Blank(count) && r.Valid() && r.buf !in Backing()
      modifies slots, Backing(), r, r.buf
      ensures r.Kept() && r.Faults(LostBy(err)) && Valid() && r.buf !in Backing() && fresh(Backing() - old(Backing()))
      ensures slots == old(slots) && count == old(count) && name == old(name)
      ensures err.None? ==> ParseBulks(old(r.Unread()), count) == Done(Args(), r.Unread())
      ensures err.Some? ==> Agrees(ParseBulks(old(r.Unread()), count), Err(err.value), [], r.rd)
      ensures old(r.Smooth() && ClearBulks(r.Unread(), count, r.plan)) ==> err.None? && r.Smooth()
    {
      hide Filled, ParseBulk, ClearBulk, ClearBulks, ParseBulks, Agrees, Reader.Smooth, Reader.Unread, Valid, Args, OnCuts, Flatten;
      ghost var s, planned := r.Unread(), r.Smooth() && ClearBulks(r.Unread(), count, r.plan);
      err := None;
      FillStart(s, count);
      for i := 0 to count
        invariant r.Kept() && r.Faults(false) && Valid() && r.buf !in Backing() && fresh(Backing() - old(Backing()))
        invariant err.None? && slots == old(slots) && count == old(count) && name == old(name)
        invariant Filled(s, i, count, Args(), r.Unread())
        invariant planned ==> r.Smooth() && ClearBulks(r.Unread(), count - i, r.plan)
      {
        if planned { ClearBulksStep(r.Unread(), count - i, r.plan); }
        err := FillSlot(i, r, s, count);
        if err.Some? { return; }
      }
      FillEnd(s, count, Args(), r.Unread());
    }

    /** The body of that loop. */
    method FillSlot(i: nat, r: Reader, ghost s: bytes, ghost n: nat) returns (err: Option<Error>)
      requires Valid() && i < count && r.Valid() && r.buf !in Backing()
      requires Filled(s, i, n, Args(), r.Unread())
      modifies slots, Backing(), r, r.buf
      ensures r.Kept() && r.Faults(LostBy(err)) && Valid() && r.buf !in Backing() && fresh(Backing() - old(Backing()))
      ensures slots == old(slots) && count == old(count) && name == old(name)
      ensures err.None? ==> Filled(s, i + 1, n, Args(), r.Unread())
      ensures err.None? ==> ParseBulk(old(r.Unread())).Done? && r.Unread() == ParseBulk(old(r.Unread())).rest
      ensures err.Some? ==> Agrees(ParseBulks(s, n), Err(err.value), [], r.rd)
      ensures old(r.Smooth() && ClearBulk(r.Unread(), r.plan)) ==> err.None? && r.Smooth()
    {
      hide Filled, ParseBulk, ParseBulks, ClearBulk, Agrees, Reader.Smooth, Reader.Unread, Valid, Args;
      ghost var u := r.Unread();
      FilledCount(s, i, n, Args(), u);
      FillStep(s, i, n, Args(), u);
      err := ReadBulkInto(i, r);
      if err.Some? { AgreesWithAll(ParseBulk(u), ParseBulks(s, n), err.value, r.rd); }
    }

    /** An inline command; false for a line without a name. */
    method ReadInline(r: Reader) returns (ok: Result<bool>)
      requires Valid() && count == 0 && r.Valid() && r.buf !in Backing()
      modifies this, slots, Backing(), r, r.buf
      ensures r.Kept() && r.Faults(Lost(ok)) && Valid() && r.buf !in Backing() && fresh(Backing() - old(Backing()))
      ensures slots == old(slots) || fresh(slots)
      ensures ok.Err? ==> Agrees(SplitLine(old(r.Unread())), Err(ok.error), r.Unread(), r.rd) && !ok.error.Protocol?
      ensures ok.Ok? ==>
                var line := SplitLine(old(r.Unread()));
                && line.Done? && r.Unread() == line.rest
                && InlineOf(line.value) == (if ok.value then Some(Cmd()) else None)
      ensures ok == Ok(false) ==> count == 0
      ensures old(r.Smooth() && ClearLine(r.Unread(), r.plan)) ==> ok.Ok? && r.Smooth()
    {
      hide SplitLine, Argument, TokensOf, Trimmed, Valid, Args, Reader.Unread;
      var line := r.ReadLine();
      if line.Err? { return Err(line.error); }
      var data := Trim(line.value);
      var name, n := AppendArgument([], data);
      data := data[n..];
      if |name| == 0 { return Ok(false); }
      ReadTokens(data);
      SetName(name);
      return Ok(true);
    }

    /** The loop of readInline over the tokens behind the name. */
    method ReadTokens(line: bytes)
      requires Valid() && count == 0
      modifies this, slots, Backing()
      ensures Valid() && fresh(Backing() - old(Backing())) && (slots == old(slots) || fresh(slots))
      ensures Args() == TokensOf(line)
    {
      hide Argument, TokensOf, Valid, Args;
      var data := line;
      TokensStep([], line);
      while |data| != 0
        invariant Valid() && fresh(Backing() - old(Backing())) && (slots == old(slots) || fresh(slots))
        invariant Args() + TokensOf(data) == TokensOf(line)
        decreases |data|
      {
        TokensStep(Args(), data);
        var n := ReadToken(data);
        data := data[n..];
      }
      TokensStep(Args(), []);
    }

    /** The body of that loop: one more slot, filled with the next token. */
    method ReadToken(data: bytes) returns (n: nat)
      requires Valid() && data != []
      modifies this, slots, Backing()
      ensures Valid() && fresh(Backing() - old(Backing())) && (slots == old(slots) || fresh(slots))
      ensures Args() == old(Args()) + [Argument([], data).token] && n == Argument([], data).used
    {
      hide Argument;
      var pos := count;
      ghost var args := Args();
      Grow(pos + 1);
      assert Args() == args + [[]];
      assert slots[pos].Contents() == Args()[pos] == [];
      var token;
      token, n := AppendArgument(slots[pos].Contents(), data);
      ghost var grown := Args();
      assert slots[pos].Len() == 0 && grown[pos] + token[0..] == token;
      AppendTo(pos, token[slots[pos].Len()..]);
      assert Args() == grown[pos := token];
    }

    method SetName(name: bytes)
      requires Valid()
      modifies this`name
      ensures Valid() && this.name == name && Args() == old(Args()) && Backing() == old(Backing())
    {
      this.name := name;
      assert forall i :: 0 <= i < count ==> Args()[i] == old(Args())[i];
    }
  }

  lemma TokensStep(args: seq<bytes>, data: bytes)
    ensures data == [] ==> args + TokensOf(data) == args
    ensures data != [] ==>
              var a := Argument([], data);
              a.used > 0 && args + TokensOf(data) == (args + [a.token]) + TokensOf(data[a.used..])
  {
    hide Argument;
    ArgumentStuck([], data);
  }

  /** An error in one part is the error of the whole. */
  lemma AgreesWithAll<T, U>(part: Parsed<T>, whole: Parsed<U>, e: Error, src: Source)
    requires Agrees(part, Err(e), [], src)
    requires part.Incomplete? ==> whole.Incomplete?
    requires part.Bad? ==> whole == Bad(part.error)
    ensures Agrees(whole, Err(e), [], src)
  {
  }

  /** Storage while `n` bulks are read from `s`: `i` arguments are filled, the others
      are still empty, and `u` is unread. */
  ghost predicate Filled(s: bytes, i: nat, n: nat, args: seq<bytes>, u: bytes) {
    i <= |args| == n && ParseBulks(s, i) == Done(args[..i], u) && forall j :: i <= j < n ==> args[j] == []
  }

  lemma FilledCount(s: bytes, i: nat, n: nat, args: seq<bytes>, u: bytes)
    requires Filled(s, i, n, args, u)
    ensures |args| == n
  {
  }

  lemma FillStart(s: bytes, n: nat)
    ensures Filled(s, 0, n, Command.Blank(n), s)
  {
    assert Command.Blank(n)[..0] == [];
  }

  lemma FillEnd(s: bytes, n: nat, args: seq<bytes>, u: bytes)
    requires Filled(s, n, n, args, u)
    ensures ParseBulks(s, n) == Done(args, u)
  {
    assert args[..n] == args;
  }

  lemma FillStep(s: bytes, i: nat, n: nat, args: seq<bytes>, u: bytes)
    requires Filled(s, i, n, args, u) && i < n
    ensures ParseBulk(u).Done? ==>
              Filled(s, i + 1, n, args[i := args[i] + ParseBulk(u).value], ParseBulk(u).rest)
    ensures ParseBulk(u).Incomplete? ==> ParseBulks(s, n).Incomplete?
    ensures ParseBulk(u).Bad? ==> ParseBulks(s, n) == Bad(ParseBulk(u).error)
  {
    hide ParseBulk, ParseBulks;
    BulksStep(s, i, n, args[..i], u);
    if ParseBulk(u).Done? {
      var more := args[i := args[i] + ParseBulk(u).value];
      assert args[i] + ParseBulk(u).value == ParseBulk(u).value;
      assert more[..i + 1] == args[..i] + [ParseBulk(u).value];
    }
  }

  /** What one more bulk does to a run of bulks, for better or worse. */
  lemma {:induction false} BulksStep(s: bytes, i: nat, n: nat, bs: seq<bytes>, u: bytes)
    requires i < n && ParseBulks(s, i) == Done(bs, u)
    ensures ParseBulk(u).Done? ==> ParseBulks(s, i + 1) == Done(bs + [ParseBulk(u).value], ParseBulk(u).rest)
    ensures ParseBulk(u).Incomplete? ==> ParseBulks(s, n).Incomplete?
    ensures ParseBulk(u).Bad? ==> ParseBulks(s, n) == Bad(ParseBulk(u).error)
    decreases i
  {
    hide ParseBulk;
    if i > 0 {
      var rest := ParseBulk(s).rest;
      BulksStep(rest, i - 1, n - 1, ParseBulks(rest, i - 1).value, u);
      var bs' := ParseBulks(rest, i - 1).value;
      assert bs == [ParseBulk(s).value] + bs';
      if ParseBulk(u).Done? {
        assert bs + [ParseBulk(u).value] == [ParseBulk(s).value] + (bs' + [ParseBulk(u).value]);
      }
    } else if ParseBulk(s).Done? {
      assert bs + [ParseBulk(s).value] == [ParseBulk(s).value] + [];
      assert ParseBulks(ParseBulk(s).rest, 0) == Done([], ParseBulk(s).rest);
    }
  }

  ghost function BackingOf(ss: seq<Slice>): set<array<byte>> {
    set i | 0 <= i < |ss| && ss[i].Slice? :: ss[i].arr
  }

  function Nils(k: nat): seq<Slice> { seq(k, i => Nil) }

  lemma BackingOfPadded(ss: seq<Slice>, k: nat)
    ensures BackingOf(ss + Nils(k)) == BackingOf(ss)
  {
    var padded := ss + Nils(k);
    forall a | a in BackingOf(ss) ensures a in BackingOf(padded) {
      var i :| 0 <= i < |ss| && ss[i].Slice? && ss[i].arr == a;
      assert padded[i] == ss[i];
    }
  }
}
