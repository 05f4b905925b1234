/** Go byte slices that own spare capacity: what `append` reuses and recycling exposes. */
module Slices {
  import opened Bytes

  /** The nil slice, or the first `len` bytes of a backing array. */
  datatype Slice = Nil | Slice(arr: array<byte>, len: nat) {
    predicate Valid() { Slice? ==> len <= arr.Length }

    function Len(): nat { if Nil? then 0 else len }

    /** v[:0]: empty, the backing array kept. */
    function Truncated(): Slice { if Nil? then Nil else Slice(arr, 0) }

    ghost function Backing(): set<array<byte>> { if Nil? then {} else {arr} }

    function Contents(): bytes
      reads Backing()
      requires Valid()
    {
      if Nil? then [] else arr[..len]
    }
  }

  /** append(p, data...): in place when the capacity allows it, else into a new array. */
  method Append(p: Slice, data: bytes) returns (q: Slice)
    requires p.Valid()
    modifies p.Backing()
    ensures q.Valid() && q.Contents() == old(p.Contents()) + data
    ensures q.Backing() == p.Backing() || fresh(q.Backing())
  {
    var n := p.Len() + |data|;
    if p.Slice? && n <= p.arr.Length {
      forall i | 0 <= i < |data| { p.arr[p.len + i] := data[i]; }
      q := Slice(p.arr, n);
    } else if n == 0 {
      q := Nil;
    } else {
      var arr := new byte[2 * n];
      var prior := p.Contents();
      forall i | 0 <= i < n { arr[i] := if i < |prior| then prior[i] else data[i - |prior|]; }
      q := Slice(arr, n);
      assert q.Contents() == prior + data;
    }
  }
}
