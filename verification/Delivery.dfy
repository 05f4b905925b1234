/** The byte source behind a reader, and what it takes for its delivery to be framed.

    An io.Reader that returns at least one byte or an error, and never both, is a list
    of chunks and a final error: a Read hands out as much of the first chunk as fits.
    Every finite run of such a reader is the run of some chunk list. */
module Delivery {
  import opened Bytes
  import opened Syntax
  import opened Tokens

  datatype Source = Source(chunks: seq<bytes>, end: SourceError) {
    predicate Valid() { forall i :: 0 <= i < |chunks| ==> chunks[i] != [] }

    function Rest(): bytes { Flatten(chunks) }
  }

  datatype ReadResult = ReadResult(data: bytes, next: Source, err: Option<SourceError>)

  /** Read into a buffer of `k` bytes. */
  function Read(s: Source, k: nat): (r: ReadResult)
    requires s.Valid()
    ensures r.next.Valid() && r.next.end == s.end
    ensures r.data + r.next.Rest() == s.Rest()
    ensures |r.data| <= k
    ensures r.err.None? && k > 0 ==> |r.data| > 0
    ensures r.err.Some? ==> s.chunks == [] && r.data == [] && r.next == s && r.err.value == s.end && s.Rest() == []
  {
    if k == 0 then ReadResult([], s, None)
    else if s.chunks == [] then ReadResult([], s, Some(s.end))
    else
      var c := s.chunks[0];
      if |c| <= k then ReadResult(c, s.(chunks := s.chunks[1..]), None)
      else
        assert c[..k] + (c[k..] + Flatten(s.chunks[1..])) == c + Flatten(s.chunks[1..]);
        ReadResult(c[..k], s.(chunks := [c[k..]] + s.chunks[1..]), None)
  }

  /** What io.ReadAtLeast and io.ReadFull report of a source that has fewer bytes than they
      want: its own error, but not the plain end behind some bytes. */
  function ShortError(s: Source): SourceError {
    if s.end == EOF && s.Rest() != [] then UnexpectedEOF else s.end
  }

  // ---------------------------------------------------------------- framed delivery

  /** The cuts of a delivery: where its chunks end. A position is named by the number of
      bytes behind it, which no amount of reading changes. `low` is a cut too: up to
      there the bytes that are being worked on must fit the buffer. A `seated` reader
      takes whole chunks only, so that it always stands on a cut. */
  datatype Plan = Plan(cuts: set<nat>, low: nat, seated: bool)

  /** From here on the chunks end exactly at `cuts`. */
  ghost predicate OnCuts(chunks: seq<bytes>, cuts: set<nat>) {
    chunks != [] ==>
      && |Flatten(chunks[1..])| in cuts
      && (forall c :: c in cuts && c < |Flatten(chunks)| ==> c <= |Flatten(chunks[1..])|)
      && OnCuts(chunks[1..], cuts)
  }

  /** Reading stays on the cuts. A Read offered room up to a cut ahead takes exactly one
      whole chunk and does not run past that cut. */
  lemma ReadKeepsPlan(s: Source, k: nat, p: Plan)
    requires s.Valid() && OnCuts(s.chunks, p.cuts) && p.low in p.cuts
    ensures OnCuts(Read(s, k).next.chunks, p.cuts)
    ensures p.low < |s.Rest()| && |s.Rest()| - p.low <= k ==>
              p.low <= |Read(s, k).next.Rest()| < |s.Rest()| && |Read(s, k).next.Rest()| in p.cuts
  {
    if k > 0 && s.chunks != [] && |s.chunks[0]| > k {
      var c, tail := s.chunks[0], s.chunks[1..];
      assert ([c[k..]] + tail)[1..] == tail;
    }
  }

  // The predicates below say that the items at the front of a stream `s` end inside
  // the batch, and that each of their header lines takes one Read at most.

  /** The line at the front of `s`, where a reader finds itself at its start or behind it.
      No cut falls between its CR and the byte behind that. A seated reader that stands on
      one of the cuts before the line's end comes past it with the next, so there may be
      one such cut; where a reader can stand anywhere, there may be none inside the line. */
  ghost predicate ClearLine(s: bytes, p: Plan) {
    var line := SplitLine(s);
    && line.Done? && |line.rest| >= p.low && |line.rest| + 1 !in p.cuts
    && (if p.seated then OneCut(|line.rest|, |s|, p.cuts) else NoCut(|line.rest|, |s|, p.cuts))
  }

  predicate NoCut(lo: nat, hi: nat, cuts: set<nat>) {
    forall c :: c in cuts ==> !(lo < c < hi)
  }

  /** At most one cut, the start of the line included. */
  predicate OneCut(lo: nat, hi: nat, cuts: set<nat>) {
    forall b, c :: b in cuts && c in cuts ==> !(lo < c < b <= hi)
  }

  ghost predicate ClearBulk(s: bytes, p: Plan) {
    ClearLine(s, p) && ParseBulk(s).Done? && |ParseBulk(s).rest| >= p.low
  }

  ghost predicate ClearBulks(s: bytes, k: nat, p: Plan)
    decreases k
  {
    k > 0 ==> ClearBulk(s, p) && ClearBulks(ParseBulk(s).rest, k - 1, p)
  }

  /** Whatever readCommand reads: empty multi-bulks and blank lines, then a command. */
  ghost predicate ClearCmd(s: bytes, p: Plan)
    decreases |s|
  {
    var h, line := ParseHeader(s, STAR, InvalidMultiBulkLength), SplitLine(s);
    && s != [] && ClearLine(s, p)
    && if s[0] == STAR then
         h.Done? && if h.value < 1 then ClearCmd(h.rest, p) else ClearBulks(h.rest, h.value, p)
       else
         InlineOf(line.value).None? ==> ClearCmd(line.rest, p)
  }

  lemma ClearCmdParts(s: bytes, p: Plan)
    requires ClearCmd(s, p)
    ensures |s| > p.low && ClearLine(s, p)
    ensures s[0] == STAR ==>
              var h := ParseHeader(s, STAR, InvalidMultiBulkLength);
              h.Done? && if h.value < 1 then ClearCmd(h.rest, p) else ClearBulks(h.rest, h.value, p)
    ensures s[0] != STAR ==>
              SplitLine(s).Done? && (InlineOf(SplitLine(s).value).None? ==> ClearCmd(SplitLine(s).rest, p))
  {
  }

  lemma ClearBulksStep(s: bytes, k: nat, p: Plan)
    requires ClearBulks(s, k, p) && k > 0
    ensures ClearBulk(s, p) && ClearBulks(ParseBulk(s).rest, k - 1, p)
  {
  }

  lemma ClearBulkParts(s: bytes, p: Plan)
    requires ClearBulk(s, p)
    ensures ClearLine(s, p)
    ensures var h := ParseHeader(s, DOLLAR, InvalidBulkLength); h.Done? && |h.rest| >= h.value + 2 + p.low
  {
  }
}
