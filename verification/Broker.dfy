/** The pub/sub broker of pubsub.go as a concurrent protocol: any number of threads, each
    inside one call of subscribe or PublishMessage, interleaved between atomic steps.

    A section under a write lock, or under a read lock that only looks something up, is
    one step. Publish holds its read lock over many steps, one for each flush. */
module Broker {
  import opened Bytes
  import opened Decimal

  type Thread = nat
  type Connection = nat

  /** A pubSubChannel. `readers` are the threads that hold the read lock. `name`, under
      which it was made, and `drawn`, how many ids it has given out, are not in the code. */
  datatype Channel = Channel(name: bytes, subscribers: map<int, Connection>, nextID: int, readers: set<Thread>, drawn: nat)

  /** Where a thread stands in its call. */
  datatype Stage =
    | Idle
    | Missing(name: bytes, conn: Connection)
    | Joining(ch: nat, conn: Connection)
    | Numbered(ch: nat, conn: Connection, sid: int)
    | Publishing(ch: nat)
    | Visiting(ch: nat, visited: set<int>, failed: set<int>, n: nat)
    | Evicting(ch: nat, failed: set<int>, n: nat)

  /** The name table, all channel objects ever made, and the threads. */
  datatype State = State(channels: map<bytes, nat>, objects: seq<Channel>, threads: map<Thread, Stage>) {
    function At(t: Thread): Stage { if t in threads then threads[t] else Idle }

    function Move(t: Thread, to: Stage): State { this.(threads := threads[t := to]) }

    function Set(c: nat, ch: Channel): State
      requires c < |objects|
    {
      this.(objects := objects[c := ch])
    }
  }

  const Start: State := State(map[], [], map[])

  datatype Step =
    | Lookup(t: Thread, name: bytes, conn: Connection)
    | Create(t: Thread)
    | Draw(t: Thread)
    | Insert(t: Thread)
    | Find(t: Thread, name: bytes)
    | ReadLock(t: Thread)
    | Flush(t: Thread, sid: int, ok: bool)
    | ReadUnlock(t: Thread)
    | Evict(t: Thread)

  /** The stages of a thread that has a channel in hand. */
  predicate Holds(s: State, p: Stage) {
    match p
    case Idle => false
    case Missing(_, _) => false
    case _ => p.ch < |s.objects|
  }

  predicate Can(s: State, e: Step) {
    var p := s.At(e.t);
    match e
    case Lookup(_, _, _) => p.Idle?
    case Find(_, _) => p.Idle?
    case Create(_) => p.Missing?
    case Draw(_) => p.Joining? && Holds(s, p)
    case Insert(_) => p.Numbered? && Holds(s, p) && s.objects[p.ch].readers == {}
    case ReadLock(_) => p.Publishing? && Holds(s, p)
    case Flush(_, sid, _) => p.Visiting? && Holds(s, p) && sid in s.objects[p.ch].subscribers && sid !in p.visited
    case ReadUnlock(_) => p.Visiting? && Holds(s, p) && p.visited == s.objects[p.ch].subscribers.Keys
    case Evict(_) => p.Evicting? && Holds(s, p) && s.objects[p.ch].readers == {}
  }

  function After(s: State, e: Step): State
    requires Can(s, e)
  {
    var p := s.At(e.t);
    match e
    case Lookup(t, name, conn) =>
      s.Move(t, if name in s.channels then Joining(s.channels[name], conn) else Missing(name, conn))
    case Create(t) =>
      if p.name in s.channels then s.Move(t, Joining(s.channels[p.name], p.conn))
      else
        s.(channels := s.channels[p.name := |s.objects|], objects := s.objects + [Channel(p.name, map[], 0, {}, 0)])
         .Move(t, Joining(|s.objects|, p.conn))
    case Draw(t) =>
      var c := s.objects[p.ch];
      var sid := Wrap(c.nextID + 1);
      s.Set(p.ch, c.(nextID := sid, drawn := c.drawn + 1)).Move(t, Numbered(p.ch, p.conn, sid))
    case Insert(t) =>
      var c := s.objects[p.ch];
      s.Set(p.ch, c.(subscribers := c.subscribers[p.sid := p.conn])).Move(t, Idle)
    case Find(t, name) =>
      s.Move(t, if name in s.channels then Publishing(s.channels[name]) else Idle)
    case ReadLock(t) =>
      var c := s.objects[p.ch];
      s.Set(p.ch, c.(readers := c.readers + {t})).Move(t, Visiting(p.ch, {}, {}, 0))
    case Flush(t, sid, ok) =>
      s.Move(t, if ok then Visiting(p.ch, p.visited + {sid}, p.failed, p.n + 1)
                else Visiting(p.ch, p.visited + {sid}, p.failed + {sid}, p.n))
    case ReadUnlock(t) =>
      var c := s.objects[p.ch];
      s.Set(p.ch, c.(readers := c.readers - {t})).Move(t, if p.failed == {} then Idle else Evicting(p.ch, p.failed, p.n))
    case Evict(t) =>
      var c := s.objects[p.ch];
      s.Set(p.ch, c.(subscribers := c.subscribers - p.failed)).Move(t, Idle)
  }

  /** A run from the empty broker: `ss[i]` before and `ss[i + 1]` after step `es[i]`. */
  ghost predicate Run(ss: seq<State>, es: seq<Step>) {
    && |ss| == |es| + 1 && ss[0] == Start
    && forall i :: 0 <= i < |es| ==> Can(ss[i], es[i]) && ss[i + 1] == After(ss[i], es[i])
  }

  // ---------------------------------------------------------------- one channel a name

  /** Names and channel objects correspond one to one. */
  predicate OneEach(s: State) {
    && (forall n :: n in s.channels ==> s.channels[n] < |s.objects| && s.objects[s.channels[n]].name == n)
    && (forall c :: 0 <= c < |s.objects| ==> s.objects[c].name in s.channels && s.channels[s.objects[c].name] == c)
  }

  lemma OneEachKept(s: State, e: Step)
    requires Can(s, e) && OneEach(s)
    ensures OneEach(After(s, e))
    ensures forall n :: n in s.channels ==> n in After(s, e).channels && After(s, e).channels[n] == s.channels[n]
    ensures |s.objects| <= |After(s, e).objects|
    ensures forall c :: 0 <= c < |s.objects| ==> After(s, e).objects[c].name == s.objects[c].name
  {
  }

  /** In any run there is one channel object a name, and a name keeps its channel. */
  lemma {:induction false} ChannelsForGood(ss: seq<State>, es: seq<Step>, i: nat, j: nat)
    requires Run(ss, es) && i <= j < |ss|
    ensures OneEach(ss[i]) && OneEach(ss[j])
    ensures forall n :: n in ss[i].channels ==> n in ss[j].channels && ss[j].channels[n] == ss[i].channels[n]
    ensures |ss[i].objects| <= |ss[j].objects|
    ensures forall c :: 0 <= c < |ss[i].objects| ==> ss[j].objects[c].name == ss[i].objects[c].name
    decreases j
  {
    if j > 0 {
      ChannelsForGood(ss, es, if i < j then i else j - 1, j - 1);
      OneEachKept(ss[j - 1], es[j - 1]);
    }
  }

  // ---------------------------------------------------------------- ids

  /** An id that the channel has given out. */
  ghost predicate Given(c: Channel, sid: int) {
    exists k :: 1 <= k <= c.drawn && sid == Ticket(k)
  }

  /** The id of the k-th call of Subscribe. */
  function Ticket(k: nat): int { Wrap(k) }

  lemma TicketsRepeat(j: nat, k: nat)
    ensures Ticket(j) == Ticket(k) <==> (k - j) % TWO_64 == 0
  {
    var a := WrapCongruent(j);
    var b := WrapCongruent(k);
    if Ticket(j) == Ticket(k) {
      assert k - j == (a - b) * TWO_64;
      Multiple(a - b);
    } else if (k - j) % TWO_64 == 0 {
      var q := (k - j) / TWO_64;
      assert k == j + q * TWO_64;
      WrapShift(j, q);
    }
  }

  lemma Multiple(q: int)
    ensures (q * TWO_64) % TWO_64 == 0
  {
  }

  /** Among 2^64 tickets the next is a new one. */
  lemma FreshTicket(c: Channel)
    requires c.nextID == Ticket(c.drawn) && c.drawn < TWO_64
    ensures Wrap(c.nextID + 1) == Ticket(c.drawn + 1) && !Given(c, Ticket(c.drawn + 1))
  {
    NextTicket(c);
    forall k | 1 <= k <= c.drawn ensures Ticket(k) != Ticket(c.drawn + 1) {
      TicketsRepeat(k, c.drawn + 1);
      assert 0 < c.drawn + 1 - k < TWO_64;
    }
  }

  lemma NextTicket(c: Channel)
    requires c.nextID == Ticket(c.drawn)
    ensures Wrap(c.nextID + 1) == Ticket(c.drawn + 1)
  {
    var k := WrapCongruent(c.drawn);
    assert c.nextID + 1 == c.drawn + 1 + k * TWO_64;
    WrapShift(c.drawn + 1, k);
  }

  lemma GivenKept(c: Channel, d: Channel, sid: int)
    requires Given(c, sid) && c.drawn <= d.drawn
    ensures Given(d, sid)
  {
  }

  // ---------------------------------------------------------------- the invariant

  predicate Counting(s: State) {
    forall c :: 0 <= c < |s.objects| ==> s.objects[c].nextID == Ticket(s.objects[c].drawn)
  }

  /** What a thread has in hand is what the channel gave it. */
  ghost predicate InHand(s: State, t: Thread, p: Stage) {
    match p
    case Idle => true
    case Missing(_, _) => true
    case Joining(c, _) => c < |s.objects|
    case Publishing(c) => c < |s.objects|
    case Numbered(c, _, sid) => c < |s.objects| && Given(s.objects[c], sid)
    case Visiting(c, visited, failed, n) =>
      && c < |s.objects| && t in s.objects[c].readers
      && visited <= s.objects[c].subscribers.Keys && failed <= visited && n + |failed| == |visited|
    case Evicting(c, failed, _) =>
      c < |s.objects| && forall sid :: sid in failed ==> Given(s.objects[c], sid)
  }

  ghost predicate AllInHand(s: State) {
    forall t :: t in s.threads ==> InHand(s, t, s.threads[t])
  }

  ghost predicate AllGiven(s: State) {
    forall c, sid :: 0 <= c < |s.objects| && sid in s.objects[c].subscribers ==> Given(s.objects[c], sid)
  }

  /** The ids that a thread is about to evict. */
  function Doomed(p: Stage, c: nat): set<int> {
    match p
    case Visiting(d, _, failed, _) => if d == c then failed else {}
    case Evicting(d, failed, _) => if d == c then failed else {}
    case _ => {}
  }

  /** An id that has not been registered yet is nobody else's: it is not registered, no
      other thread is about to register it, and none to evict it. */
  predicate Unclaimed(s: State, c: nat, t: Thread, sid: int)
    requires c < |s.objects|
  {
    && sid !in s.objects[c].subscribers
    && (forall u :: u in s.threads ==>
          && sid !in Doomed(s.threads[u], c)
          && (u != t && s.threads[u].Numbered? && s.threads[u].ch == c ==> s.threads[u].sid != sid))
  }

  predicate Distinct(s: State) {
    forall t :: t in s.threads && s.threads[t].Numbered? && Holds(s, s.threads[t])
                && s.objects[s.threads[t].ch].drawn <= TWO_64 ==>
      Unclaimed(s, s.threads[t].ch, t, s.threads[t].sid)
  }

  ghost predicate Inv(s: State) {
    OneEach(s) && Counting(s) && AllInHand(s) && AllGiven(s) && Distinct(s)
  }

  lemma InvKept(s: State, e: Step)
    requires Can(s, e) && Inv(s)
    ensures Inv(After(s, e))
  {
    OneEachKept(s, e);
    CountingKept(s, e);
    AllInHandKept(s, e);
    AllGivenKept(s, e);
    DistinctKept(s, e);
  }

  lemma CountingKept(s: State, e: Step)
    requires Can(s, e) && Counting(s)
    ensures Counting(After(s, e))
  {
    if e.Draw? { NextTicket(s.objects[s.At(e.t).ch]); }
  }

  lemma AllInHandKept(s: State, e: Step)
    requires Can(s, e) && Inv(s)
    ensures AllInHand(After(s, e))
  {
    hide Distinct, OneEach;
    var s' := After(s, e);
    forall t | t in s'.threads ensures InHand(s', t, s'.threads[t]) {
      if t == e.t { OwnHand(s, e); } else { OtherHand(s, e, t); }
    }
  }

  lemma OwnHand(s: State, e: Step)
    requires Can(s, e) && Inv(s)
    ensures InHand(After(s, e), e.t, After(s, e).At(e.t))
  {
    hide Distinct, Given;
    var p, s' := s.At(e.t), After(s, e);
    match e
    case Draw(t) =>
      hide AllInHand, AllGiven, OneEach;
      NextTicket(s.objects[p.ch]);
      LastGiven(s'.objects[p.ch]);
    case Flush(_, _, _) => OwnFlush(s, e);
    case ReadUnlock(_) => OwnUnlock(s, e);
    case _ =>
  }

  lemma OwnFlush(s: State, e: Step)
    requires Can(s, e) && Inv(s) && e.Flush?
    ensures InHand(After(s, e), e.t, After(s, e).At(e.t))
  {
    hide Distinct, Given, OneEach, AllGiven, Counting;
    var p := s.At(e.t);
    assert |p.visited + {e.sid}| == |p.visited| + 1;
    assert e.sid !in p.failed && |p.failed + {e.sid}| == |p.failed| + 1;
  }

  lemma OwnUnlock(s: State, e: Step)
    requires Can(s, e) && Inv(s) && e.ReadUnlock?
    ensures InHand(After(s, e), e.t, After(s, e).At(e.t))
  {
    hide Distinct, Given, OneEach, Counting;
    var p, s' := s.At(e.t), After(s, e);
    forall sid | sid in p.failed ensures Given(s'.objects[p.ch], sid) {
      GivenKept(s.objects[p.ch], s'.objects[p.ch], sid);
    }
  }

  lemma LastGiven(c: Channel)
    requires c.drawn > 0
    ensures Given(c, Ticket(c.drawn))
  {
  }

  lemma OtherHand(s: State, e: Step, t: Thread)
    requires Can(s, e) && Inv(s) && t != e.t && t in s.threads
    ensures InHand(After(s, e), t, s.threads[t])
  {
    hide Distinct, OneEach;
  }

  lemma AllGivenKept(s: State, e: Step)
    requires Can(s, e) && Inv(s)
    ensures AllGiven(After(s, e))
  {
  }

  lemma DistinctKept(s: State, e: Step)
    requires Can(s, e) && Inv(s)
    ensures Distinct(After(s, e))
  {
    hide Inv, Unclaimed;
    var s' := After(s, e);
    forall t | t in s'.threads && s'.threads[t].Numbered? && Holds(s', s'.threads[t])
               && s'.objects[s'.threads[t].ch].drawn <= TWO_64
      ensures Unclaimed(s', s'.threads[t].ch, t, s'.threads[t].sid)
    {
      if t == e.t {
        NewUnclaimed(s, e);
      } else {
        NumberedHolds(s, t);
        UnclaimedKept(s, e, t);
      }
    }
  }

  lemma NumberedHolds(s: State, t: Thread)
    requires Inv(s) && t in s.threads && s.threads[t].Numbered?
    ensures Holds(s, s.threads[t]) && Given(s.objects[s.threads[t].ch], s.threads[t].sid)
  {
  }

  lemma NewUnclaimed(s: State, e: Step)
    requires Can(s, e) && Inv(s) && e.Draw? && s.objects[s.At(e.t).ch].drawn < TWO_64
    ensures var p := After(s, e).At(e.t);
      p.Numbered? && p.ch < |s.objects| && Unclaimed(After(s, e), p.ch, e.t, p.sid)
  {
    hide Distinct, Given, OneEach;
    FreshTicket(s.objects[s.At(e.t).ch]);
  }

  lemma UnclaimedKept(s: State, e: Step, t: Thread)
    requires Can(s, e) && Inv(s) && t != e.t && t in s.threads
    requires var p := s.threads[t];
      p.Numbered? && p.ch < |s.objects| && After(s, e).objects[p.ch].drawn <= TWO_64
    ensures Unclaimed(After(s, e), s.threads[t].ch, t, s.threads[t].sid)
  {
    hide Given, OneEach, AllGiven, AllInHand, Counting;
    if e.Draw? { DrawsAnother(s, e, t); }
  }

  lemma DrawsAnother(s: State, e: Step, t: Thread)
    requires Can(s, e) && Inv(s) && t != e.t && t in s.threads && e.Draw?
    requires var p := s.threads[t];
      p.Numbered? && p.ch < |s.objects| && After(s, e).objects[p.ch].drawn <= TWO_64
    ensures var p, q := s.threads[t], After(s, e).At(e.t); p.ch == q.ch ==> p.sid != q.sid
  {
    hide Given, OneEach, AllGiven, Distinct;
    var p := s.threads[t];
    if s.At(e.t).ch == p.ch { FreshTicket(s.objects[p.ch]); }
  }

  // ---------------------------------------------------------------- whole runs

  lemma {:induction false} InvAlways(ss: seq<State>, es: seq<Step>, i: nat)
    requires Run(ss, es) && i < |ss|
    ensures Inv(ss[i])
    decreases i
  {
    hide Inv, Can, After;
    if i == 0 {
      InvAtStart();
    } else {
      InvAlways(ss, es, i - 1);
      InvKept(ss[i - 1], es[i - 1]);
    }
  }

  lemma InvAtStart()
    ensures Inv(Start)
  {
  }

  /** Two calls of Subscribe on one channel get the same id exactly if the number of
      calls between them is a multiple of 2^64. */
  lemma IdsRepeat(ss: seq<State>, es: seq<Step>, i: nat, j: nat, c: nat)
    requires Run(ss, es) && i < j < |es|
    requires es[i].Draw? && ss[i].At(es[i].t).ch == c
    requires es[j].Draw? && ss[j].At(es[j].t).ch == c
    ensures ss[i].objects[c].drawn < ss[j].objects[c].drawn
    ensures ss[i + 1].At(es[i].t).Numbered? && ss[j + 1].At(es[j].t).Numbered?
    ensures ss[i + 1].At(es[i].t).sid == ss[j + 1].At(es[j].t).sid
       <==> (ss[j].objects[c].drawn - ss[i].objects[c].drawn) % TWO_64 == 0
  {
    hide OneEach, AllInHand, AllGiven, Distinct;
    InvAlways(ss, es, i);
    InvAlways(ss, es, j);
    DrawnGrows(ss, es, i + 1, j, c);
    NextTicket(ss[i].objects[c]);
    NextTicket(ss[j].objects[c]);
    TicketsRepeat(ss[i].objects[c].drawn + 1, ss[j].objects[c].drawn + 1);
  }

  lemma {:induction false} DrawnGrows(ss: seq<State>, es: seq<Step>, i: nat, j: nat, c: nat)
    requires Run(ss, es) && i <= j < |ss| && c < |ss[i].objects|
    ensures c < |ss[j].objects| && ss[i].objects[c].drawn <= ss[j].objects[c].drawn
    decreases j - i
  {
    if i < j {
      DrawnGrows(ss, es, i, j - 1, c);
      assert Can(ss[j - 1], es[j - 1]);
    }
  }

  // ---------------------------------------------------------------- registration

  /** `sid` is settled: nobody is about to register it, and if it is registered, then
      for `conn`. */
  ghost predicate Settled(s: State, c: nat, sid: int, conn: Connection) {
    && c < |s.objects| && Given(s.objects[c], sid)
    && (sid in s.objects[c].subscribers ==> s.objects[c].subscribers[sid] == conn)
    && (forall u :: u in s.threads && s.threads[u].Numbered? && s.threads[u].ch == c ==> s.threads[u].sid != sid)
  }

  lemma SettledKept(s: State, e: Step, c: nat, sid: int, conn: Connection)
    requires Can(s, e) && Inv(s) && Settled(s, c, sid, conn)
    requires After(s, e).objects[c].drawn <= TWO_64
    ensures Settled(After(s, e), c, sid, conn)
  {
    hide OneEach, AllGiven, AllInHand, Distinct, Given;
    var s' := After(s, e);
    GivenKept(s.objects[c], s'.objects[c], sid);
    if e.Draw? && s.At(e.t).ch == c { FreshTicket(s.objects[c]); }
  }

  /** Insert settles its id: registered, and in no thread's hands. */
  lemma InsertSettles(s: State, e: Step)
    requires Can(s, e) && Inv(s) && e.Insert? && s.objects[s.At(e.t).ch].drawn <= TWO_64
    ensures var p, s' := s.At(e.t), After(s, e);
      && Settled(s', p.ch, p.sid, p.conn) && p.sid in s'.objects[p.ch].subscribers
      && forall u :: u in s'.threads ==> p.sid !in Doomed(s'.threads[u], p.ch)
  {
    hide OneEach, AllGiven, Counting, Given;
    var p, s' := s.At(e.t), After(s, e);
    NumberedHolds(s, e.t);
    GivenKept(s.objects[p.ch], s'.objects[p.ch], p.sid);
  }

  /** Step `b` is a failed flush of `u` to the subscription. */
  ghost predicate Bounces(ss: seq<State>, es: seq<Step>, b: nat, u: Thread, c: nat, sid: int, conn: Connection) {
    && b < |es| < |ss| && es[b] == Flush(u, sid, false)
    && ss[b].At(u).Visiting? && ss[b].At(u).ch == c && c < |ss[b].objects|
    && sid in ss[b].objects[c].subscribers && ss[b].objects[c].subscribers[sid] == conn
  }

  /** Before step `j`, the publish that `u` is in has failed to reach the subscription. */
  ghost predicate BouncedBy(ss: seq<State>, es: seq<Step>, i: nat, j: nat, u: Thread, c: nat, sid: int, conn: Connection) {
    exists b :: i <= b < j && Bounces(ss, es, b, u, c, sid, conn) && SamePublish(es, b, j, u)
  }

  /** Between steps `b` and `j`, `u` does nothing but go on with its publish. */
  predicate SamePublish(es: seq<Step>, b: nat, j: nat, u: Thread) {
    forall k :: b < k < j && k < |es| && es[k].t == u ==> es[k].Flush? || es[k].ReadUnlock?
  }

  /** Step `d` is an eviction by `u` of a list that `sid` is on. */
  ghost predicate Evicts(ss: seq<State>, es: seq<Step>, d: nat, u: Thread, c: nat, sid: int) {
    d < |es| < |ss| && es[d] == Evict(u) && ss[d].At(u).Evicting? && sid in Doomed(ss[d].At(u), c)
  }

  /** Where a subscription stands at `j`, `i` being the state in which it was finished:
      who is about to evict it has failed to reach it, and if it is gone, then such a one
      has evicted it. */
  ghost predicate Accounted(ss: seq<State>, es: seq<Step>, i: nat, j: nat, c: nat, sid: int, conn: Connection)
    requires i <= j < |ss|
  {
    && Settled(ss[j], c, sid, conn)
    && (forall u :: u in ss[j].threads && sid in Doomed(ss[j].threads[u], c) ==> BouncedBy(ss, es, i, j, u, c, sid, conn))
    && (sid !in ss[j].objects[c].subscribers ==>
          exists d, u :: i <= d < j && Evicts(ss, es, d, u, c, sid) && BouncedBy(ss, es, i, d, u, c, sid, conn))
  }

  lemma AccountedKept(ss: seq<State>, es: seq<Step>, i: nat, j: nat, c: nat, sid: int, conn: Connection)
    requires Run(ss, es) && i <= j < |es| && Inv(ss[j]) && Accounted(ss, es, i, j, c, sid, conn)
    requires ss[j + 1].objects[c].drawn <= TWO_64
    ensures Accounted(ss, es, i, j + 1, c, sid, conn)
  {
    hide Inv, Given, BouncedBy, Bounces, Evicts;
    var s, s' := ss[j], ss[j + 1];
    SettledKept(s, es[j], c, sid, conn);
    forall u | u in s'.threads && sid in Doomed(s'.threads[u], c) ensures BouncedBy(ss, es, i, j + 1, u, c, sid, conn) {
      if u in s.threads && sid in Doomed(s.threads[u], c) {
        BouncedLater(ss, es, i, j, u, c, sid, conn);
      } else {
        BouncedNow(ss, es, i, j, u, c, sid, conn);
      }
    }
    if sid !in s'.objects[c].subscribers && sid in s.objects[c].subscribers {
      assert es[j] == Evict(es[j].t) && sid in Doomed(s.At(es[j].t), c);
      assert Evicts(ss, es, j, es[j].t, c, sid) by { EvictsNow(ss, es, j, c, sid); }
    }
  }

  lemma BouncedLater(ss: seq<State>, es: seq<Step>, i: nat, j: nat, u: Thread, c: nat, sid: int, conn: Connection)
    requires Run(ss, es) && j < |es| && BouncedBy(ss, es, i, j, u, c, sid, conn)
    requires sid in Doomed(ss[j].At(u), c) && sid in Doomed(ss[j + 1].At(u), c)
    ensures BouncedBy(ss, es, i, j + 1, u, c, sid, conn)
  {
    assert Can(ss[j], es[j]);
    var b :| i <= b < j && Bounces(ss, es, b, u, c, sid, conn) && SamePublish(es, b, j, u);
    assert SamePublish(es, b, j + 1, u);
  }

  lemma BouncedNow(ss: seq<State>, es: seq<Step>, i: nat, j: nat, u: Thread, c: nat, sid: int, conn: Connection)
    requires Run(ss, es) && i <= j < |es| && Settled(ss[j], c, sid, conn)
    requires sid !in Doomed(ss[j].At(u), c) && sid in Doomed(ss[j + 1].At(u), c)
    ensures BouncedBy(ss, es, i, j + 1, u, c, sid, conn)
  {
    hide Given;
    assert Can(ss[j], es[j]);
    assert Bounces(ss, es, j, u, c, sid, conn) && SamePublish(es, j, j + 1, u);
  }

  lemma EvictsNow(ss: seq<State>, es: seq<Step>, j: nat, c: nat, sid: int)
    requires Run(ss, es) && j < |es| && es[j].Evict? && sid in Doomed(ss[j].At(es[j].t), c)
    ensures Evicts(ss, es, j, es[j].t, c, sid)
  {
  }

  /** A finished subscription stays registered, for its own connection, until a publish
      evicts it that has failed to reach it: whatever steps other threads take in
      between, and as long as the channel has not given out more than 2^64 ids. */
  lemma {:induction false} StaysRegistered(ss: seq<State>, es: seq<Step>, i: nat, j: nat)
    requires Run(ss, es) && i < j < |ss| && es[i].Insert? && ss[i].At(es[i].t).Numbered?
    requires var c := ss[i].At(es[i].t).ch; c < |ss[j].objects| && ss[j].objects[c].drawn <= TWO_64
    ensures var p := ss[i].At(es[i].t); Accounted(ss, es, i + 1, j, p.ch, p.sid, p.conn)
    decreases j
  {
    hide Inv, Can, After, Accounted, Settled;
    var p := ss[i].At(es[i].t);
    assert Can(ss[i], es[i]);
    InsertOn(ss[i], es[i]);
    DrawnGrows(ss, es, i, j, p.ch);
    InvAlways(ss, es, i);
    if j == i + 1 {
      InsertSettles(ss[i], es[i]);
      JustFinished(ss, es, i);
    } else {
      DrawnGrows(ss, es, i, j - 1, p.ch);
      DrawnGrows(ss, es, j - 1, j, p.ch);
      StaysRegistered(ss, es, i, j - 1);
      InvAlways(ss, es, j - 1);
      AccountedKept(ss, es, i + 1, j - 1, p.ch, p.sid, p.conn);
    }
  }

  lemma InsertOn(s: State, e: Step)
    requires Can(s, e) && e.Insert?
    ensures s.At(e.t).ch < |s.objects|
  {
  }

  lemma JustFinished(ss: seq<State>, es: seq<Step>, i: nat)
    requires Run(ss, es) && i < |es| && es[i].Insert? && ss[i].At(es[i].t).Numbered?
    requires var p, s' := ss[i].At(es[i].t), ss[i + 1];
      && Settled(s', p.ch, p.sid, p.conn) && p.sid in s'.objects[p.ch].subscribers
      && forall u :: u in s'.threads ==> p.sid !in Doomed(s'.threads[u], p.ch)
    ensures var p := ss[i].At(es[i].t); Accounted(ss, es, i + 1, i + 1, p.ch, p.sid, p.conn)
  {
  }

  // ---------------------------------------------------------------- publishing

  /** Between taking and giving back the read lock, a publish sees the same subscribers. */
  lemma {:induction false} NobodyJoins(ss: seq<State>, es: seq<Step>, i: nat, j: nat, t: Thread)
    requires Run(ss, es) && i < j < |ss| && es[i] == ReadLock(t) && ss[i].At(t).Publishing?
    requires forall k :: i < k < j ==> es[k] != ReadUnlock(t)
    ensures var c := ss[i].At(t).ch;
      && c < |ss[i].objects| && c < |ss[j].objects| && ss[j].At(t).Visiting? && ss[j].At(t).ch == c
      && ss[j].objects[c].subscribers == ss[i].objects[c].subscribers
    decreases j
  {
    hide Given, OneEach, AllGiven, Distinct, Counting;
    assert Can(ss[i], es[i]);
    if j > i + 1 {
      NobodyJoins(ss, es, i, j - 1, t);
      InvAlways(ss, es, j - 1);
      StillVisiting(ss[j - 1], es[j - 1], t);
    }
  }

  lemma StillVisiting(s: State, e: Step, t: Thread)
    requires Can(s, e) && Inv(s) && s.At(t).Visiting? && e != ReadUnlock(t)
    ensures var c := s.At(t).ch;
      && c < |s.objects| <= |After(s, e).objects|
      && After(s, e).At(t).Visiting? && After(s, e).At(t).ch == c
      && After(s, e).objects[c].subscribers == s.objects[c].subscribers
  {
    hide Given, OneEach, AllGiven, Distinct, Counting;
  }

  /** When a publish gives back the read lock, it has flushed to each subscriber that was
      there when it took it, once: those it counts and those that failed are all of them. */
  lemma ReachesAll(ss: seq<State>, es: seq<Step>, i: nat, j: nat, t: Thread)
    requires Run(ss, es) && i < j < |es| && es[i] == ReadLock(t) && ss[i].At(t).Publishing?
    requires es[j] == ReadUnlock(t) && forall k :: i < k < j ==> es[k] != ReadUnlock(t)
    ensures var c := ss[i].At(t).ch;
      && c < |ss[i].objects| && ss[j].At(t).Visiting?
      && ss[j].At(t).visited == ss[i].objects[c].subscribers.Keys
      && ss[j].At(t).failed <= ss[i].objects[c].subscribers.Keys
      && ss[j].At(t).n + |ss[j].At(t).failed| == |ss[i].objects[c].subscribers|
  {
    hide Given, OneEach, AllGiven, Distinct, Counting;
    NobodyJoins(ss, es, i, j, t);
    InvAlways(ss, es, j);
    assert Can(ss[j], es[j]);
    KeysCount(ss[i].objects[ss[i].At(t).ch].subscribers);
  }

  lemma KeysCount(m: map<int, Connection>)
    ensures |m.Keys| == |m|
  {
  }

  /** Eviction drops the failed ids and nobody else, in particular no one who joined
      after the flushes: neither those registered since nor those about to be. */
  lemma EvictsOnlyFailed(ss: seq<State>, es: seq<Step>, j: nat)
    requires Run(ss, es) && j < |es| && es[j].Evict? && ss[j].At(es[j].t).Evicting?
    ensures var p := ss[j].At(es[j].t);
      && p.ch < |ss[j].objects| == |ss[j + 1].objects|
      && (forall c :: 0 <= c < |ss[j].objects| && c != p.ch ==> ss[j + 1].objects[c] == ss[j].objects[c])
      && (forall sid :: sid in ss[j + 1].objects[p.ch].subscribers <==>
                          sid in ss[j].objects[p.ch].subscribers && sid !in p.failed)
      && (forall sid :: sid in ss[j + 1].objects[p.ch].subscribers ==>
                          ss[j + 1].objects[p.ch].subscribers[sid] == ss[j].objects[p.ch].subscribers[sid])
      && (ss[j].objects[p.ch].drawn <= TWO_64 ==>
            forall u :: u in ss[j].threads && ss[j].threads[u].Numbered? && ss[j].threads[u].ch == p.ch ==>
              ss[j].threads[u].sid !in p.failed)
  {
    hide Given, OneEach, AllGiven, Counting;
    InvAlways(ss, es, j);
    assert Can(ss[j], es[j]);
  }

  // ---------------------------------------------------------------- calls by name

  /** A call begins: of subscribe or of PublishMessage. */
  predicate Begins(e: Step) { e.Lookup? || e.Find? }

  /** Between steps `i` and `j`, `t` does not begin another call. */
  predicate SameCall(es: seq<Step>, i: nat, j: nat, t: Thread) {
    forall k :: i < k < j && k < |es| && es[k].t == t ==> !Begins(es[k])
  }

  /** Whatever channel the thread has in hand is the one of this name. */
  predicate HoldsFor(s: State, p: Stage, name: bytes) {
    match p
    case Idle => true
    case Missing(n, _) => n == name
    case _ => name in s.channels && s.channels[name] == p.ch
  }

  /** It is in a call of subscribe for `conn`, or past it. */
  predicate SubscribesFor(p: Stage, conn: Connection) {
    match p
    case Idle => true
    case Missing(_, k) => k == conn
    case Joining(_, k) => k == conn
    case Numbered(_, k, _) => k == conn
    case _ => false
  }

  /** It is in a call of PublishMessage, or past it. */
  predicate Publishes(p: Stage) { p.Idle? || p.Publishing? || p.Visiting? || p.Evicting? }

  lemma HandKept(s: State, e: Step, t: Thread, name: bytes)
    requires Can(s, e) && OneEach(s) && HoldsFor(s, s.At(t), name) && (e.t == t ==> !Begins(e))
    ensures HoldsFor(After(s, e), After(s, e).At(t), name)
    ensures forall conn :: SubscribesFor(s.At(t), conn) ==> SubscribesFor(After(s, e).At(t), conn)
    ensures Publishes(s.At(t)) ==> Publishes(After(s, e).At(t))
  {
    hide OneEach;
    if e.t != t {
      OneEachKept(s, e);
      OtherStays(s, e, t);
    }
  }

  lemma OtherStays(s: State, e: Step, t: Thread)
    requires Can(s, e) && e.t != t
    ensures After(s, e).At(t) == s.At(t)
  {
  }

  /** In any run, from the look-up of a name to the end of the call, the thread has the
      channel of that name in hand: also where another thread creates it in between. */
  lemma {:induction false} CallByName(ss: seq<State>, es: seq<Step>, i: nat, j: nat, t: Thread, name: bytes)
    requires Run(ss, es) && i < j < |ss| && es[i].t == t && Begins(es[i]) && es[i].name == name && SameCall(es, i, j, t)
    ensures HoldsFor(ss[j], ss[j].At(t), name)
    ensures es[i].Lookup? ==> SubscribesFor(ss[j].At(t), es[i].conn)
    ensures es[i].Find? ==> Publishes(ss[j].At(t))
    decreases j
  {
    hide OneEach, HoldsFor, SubscribesFor, After, Can;
    ChannelsForGood(ss, es, i, j);
    if j > i + 1 {
      CallByName(ss, es, i, j - 1, t, name);
      ChannelsForGood(ss, es, j - 1, j);
      HandKept(ss[j - 1], es[j - 1], t, name);
    } else {
      CallBegins(ss[i], es[i]);
    }
  }

  lemma CallBegins(s: State, e: Step)
    requires Can(s, e) && Begins(e)
    ensures HoldsFor(After(s, e), After(s, e).At(e.t), e.name)
    ensures e.Lookup? ==> SubscribesFor(After(s, e).At(e.t), e.conn)
    ensures e.Find? ==> Publishes(After(s, e).At(e.t))
  {
  }

  /** A subscription ends up with the channel of the name that was asked for: where one
      more thread has made that channel in the meantime, with that one's. */
  lemma SubscribesByName(ss: seq<State>, es: seq<Step>, i: nat, j: nat, t: Thread, name: bytes, conn: Connection)
    requires Run(ss, es) && i < j < |es| && es[i] == Lookup(t, name, conn) && es[j] == Insert(t) && SameCall(es, i, j, t)
    ensures ss[j].At(t).Numbered? && name in ss[j].channels && name in ss[j + 1].channels
    ensures var c, sid := ss[j + 1].channels[name], ss[j].At(t).sid;
      && c == ss[j].channels[name] == ss[j].At(t).ch && ss[j].At(t).conn == conn && c < |ss[j + 1].objects|
      && sid in ss[j + 1].objects[c].subscribers && ss[j + 1].objects[c].subscribers[sid] == conn
  {
    CallByName(ss, es, i, j, t, name);
    ChannelsForGood(ss, es, j, j + 1);
    assert Can(ss[j], es[j]);
  }

  /** A publish takes the read lock of the channel of its name, and evicts from it. */
  lemma PublishesByName(ss: seq<State>, es: seq<Step>, i: nat, j: nat, t: Thread, name: bytes)
    requires Run(ss, es) && i < j < |es| && es[i] == Find(t, name) && es[j].t == t && SameCall(es, i, j + 1, t)
    ensures ss[j].At(t).Publishing? || ss[j].At(t).Visiting? || ss[j].At(t).Evicting?
    ensures name in ss[j].channels && ss[j].At(t).ch == ss[j].channels[name]
    ensures es[j].ReadLock? || es[j].Flush? || es[j].ReadUnlock? || es[j].Evict?
    ensures var c := ss[j].channels[name];
      && c < |ss[j].objects| && |ss[j].objects| == |ss[j + 1].objects|
      && (forall d :: 0 <= d < |ss[j].objects| && d != c ==> ss[j + 1].objects[d] == ss[j].objects[d])
  {
    CallByName(ss, es, i, j, t, name);
    ChannelsForGood(ss, es, j, j);
    assert Can(ss[j], es[j]);
  }

  lemma SettledAt(ss: seq<State>, es: seq<Step>, i: nat, j: nat, c: nat, sid: int, conn: Connection)
    requires i <= j < |ss| && Accounted(ss, es, i, j, c, sid, conn)
    ensures c < |ss[j].objects|
    ensures sid in ss[j].objects[c].subscribers ==> ss[j].objects[c].subscribers[sid] == conn
    ensures sid !in ss[j].objects[c].subscribers ==>
              exists d, u :: i <= d < j && Evicts(ss, es, d, u, c, sid) && BouncedBy(ss, es, i, d, u, c, sid, conn)
  {
  }

  /** The channel of this name has not given out more than 2^64 ids. */
  predicate FewIds(s: State, name: bytes) {
    name in s.channels && s.channels[name] < |s.objects| ==> s.objects[s.channels[name]].drawn <= TWO_64
  }

  /** Who has subscribed to a name gets what is published under it: a publish that takes
      its read lock after the subscription was finished has flushed to it when it gives the
      lock back, unless an earlier publish has failed to reach it and evicted it. */
  lemma Delivered(ss: seq<State>, es: seq<Step>, i: nat, j: nat, t: Thread, name: bytes, conn: Connection,
                  f: nat, l: nat, m: nat, u: Thread)
    requires Run(ss, es) && i < j < |es| && es[i] == Lookup(t, name, conn) && es[j] == Insert(t) && SameCall(es, i, j, t)
    requires f < l < m < |es| && es[f] == Find(u, name) && es[l] == ReadLock(u) && es[m] == ReadUnlock(u) && SameCall(es, f, m, u)
    requires j < l && forall k :: l < k < m ==> es[k] != ReadUnlock(u)
    requires FewIds(ss[l], name)
    ensures ss[j].At(t).Numbered? && ss[l].At(u).Publishing? && ss[m].At(u).Visiting? && name in ss[l].channels
    ensures var c, sid := ss[l].channels[name], ss[j].At(t).sid;
      if sid in ss[m].At(u).visited then
        c < |ss[l].objects| && sid in ss[l].objects[c].subscribers && ss[l].objects[c].subscribers[sid] == conn
      else
        exists d, v :: j + 1 <= d < l && Evicts(ss, es, d, v, c, sid) && BouncedBy(ss, es, j + 1, d, v, c, sid, conn)
  {
    hide OneEach, Inv, Accounted, HoldsFor, After, Evicts, BouncedBy;
    SubscribesByName(ss, es, i, j, t, name, conn);
    PublishesByName(ss, es, f, l, u, name);
    assert Can(ss[l], es[l]);
    ChannelsForGood(ss, es, j, l);
    var c, sid := ss[l].channels[name], ss[j].At(t).sid;
    StaysRegistered(ss, es, j, l);
    SettledAt(ss, es, j + 1, l, c, sid, conn);
    ReachesAll(ss, es, l, m, u);
  }
}
