/** The classes of pubsub.go. Each method, run without interruption, is the run of one
    thread through the steps of the protocol in module Broker. */
module PubSub {
  import opened Bytes
  import opened Decimal
  import opened Broker

  /** Steps taken one after the other; None where one of them is not possible. */
  function Exec(s: State, es: seq<Step>): Option<State>
    decreases |es|
  {
    if es == [] then Some(s)
    else if Can(s, es[0]) then Exec(After(s, es[0]), es[1..])
    else None
  }

  lemma {:induction false} ExecAppend(s: State, a: seq<Step>, b: seq<Step>)
    ensures Exec(s, a + b) == if Exec(s, a).None? then None else Exec(Exec(s, a).value, b)
    decreases |a|
  {
    hide Can, After;
    if a == [] {
      assert a + b == b;
    } else {
      assert (a + b)[1..] == a[1..] + b;
      if Can(s, a[0]) { ExecAppend(After(s, a[0]), a[1..], b); }
    }
  }

  /** An order in which a map with these keys can be iterated. */
  predicate IsOrder(order: seq<int>, keys: set<int>) {
    (forall i, j :: 0 <= i < j < |order| ==> order[i] != order[j]) && Elements(order) == keys
  }

  function Elements(order: seq<int>): set<int> {
    set i | 0 <= i < |order| :: order[i]
  }

  /** The ids whose connection cannot be flushed. */
  function Unreached(order: seq<int>, reach: int -> bool): (ids: set<int>) {
    set i | 0 <= i < |order| && !reach(order[i]) :: order[i]
  }

  function Flushes(t: Thread, order: seq<int>, reach: int -> bool): seq<Step> {
    seq(|order|, i requires 0 <= i < |order| => Flush(t, order[i], reach(order[i])))
  }

  /** What a whole publish on a channel that is in hand does, step by step. */
  function PublishSteps(t: Thread, order: seq<int>, reach: int -> bool): seq<Step> {
    [ReadLock(t)] + Flushes(t, order, reach) + [ReadUnlock(t)]
    + if Unreached(order, reach) == {} then [] else [Evict(t)]
  }

  function SubscribeSteps(known: bool, t: Thread, name: bytes, conn: Connection): seq<Step> {
    [Lookup(t, name, conn)] + (if known then [] else [Create(t)]) + [Draw(t), Insert(t)]
  }

  /** Where a publish stands after `i` of its flushes. */
  function Flushed(c: nat, order: seq<int>, reach: int -> bool, i: nat): Stage
    requires i <= |order|
  {
    Visiting(c, Elements(order[..i]), Unreached(order[..i], reach), |Reached(order[..i], reach)|)
  }

  lemma {:induction false} FlushesRun(s: State, t: Thread, order: seq<int>, reach: int -> bool, i: nat)
    requires s.At(t).Visiting? && s.At(t).ch < |s.objects| && i <= |order|
    requires s.At(t).visited == {} && s.At(t).failed == {} && s.At(t).n == 0
    requires IsOrder(order, s.objects[s.At(t).ch].subscribers.Keys)
    ensures Exec(s, Flushes(t, order[..i], reach)) == Some(s.Move(t, Flushed(s.At(t).ch, order, reach, i)))
    decreases i
  {
    hide Can, After;
    var c := s.At(t).ch;
    if i == 0 {
      assert order[..0] == [] && Elements([]) == {} && Unreached([], reach) == {} && Reached([], reach) == {};
      assert s.Move(t, s.At(t)).threads == s.threads;
    } else {
      hide Exec, Flushed, Elements, Unreached, IsOrder;
      FlushesRun(s, t, order, reach, i - 1);
      var flush := Flush(t, order[i - 1], reach(order[i - 1]));
      assert Flushes(t, order[..i], reach) == Flushes(t, order[..i - 1], reach) + [flush];
      ExecAppend(s, Flushes(t, order[..i - 1], reach), [flush]);
      FlushedStep(s, t, c, order, reach, i - 1);
    }
  }

  lemma FlushedStep(s: State, t: Thread, c: nat, order: seq<int>, reach: int -> bool, i: nat)
    requires c < |s.objects| && i < |order| && IsOrder(order, s.objects[c].subscribers.Keys)
    ensures Exec(s.Move(t, Flushed(c, order, reach, i)), [Flush(t, order[i], reach(order[i]))])
         == Some(s.Move(t, Flushed(c, order, reach, i + 1)))
  {
    hide Exec, Elements, Unreached, Reached, Can, After;
    ElementsSnoc(order, reach, i);
    ReachedSnoc(order, reach, i);
    IsElement(order, i);
    FlushStep(s, t, Flushed(c, order, reach, i), order[i], reach(order[i]));
    assert Unreached(order[..i], reach) + {} == Unreached(order[..i], reach);
  }

  lemma IsElement(order: seq<int>, i: nat)
    requires i < |order|
    ensures order[i] in Elements(order)
  {
  }

  lemma FlushStep(s: State, t: Thread, p: Stage, id: int, ok: bool)
    requires p.Visiting? && p.ch < |s.objects| && id in s.objects[p.ch].subscribers && id !in p.visited
    ensures Exec(s.Move(t, p), [Flush(t, id, ok)])
         == Some(s.Move(t, if ok then Visiting(p.ch, p.visited + {id}, p.failed, p.n + 1)
                           else Visiting(p.ch, p.visited + {id}, p.failed + {id}, p.n)))
  {
    var e := Flush(t, id, ok);
    ExecOne(s.Move(t, p), e);
    MoveTwice(s, t, p, After(s.Move(t, p), e).At(t));
  }

  lemma ExecOne(s: State, e: Step)
    ensures Exec(s, [e]) == if Can(s, e) then Some(After(s, e)) else None
  {
    hide Can, After;
    if Can(s, e) { assert Exec(After(s, e), [e][1..]) == Some(After(s, e)); }
  }

  lemma ElementsSnoc(order: seq<int>, reach: int -> bool, i: nat)
    requires i < |order| && forall j, k :: 0 <= j < k < |order| ==> order[j] != order[k]
    ensures Elements(order[..i + 1]) == Elements(order[..i]) + {order[i]}
    ensures order[i] !in Elements(order[..i]) && order[i] !in Unreached(order[..i], reach)
    ensures Unreached(order[..i + 1], reach) == Unreached(order[..i], reach) + if reach(order[i]) then {} else {order[i]}
  {
  }

  /** A whole publish, uninterrupted: the unreached are gone, the others counted. */
  lemma PublishRun(s: State, t: Thread, order: seq<int>, reach: int -> bool)
    requires s.At(t).Publishing? && s.At(t).ch < |s.objects| && s.objects[s.At(t).ch].readers == {}
    requires IsOrder(order, s.objects[s.At(t).ch].subscribers.Keys)
    ensures var c := s.At(t).ch;
      Exec(s, PublishSteps(t, order, reach))
        == Some(s.Set(c, s.objects[c].(subscribers := s.objects[c].subscribers - Unreached(order, reach))).Move(t, Idle))
  {
    hide Exec, IsOrder, Elements, Unreached, Flushes, PublishSteps, Can, After;
    var c := s.At(t).ch;
    var o, failed := s.objects[c], Unreached(order, reach);
    var flushes, last := Flushes(t, order, reach), if failed == {} then [] else [Evict(t)];
    assert PublishSteps(t, order, reach) == [ReadLock(t)] + flushes + [ReadUnlock(t)] + last by { StepsOf(t, order, reach); }
    var s1 := s.Set(c, o.(readers := {t})).Move(t, Visiting(c, {}, {}, 0));
    assert Exec(s, [ReadLock(t)]) == Some(s1) by { LockStep(s, t); }
    assert order[..|order|] == order;
    FlushesRun(s1, t, order, reach, |order|);
    var n := |Reached(order, reach)|;
    var s2 := s1.Move(t, Visiting(c, Elements(order), failed, n));
    ExecAppend(s, [ReadLock(t)], flushes);
    var s3 := s.Move(t, if failed == {} then Idle else Evicting(c, failed, n));
    assert Exec(s2, [ReadUnlock(t)]) == Some(s3) by { UnlockStep(s, s2, t, order); }
    ExecAppend(s, [ReadLock(t)] + flushes, [ReadUnlock(t)]);
    ExecAppend(s, [ReadLock(t)] + flushes + [ReadUnlock(t)], last);
    EvictStep(s, s3, t, failed, n);
  }

  lemma StepsOf(t: Thread, order: seq<int>, reach: int -> bool)
    ensures PublishSteps(t, order, reach)
         == [ReadLock(t)] + Flushes(t, order, reach) + [ReadUnlock(t)] + if Unreached(order, reach) == {} then [] else [Evict(t)]
  {
  }

  lemma LockStep(s: State, t: Thread)
    requires s.At(t).Publishing? && s.At(t).ch < |s.objects| && s.objects[s.At(t).ch].readers == {}
    ensures var c := s.At(t).ch;
      Exec(s, [ReadLock(t)]) == Some(s.Set(c, s.objects[c].(readers := {t})).Move(t, Visiting(c, {}, {}, 0)))
  {
    ExecOne(s, ReadLock(t));
    assert {} + {t} == {t};
  }

  lemma UnlockStep(s: State, s2: State, t: Thread, order: seq<int>)
    requires s.At(t).Publishing? && s.At(t).ch < |s.objects| && s.objects[s.At(t).ch].readers == {}
    requires IsOrder(order, s.objects[s.At(t).ch].subscribers.Keys)
    requires s2.At(t).Visiting? && s2.At(t).visited == Elements(order) && s2.At(t).ch == s.At(t).ch
    requires s2 == s.Set(s.At(t).ch, s.objects[s.At(t).ch].(readers := {t})).Move(t, s2.At(t))
    ensures var p := s2.At(t);
      Exec(s2, [ReadUnlock(t)]) == Some(s.Move(t, if p.failed == {} then Idle else Evicting(p.ch, p.failed, p.n)))
  {
    var p := s2.At(t);
    ExecOne(s2, ReadUnlock(t));
    var c := s2.objects[p.ch];
    assert c.(readers := c.readers - {t}) == s.objects[p.ch];
    assert s2.Set(p.ch, s.objects[p.ch]).objects == s.objects;
    MoveTwice(s, t, p, if p.failed == {} then Idle else Evicting(p.ch, p.failed, p.n));
  }

  lemma EvictStep(s: State, s3: State, t: Thread, failed: set<int>, n: nat)
    requires s.At(t).Publishing? && s.At(t).ch < |s.objects| && s.objects[s.At(t).ch].readers == {}
    requires s3 == s.Move(t, if failed == {} then Idle else Evicting(s.At(t).ch, failed, n))
    ensures var c := s.At(t).ch;
      Exec(s3, if failed == {} then [] else [Evict(t)])
        == Some(s.Set(c, s.objects[c].(subscribers := s.objects[c].subscribers - failed)).Move(t, Idle))
  {
    var c := s.At(t).ch;
    if failed == {} {
      assert s.objects[c].subscribers - failed == s.objects[c].subscribers;
      assert s.Set(c, s.objects[c]).objects == s.objects;
    } else {
      ExecOne(s3, Evict(t));
      MoveTwice(s, t, s3.At(t), Idle);
    }
  }

  lemma MoveTwice(s: State, t: Thread, a: Stage, b: Stage)
    ensures s.threads[t := a][t := b] == s.threads[t := b]
  {
  }

  /** The channel with one more subscription. */
  function Joined(c: Channel, conn: Connection): Channel {
    var sid := Wrap(c.nextID + 1);
    c.(nextID := sid, drawn := c.drawn + 1, subscribers := c.subscribers[sid := conn])
  }

  function Opened(s: State, name: bytes): State {
    if name in s.channels then s
    else s.(channels := s.channels[name := |s.objects|], objects := s.objects + [Channel(name, map[], 0, {}, 0)])
  }

  function Subscribed(s: State, t: Thread, name: bytes, conn: Connection): State
    requires name in s.channels ==> s.channels[name] < |s.objects|
  {
    var s' := Opened(s, name);
    var c := s'.channels[name];
    s'.Set(c, Joined(s'.objects[c], conn)).Move(t, Idle)
  }

  /** A whole subscribe, uninterrupted. */
  lemma SubscribeRun(s: State, t: Thread, name: bytes, conn: Connection)
    requires s.At(t).Idle?
    requires name in s.channels ==> s.channels[name] < |s.objects| && s.objects[s.channels[name]].readers == {}
    ensures Exec(s, SubscribeSteps(name in s.channels, t, name, conn)) == Some(Subscribed(s, t, name, conn))
  {
    hide Exec;
    var known, s1 := name in s.channels, Opened(s, name);
    var c := s1.channels[name];
    var open := [Lookup(t, name, conn)] + if known then [] else [Create(t)];
    var s2 := s1.Move(t, Joining(c, conn));
    ExecOne(s, Lookup(t, name, conn));
    if known {
      assert open == [Lookup(t, name, conn)];
    } else {
      MoveTwice(s, t, Missing(name, conn), Joining(c, conn));
      ExecOne(s.Move(t, Missing(name, conn)), Create(t));
      ExecAppend(s, [Lookup(t, name, conn)], [Create(t)]);
    }
    assert Exec(s, open) == Some(s2);
    JoinRun(s1, t, c, conn);
    ExecAppend(s, open, [Draw(t), Insert(t)]);
    assert SubscribeSteps(known, t, name, conn) == open + [Draw(t), Insert(t)];
  }

  /** Draw and Insert. */
  lemma JoinRun(s: State, t: Thread, c: nat, conn: Connection)
    requires c < |s.objects| && s.objects[c].readers == {}
    ensures Exec(s.Move(t, Joining(c, conn)), [Draw(t), Insert(t)])
         == Some(s.Set(c, Joined(s.objects[c], conn)).Move(t, Idle))
  {
    hide Exec;
    var s1 := s.Move(t, Joining(c, conn));
    var s2 := After(s1, Draw(t));
    ExecOne(s1, Draw(t));
    ExecOne(s2, Insert(t));
    MoveTwice(s, t, s1.At(t), s2.At(t));
    MoveTwice(s, t, s2.At(t), Idle);
    ExecAppend(s1, [Draw(t)], [Insert(t)]);
    assert [Draw(t), Insert(t)] == [Draw(t)] + [Insert(t)];
    assert s2.objects[c := Joined(s.objects[c], conn)] == s.objects[c := Joined(s.objects[c], conn)];
  }

  // ---------------------------------------------------------------- the classes

  /** pubSubChannel. */
  class PubSubChannel {
    ghost const name: bytes
    ghost var drawn: nat
    var subscribers: map<int, Connection>
    var nextID: int

    /** The channel as the protocol knows it, with nobody inside Publish. */
    ghost function Value(): Channel
      reads this
    {
      Channel(name, subscribers, nextID, {}, drawn)
    }

    constructor (ghost name: bytes)
      ensures Value() == Channel(name, map[], 0, {}, 0)
    {
      this.name := name;
      drawn, subscribers, nextID := 0, map[], 0;
    }

    method Subscribe(conn: Connection)
      modifies this
      ensures Value() == Joined(old(Value()), conn)
    {
      nextID := Wrap(nextID + 1);
      drawn := drawn + 1;
      subscribers := subscribers[nextID := conn];
    }

    /** Flushes to every subscriber, in an order of the map's own. Counts those it
        reaches and evicts the others. */
    method Publish(order: seq<int>, reach: int -> bool) returns (n: nat)
      requires IsOrder(order, subscribers.Keys)
      modifies this
      ensures n == |set sid | sid in old(subscribers) && reach(sid)|
      ensures Value() == old(Value()).(subscribers := old(subscribers) - Unreached(order, reach))
    {
      hide Reached, Unreached, Elements;
      var failed: seq<int> := [];
      n := 0;
      NobodyYet(order, reach);
      for i := 0 to |order|
        invariant Value() == old(Value())
        invariant n == |Reached(order[..i], reach)|
        invariant Elements(failed) == Unreached(order[..i], reach)
      {
        ReachedSnoc(order, reach, i);
        ElementsSnoc(order, reach, i);
        if reach(order[i]) {
          n := n + 1;
        } else {
          ElementsAppend(failed, order[i]);
          failed := failed + [order[i]];
        }
      }
      ReachedAll(order, reach, subscribers);
      if |failed| != 0 { EvictAll(failed); }
      assert old(subscribers) - {} == old(subscribers);
    }

    /** evict. */
    method EvictAll(failed: seq<int>)
      modifies this`subscribers
      ensures Value() == old(Value()).(subscribers := old(subscribers) - Elements(failed))
    {
      for i := 0 to |failed|
        invariant subscribers == old(subscribers) - Elements(failed[..i])
      {
        assert failed[..i + 1] == failed[..i] + [failed[i]];
        ElementsAppend(failed[..i], failed[i]);
        subscribers := subscribers - {failed[i]};
      }
      assert failed[..|failed|] == failed;
    }
  }

  function Reached(order: seq<int>, reach: int -> bool): set<int> {
    set i | 0 <= i < |order| && reach(order[i]) :: order[i]
  }

  lemma NobodyYet(order: seq<int>, reach: int -> bool)
    ensures Reached(order[..0], reach) == {} && Unreached(order[..0], reach) == {} && Elements([]) == {}
  {
  }

  lemma ReachedSnoc(order: seq<int>, reach: int -> bool, i: nat)
    requires i < |order| && forall j, k :: 0 <= j < k < |order| ==> order[j] != order[k]
    ensures |Reached(order[..i + 1], reach)| == |Reached(order[..i], reach)| + if reach(order[i]) then 1 else 0
  {
    assert Reached(order[..i + 1], reach) == Reached(order[..i], reach) + if reach(order[i]) then {order[i]} else {};
    assert order[i] !in Reached(order[..i], reach);
  }

  lemma ReachedAll(order: seq<int>, reach: int -> bool, subscribers: map<int, Connection>)
    requires IsOrder(order, subscribers.Keys)
    ensures order[..|order|] == order
    ensures Reached(order, reach) == set sid | sid in subscribers && reach(sid)
  {
    assert order[..|order|] == order;
    forall sid | sid in subscribers ensures sid in Elements(order) {}
    forall i | 0 <= i < |order| ensures order[i] in subscribers { IsElement(order, i); }
  }

  lemma ElementsAppend(ids: seq<int>, id: int)
    ensures Elements(ids + [id]) == Elements(ids) + {id}
  {
    var more := ids + [id];
    forall x | x in Elements(ids) ensures x in Elements(more) {
      var i :| 0 <= i < |ids| && ids[i] == x;
      assert more[i] == x;
    }
    assert more[|ids|] == id;
  }

  /** PubSubBroker. `objects`, `index` and `threads` relate it to the protocol. */
  class PubSubBroker {
    var channels: map<bytes, PubSubChannel>
    ghost var objects: seq<PubSubChannel>
    ghost var index: map<bytes, nat>
    ghost var threads: map<Thread, Stage>

    ghost predicate Valid()
      reads this
    {
      && index.Keys == channels.Keys
      && (forall n :: n in channels ==> index[n] < |objects| && channels[n] == objects[index[n]])
      && (forall i, j :: 0 <= i < j < |objects| ==> objects[i] != objects[j])
    }

    /** The state of the protocol. */
    ghost function Value(): State
      reads this, objects
    {
      State(index, seq(|objects|, i requires 0 <= i < |objects| reads this, objects => objects[i].Value()), threads)
    }

    constructor ()
      ensures Valid() && Value() == Start
    {
      channels, objects, index, threads := map[], [], map[], map[];
    }

    /** The first half of subscribe: the channel of that name, new if there is none. */
    method ChannelFor(name: bytes) returns (ch: PubSubChannel)
      requires Valid()
      modifies this
      ensures Valid() && (forall c :: c in objects ==> c in old(objects) || fresh(c))
      ensures Value() == Opened(old(Value()), name)
      ensures index[name] < |objects| && ch == objects[index[name]] && (ch in old(objects) || fresh(ch))
    {
      if name in channels {
        ch := channels[name];
      } else {
        ch := new PubSubChannel(name);
        index := index[name := |objects|];
        objects := objects + [ch];
        channels := channels[name := ch];
      }
    }

    /** Its second half. */
    method Register(ch: PubSubChannel, ghost c: nat, conn: Connection, ghost t: Thread)
      requires Valid() && c < |objects| && ch == objects[c]
      modifies this`threads, ch
      ensures Valid() && Value() == old(Value()).Set(c, Joined(old(Value()).objects[c], conn)).Move(t, Idle)
    {
      ch.Subscribe(conn);
      threads := threads[t := Idle];
    }

    /** subscribe. */
    method Subscribe(name: bytes, conn: Connection, ghost t: Thread)
      requires Valid() && Value().At(t).Idle?
      modifies this, objects
      ensures Valid() && (forall c :: c in objects ==> c in old(objects) || fresh(c))
      ensures Exec(old(Value()), SubscribeSteps(name in old(channels), t, name, conn)) == Some(Value())
    {
      hide Exec, SubscribeSteps;
      SubscribeRun(Value(), t, name, conn);
      var ch := ChannelFor(name);
      Register(ch, index[name], conn, t);
    }

    /** PublishMessage. */
    method PublishMessage(name: bytes, order: seq<int>, reach: int -> bool, ghost t: Thread) returns (n: nat)
      requires Valid() && Value().At(t).Idle?
      requires name in channels ==> IsOrder(order, channels[name].subscribers.Keys)
      modifies this, objects
      ensures Valid() && objects == old(objects)
      ensures n == if name in old(channels)
                   then |set sid | sid in old(channels[name].subscribers) && reach(sid)| else 0
      ensures Exec(old(Value()), [Find(t, name)] + if name in old(channels) then PublishSteps(t, order, reach) else [])
           == Some(Value())
    {
      hide Exec, PublishSteps, Unreached, IsOrder;
      ghost var s := Value();
      FindRun(s, t, name, order, reach);
      n := 0;
      if name in channels {
        n := channels[name].Publish(order, reach);
      }
      threads := threads[t := Idle];
      assert Value() == Published(s, t, name, Unreached(order, reach));
    }
  }

  function Published(s: State, t: Thread, name: bytes, failed: set<int>): State
    requires name in s.channels ==> s.channels[name] < |s.objects|
  {
    if name in s.channels then
      var c := s.channels[name];
      s.Set(c, s.objects[c].(subscribers := s.objects[c].subscribers - failed)).Move(t, Idle)
    else s.Move(t, Idle)
  }

  lemma FindRun(s: State, t: Thread, name: bytes, order: seq<int>, reach: int -> bool)
    requires s.At(t).Idle?
    requires name in s.channels ==>
               && s.channels[name] < |s.objects| && s.objects[s.channels[name]].readers == {}
               && IsOrder(order, s.objects[s.channels[name]].subscribers.Keys)
    ensures Exec(s, [Find(t, name)] + if name in s.channels then PublishSteps(t, order, reach) else [])
         == Some(Published(s, t, name, Unreached(order, reach)))
  {
    hide Exec, PublishSteps, Unreached, IsOrder;
    ExecOne(s, Find(t, name));
    if name in s.channels {
      var s1 := s.Move(t, Publishing(s.channels[name]));
      PublishRun(s1, t, order, reach);
      ExecAppend(s, [Find(t, name)], PublishSteps(t, order, reach));
      MoveTwice(s, t, s1.At(t), Idle);
    } else {
      assert [Find(t, name)] + [] == [Find(t, name)];
    }
  }
}
