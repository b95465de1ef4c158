// Broadcaster and Hub as objects. Each keeps, as history, the actions of LiveFeed its
// calls amount to, so what LiveFeed proves of all runs holds of all uses of the objects.
// What subscribers do in the middle of a call is in LiveFeed alone.
module Broadcast {
  import opened Wrappers
  import opened Sets
  import opened DropChan
  import LF = LiveFeed

  // ---- Whole calls as runs.

  // What a queue holds after a frame was sent to it.
  function Entered<T>(policy: LF.Policy, cap: nat, q: seq<T>, v: T): seq<T> {
    if |q| < cap then q + [v]
    else if policy.DropOldest? && q != [] then q[1..] + [v]
    else q
  }

  lemma EnteredIsNewest<T>(cap: nat, q: seq<T>, v: T)
    requires 0 < cap && |q| <= cap
    ensures Entered(LF.DropOldest, cap, q, v) == Newest(q + [v], cap)
  {
  }

  lemma RunOneMore(policy: LF.Policy, cap: nat, log: seq<LF.Action>, a: LF.Action)
    ensures LF.Run(policy, cap, log + [a]) == LF.Do(LF.Run(policy, cap, log), a)
  {
    assert (log + [a])[..|log|] == log;
  }

  function SendActions(id: nat): seq<LF.Action> {
    [LF.Pick(id), LF.Send, LF.Send, LF.Send]
  }

  function FanOutActions(order: seq<nat>): seq<LF.Action> {
    if order == [] then [] else FanOutActions(order[..|order| - 1]) + SendActions(order[|order| - 1])
  }

  // A publication, with the subscribers in the order in which they are served.
  function PublishActions(order: seq<nat>): seq<LF.Action> {
    [LF.Store, LF.Lock] + FanOutActions(order) + [LF.Unlock]
  }

  // g is f after the frame published last was sent to the given subscribers.
  ghost predicate SentTo(f: LF.Feed, g: LF.Feed, ids: set<nat>) {
    && g.policy == f.policy && g.cap == f.cap && g.published == f.published && f.published > 0
    && g.subs.Keys == f.subs.Keys
    && forall id :: id in f.subs ==>
         && g.subs[id].stage == f.subs[id].stage
         && g.subs[id].queue == if id in ids then Entered(f.policy, f.cap, f.subs[id].queue, f.published - 1)
                                else f.subs[id].queue
  }

  // What one step of a send does to the queue.
  lemma SendOnceQueue(policy: LF.Policy, cap: nat, s: LF.Sub, pc: Pc<nat>)
    requires cap > 0 && |s.queue| <= cap && pc.InCall() && (policy.DropOldest? && pc.Retry? ==> |s.queue| < cap)
    ensures var (t, next) := LF.SendOnce(policy, cap, s, pc);
            && t.stage == s.stage
            && (policy.DropNewest? ==> next.Returned? && t.queue == Entered(policy, cap, s.queue, pc.v))
            && (policy.DropOldest? && pc.Offer? && |s.queue| < cap ==> next.Returned? && t.queue == s.queue + [pc.v])
            && (policy.DropOldest? && pc.Offer? && |s.queue| >= cap ==> next == MakeRoom(pc.v) && t.queue == s.queue)
            && (policy.DropOldest? && pc.MakeRoom? && s.queue != [] ==> next == Retry(pc.v, true) && t.queue == s.queue[1..])
            && (policy.DropOldest? && pc.Retry? ==> next.Returned? && t.queue == s.queue + [pc.v])
  {
  }

  // The feed after such a step.
  function Stepped(f: LF.Feed, t: LF.Sub, next: Pc<nat>): LF.Feed
    requires f.publisher.FanOut? && f.publisher.current.Some?
  {
    var id := f.publisher.current.value.id;
    f.(subs := f.subs[id := t],
       publisher := LF.FanOut(f.publisher.todo, if next.Returned? then None else Some(LF.Sending(id, next))))
  }

  // One select statement of a send to a live subscriber.
  lemma SendStepOf(f: LF.Feed)
    requires LF.Inv(f) && f.publisher.FanOut? && f.publisher.current.Some?
    ensures var id, pc := f.publisher.current.value.id, f.publisher.current.value.pc;
            && id in f.subs && f.subs[id].stage.Live? && pc.InCall() && pc.v == f.published - 1
            && f.cap > 0 && |f.subs[id].queue| <= f.cap
            && (f.policy.DropOldest? && pc.Retry? ==> |f.subs[id].queue| < f.cap)
            && var (t, next) := LF.SendOnce(f.policy, f.cap, f.subs[id], pc);
            LF.Do(f, LF.Send) == Stepped(f, t, next)
  {
    LF.SendShape(f);
    hide LF.Do, LF.SendOnce;
    assert LF.SubInv(f, f.publisher.current.value.id);
  }

  lemma IdleSend(f: LF.Feed)
    requires f.publisher.FanOut? && f.publisher.current.None?
    ensures LF.Do(f, LF.Send) == f
  {
  }

  // The second and the third step, when the first found a full channel.
  lemma MakeRoomStep(f: LF.Feed)
    requires LF.Inv(f) && f.publisher.FanOut? && f.publisher.current.Some? && f.policy.DropOldest?
    requires f.publisher.current.value.pc.MakeRoom?
    requires var id := f.publisher.current.value.id; id in f.subs && |f.subs[id].queue| >= f.cap
    ensures var id := f.publisher.current.value.id;
            var g := LF.Do(f, LF.Send);
            && id in g.subs && g == f.(subs := g.subs, publisher := g.publisher)
            && g.publisher == LF.FanOut(f.publisher.todo, Some(LF.Sending(id, Retry(f.published - 1, true))))
            && g.subs == f.subs[id := g.subs[id]]
            && g.subs[id].stage == f.subs[id].stage && f.subs[id].queue != [] && g.subs[id].queue == f.subs[id].queue[1..]
  {
    var id, pc := f.publisher.current.value.id, f.publisher.current.value.pc;
    SendStepOf(f);
    hide LF.SendOnce, LF.Do, LF.Inv;
    SendOnceQueue(f.policy, f.cap, f.subs[id], pc);
  }

  lemma RetryStep(f: LF.Feed)
    requires LF.Inv(f) && f.publisher.FanOut? && f.publisher.current.Some? && f.policy.DropOldest?
    requires f.publisher.current.value.pc.Retry? && f.publisher.current.value.id in f.subs
    ensures var id := f.publisher.current.value.id;
            var g := LF.Do(f, LF.Send);
            && id in g.subs && g == f.(subs := g.subs, publisher := LF.FanOut(f.publisher.todo, None))
            && g.subs == f.subs[id := g.subs[id]] && f.published > 0
            && g.subs[id].stage == f.subs[id].stage && g.subs[id].queue == f.subs[id].queue + [f.published - 1]
  {
    var id, pc := f.publisher.current.value.id, f.publisher.current.value.pc;
    SendStepOf(f);
    hide LF.SendOnce, LF.Do, LF.Inv;
    SendOnceQueue(f.policy, f.cap, f.subs[id], pc);
  }

  lemma SendOn(f: LF.Feed)
    requires LF.Inv(f) && f.publisher.FanOut? && f.publisher.current.Some?
    requires f.policy.DropOldest? && f.publisher.current.value.pc.MakeRoom?
    requires var id := f.publisher.current.value.id; id in f.subs && |f.subs[id].queue| >= f.cap
    ensures var id := f.publisher.current.value.id;
            var g := LF.Do(LF.Do(f, LF.Send), LF.Send);
            g.publisher == LF.FanOut(f.publisher.todo, None) && SentTo(f, g, {id})
  {
    hide LF.SendOnce, LF.Do, LF.Inv;
    MakeRoomStep(f);
    LF.SendKeepsInv(f);
    RetryStep(LF.Do(f, LF.Send));
  }

  lemma SendWhole(f: LF.Feed)
    requires LF.Inv(f) && f.publisher.FanOut? && f.publisher.current.Some? && f.publisher.current.value.pc.Offer?
    ensures var id := f.publisher.current.value.id;
            var g := LF.Do(LF.Do(LF.Do(f, LF.Send), LF.Send), LF.Send);
            g.publisher == LF.FanOut(f.publisher.todo, None) && SentTo(f, g, {id})
  {
    var id, pc := f.publisher.current.value.id, f.publisher.current.value.pc;
    SendStepOf(f);
    LF.SendKeepsInv(f);
    var g := LF.Do(f, LF.Send);
    hide LF.SendOnce, LF.Do;
    SendOnceQueue(f.policy, f.cap, f.subs[id], pc);
    assert f.published > 0;
    var (t, next) := LF.SendOnce(f.policy, f.cap, f.subs[id], pc);
    if next.Returned? {
      hide LF.Inv;
      SteppedSentTo(f, t, next);
      IdleSend(g);
    } else {
      SendOn(g);
      hide LF.Inv, Entered;
      SameQueueSentTo(f, t, next, LF.Do(LF.Do(g, LF.Send), LF.Send));
    }
  }

  lemma SteppedSentTo(f: LF.Feed, t: LF.Sub, next: Pc<nat>)
    requires f.publisher.FanOut? && f.publisher.current.Some? && f.published > 0
    requires var id := f.publisher.current.value.id;
             && id in f.subs && t.stage == f.subs[id].stage
             && t.queue == Entered(f.policy, f.cap, f.subs[id].queue, f.published - 1)
    ensures SentTo(f, Stepped(f, t, next), {f.publisher.current.value.id})
  {
    hide Entered;
  }

  lemma SameQueueSentTo(f: LF.Feed, t: LF.Sub, next: Pc<nat>, h: LF.Feed)
    requires f.publisher.FanOut? && f.publisher.current.Some? && f.published > 0
    requires var id := f.publisher.current.value.id;
             && id in f.subs && t.stage == f.subs[id].stage && t.queue == f.subs[id].queue
             && SentTo(Stepped(f, t, next), h, {id})
    ensures SentTo(f, h, {f.publisher.current.value.id})
  {
    hide Entered;
  }

  lemma OneSubscriber(f: LF.Feed, id: nat)
    requires LF.Inv(f) && f.publisher.FanOut? && f.publisher.current.None? && id in f.publisher.todo
    ensures var g := LF.Do(LF.Do(LF.Do(LF.Do(f, LF.Pick(id)), LF.Send), LF.Send), LF.Send);
            g.publisher == LF.FanOut(f.publisher.todo - {id}, None) && SentTo(f, g, {id})
  {
    hide LF.SubInv, LF.SendOnce;
    LF.PickKeepsInv(f, id);
    var p := LF.Do(f, LF.Pick(id));
    assert p == f.(publisher := LF.FanOut(f.publisher.todo - {id}, Some(LF.Sending(id, Offer(f.published - 1)))));
    hide LF.Inv, LF.Do;
    SendWhole(p);
  }

  lemma RunSendActions(policy: LF.Policy, cap: nat, log: seq<LF.Action>, id: nat)
    ensures LF.Run(policy, cap, log + SendActions(id)) ==
            LF.Do(LF.Do(LF.Do(LF.Do(LF.Run(policy, cap, log), LF.Pick(id)), LF.Send), LF.Send), LF.Send)
  {
    hide LF.Do, LF.Run;
    var l1 := log + [LF.Pick(id)];
    RunOneMore(policy, cap, log, LF.Pick(id));
    RunOneMore(policy, cap, l1, LF.Send);
    RunOneMore(policy, cap, l1 + [LF.Send], LF.Send);
    RunOneMore(policy, cap, l1 + [LF.Send] + [LF.Send], LF.Send);
    assert log + SendActions(id) == l1 + [LF.Send] + [LF.Send] + [LF.Send];
  }

  predicate Distinct(order: seq<nat>) {
    forall i, j :: 0 <= i < j < |order| ==> order[i] != order[j]
  }

  function Ids(order: seq<nat>): set<nat> {
    set id | id in order
  }

  lemma SomeOrder(ids: set<nat>) returns (order: seq<nat>)
    ensures Distinct(order) && Ids(order) == ids
  {
    if ids == {} {
      order := [];
    } else {
      var id := SomeElement(ids);
      var others := SomeOrder(ids - {id});
      IdsOneMore(others, id);
      order := others + [id];
    }
  }

  lemma IdsOneMore(order: seq<nat>, id: nat)
    ensures Ids(order + [id]) == Ids(order) + {id}
    ensures Distinct(order) && id !in Ids(order) ==> Distinct(order + [id])
  {
  }

  lemma SentToMore(f: LF.Feed, g: LF.Feed, h: LF.Feed, ids: set<nat>, id: nat)
    requires SentTo(f, g, ids) && SentTo(g, h, {id}) && id !in ids
    ensures SentTo(f, h, ids + {id})
  {
    hide Entered;
  }

  lemma LastOfOrder(order: seq<nat>)
    requires order != [] && Distinct(order)
    ensures var n := |order| - 1;
            Distinct(order[..n]) && order[n] !in Ids(order[..n]) && Ids(order) == Ids(order[..n]) + {order[n]}
  {
    var n := |order| - 1;
    assert order == order[..n] + [order[n]];
  }

  lemma {:induction false} FanOutRun(policy: LF.Policy, cap: nat, log: seq<LF.Action>, order: seq<nat>)
    requires cap > 0 && Distinct(order)
    requires var f := LF.Run(policy, cap, log);
             f.publisher.FanOut? && f.publisher.current.None? && Ids(order) <= f.publisher.todo && f.published > 0
    ensures var f, g := LF.Run(policy, cap, log), LF.Run(policy, cap, log + FanOutActions(order));
            g.publisher == LF.FanOut(f.publisher.todo - Ids(order), None) && SentTo(f, g, Ids(order))
  {
    hide LF.Do, LF.Run, LF.Inv, SentTo;
    var f := LF.Run(policy, cap, log);
    if order == [] {
      assert log + FanOutActions(order) == log && Ids(order) == {};
      assert f.publisher.todo - {} == f.publisher.todo;
      NobodySentTo(f);
    } else {
      var n := |order| - 1;
      LastOfOrder(order);
      FanOutRun(policy, cap, log, order[..n]);
      var before := log + FanOutActions(order[..n]);
      LF.RunKeepsInv(policy, cap, before);
      OneSubscriber(LF.Run(policy, cap, before), order[n]);
      RunSendActions(policy, cap, before, order[n]);
      assert log + FanOutActions(order) == before + SendActions(order[n]);
      SentToMore(f, LF.Run(policy, cap, before), LF.Run(policy, cap, log + FanOutActions(order)), Ids(order[..n]), order[n]);
    }
  }

  lemma NobodySentTo(f: LF.Feed)
    requires f.published > 0
    ensures SentTo(f, f, {})
  {
  }

  // A publication nobody interferes with, as a run: each live subscriber's queue is as if
  // the frame had been sent to it once.
  lemma PublishRun(policy: LF.Policy, cap: nat, log: seq<LF.Action>, order: seq<nat>)
    requires cap > 0 && LF.Run(policy, cap, log).publisher.Resting?
    requires Distinct(order) && Ids(order) == LF.LiveIds(LF.Run(policy, cap, log))
    ensures var f, g := LF.Run(policy, cap, log), LF.Run(policy, cap, log + PublishActions(order));
            && g.publisher.Resting? && SentTo(f.(published := f.published + 1), g, Ids(order))
  {
    hide LF.Run, LF.Do, SentTo, FanOutActions;
    var f := LF.Run(policy, cap, log);
    var begun := log + [LF.Store] + [LF.Lock];
    RunOneMore(policy, cap, log, LF.Store);
    RunOneMore(policy, cap, log + [LF.Store], LF.Lock);
    Beginning(f);
    var h := LF.Run(policy, cap, begun);
    FanOutRun(policy, cap, begun, order);
    var sent := begun + FanOutActions(order);
    RunOneMore(policy, cap, sent, LF.Unlock);
    assert log + PublishActions(order) == sent + [LF.Unlock];
    assert LF.LiveIds(f) - Ids(order) == {};
    Ending(h, LF.Run(policy, cap, sent), Ids(order));
    SentToIgnoresPublisher(h, f.(published := f.published + 1), LF.Run(policy, cap, sent + [LF.Unlock]), Ids(order));
  }

  lemma Beginning(f: LF.Feed)
    requires f.publisher.Resting?
    ensures LF.Do(LF.Do(f, LF.Store), LF.Lock)
            == f.(published := f.published + 1, publisher := LF.FanOut(LF.LiveIds(f), None))
  {
    assert LF.LiveIds(f.(published := f.published + 1, publisher := LF.Stored)) == LF.LiveIds(f);
  }

  lemma Ending(h: LF.Feed, g: LF.Feed, ids: set<nat>)
    requires SentTo(h, g, ids) && g.publisher == LF.FanOut({}, None)
    ensures LF.Do(g, LF.Unlock).publisher.Resting? && SentTo(h, LF.Do(g, LF.Unlock), ids)
  {
    hide Entered;
  }

  lemma SentToIgnoresPublisher(h: LF.Feed, f: LF.Feed, g: LF.Feed, ids: set<nat>)
    requires SentTo(h, g, ids) && f == h.(publisher := f.publisher)
    ensures SentTo(f, g, ids)
  {
    hide Entered;
  }

  // ---- The objects and their runs.

  // The channels of different subscribers are different, open, and of the same capacity.
  ghost predicate Channels<T>(subs: map<nat, Chan<T>>, cap: nat)
    reads subs.Values
  {
    && (forall id :: id in subs ==> subs[id].cap == cap && !subs[id].closed && |subs[id].buf| <= cap)
    && (forall a, b :: a in subs && b in subs && a != b ==> subs[a] != subs[b])
  }

  lemma OneMoreChannel<T>(subs: map<nat, Chan<T>>, id: nat, ch: Chan<T>, cap: nat)
    requires Channels(subs, cap) && id !in subs && ch !in subs.Values
    requires ch.cap == cap && !ch.closed && |ch.buf| <= cap
    ensures Channels(subs[id := ch], cap)
  {
    forall a | a in subs ensures subs[a] != ch {
      assert subs[a] in subs.Values;
    }
  }

  // buf holds the frames whose publication indices q holds.
  ghost predicate NamedBy<T>(frames: seq<T>, q: seq<nat>, buf: seq<T>) {
    |q| == |buf| && forall i :: 0 <= i < |q| ==> q[i] < |frames| && buf[i] == frames[q[i]]
  }

  lemma NamedEntered<T>(policy: LF.Policy, cap: nat, frames: seq<T>, q: seq<nat>, buf: seq<T>, v: T)
    requires NamedBy(frames, q, buf)
    ensures NamedBy(frames + [v], Entered(policy, cap, q, |frames|), Entered(policy, cap, buf, v))
  {
  }

  // The object between two calls is this state of the transition system. frames are all
  // frames published so far.
  ghost predicate Mirrors<T>(f: LF.Feed, frames: seq<T>, latest: Option<T>, subs: map<nat, Chan<T>>)
    reads subs.Values
  {
    && f.publisher.Resting? && f.published == |frames|
    && latest == (if frames == [] then None else Some(frames[|frames| - 1]))
    && subs.Keys == LF.LiveIds(f)
    && forall id :: id in subs ==> NamedBy(frames, f.subs[id].queue, subs[id].buf)
  }

  lemma PolicyOfRun(policy: LF.Policy, cap: nat, log: seq<LF.Action>)
    requires cap > 0
    ensures LF.Run(policy, cap, log).policy == policy && LF.Run(policy, cap, log).cap == cap
  {
    LF.RunKeepsInv(policy, cap, log);
  }

  // On values: with the buffers given by bufs, sending v to each makes them name the
  // queues after the publication.
  lemma PublishMirrors<T>(policy: LF.Policy, cap: nat, log: seq<LF.Action>, order: seq<nat>, frames: seq<T>, v: T, bufs: map<nat, seq<T>>)
    requires cap > 0 && Distinct(order) && Ids(order) == bufs.Keys
    requires var f := LF.Run(policy, cap, log);
             && f.publisher.Resting? && f.published == |frames| && bufs.Keys == LF.LiveIds(f)
             && forall id :: id in bufs ==> NamedBy(frames, f.subs[id].queue, bufs[id])
    ensures var g := LF.Run(policy, cap, log + PublishActions(order));
            && g.publisher.Resting? && g.published == |frames + [v]| && bufs.Keys == LF.LiveIds(g)
            && forall id :: id in bufs ==> NamedBy(frames + [v], g.subs[id].queue, Entered(policy, cap, bufs[id], v))
  {
    hide LF.Run, PublishActions, Entered, NamedBy;
    var f, g := LF.Run(policy, cap, log), LF.Run(policy, cap, log + PublishActions(order));
    PublishRun(policy, cap, log, order);
    PolicyOfRun(policy, cap, log);
    assert LF.LiveIds(g) == LF.LiveIds(f);
    forall id | id in bufs
      ensures NamedBy(frames + [v], g.subs[id].queue, Entered(policy, cap, bufs[id], v))
    {
      NamedEntered(policy, cap, frames, f.subs[id].queue, bufs[id], v);
    }
  }

  lemma MirrorsAfterSubscribe<T>(f: LF.Feed, frames: seq<T>, latest: Option<T>, subs: map<nat, Chan<T>>, id: nat, ch: Chan<T>)
    requires Mirrors(f, frames, latest, subs) && id !in f.subs
    requires ch.buf == if latest.Some? then [latest.value] else []
    ensures Mirrors(LF.Do(f, LF.Subscribe(id)), frames, latest, subs[id := ch])
  {
    hide LF.SendOnce;
    var g := LF.Do(f, LF.Subscribe(id));
    assert LF.LiveIds(g) == LF.LiveIds(f) + {id};
    assert NamedBy(frames, g.subs[id].queue, ch.buf);
    hide NamedBy;
  }

  // A new channel with the latest frame in it, if there is one.
  method Preloaded<T>(cap: nat, latest: Option<T>) returns (ch: Chan<T>)
    requires cap > 0
    ensures fresh(ch) && ch.cap == cap && !ch.closed
    ensures ch.buf == if latest.Some? then [latest.value] else []
  {
    ch := new Chan<T>(cap);
    if latest.Some? {
      var _ := ch.TrySend(latest.value);
    }
  }

  class Broadcaster<T> {
    var subs: map<nat, Chan<T>>
    var latest: Option<T>
    ghost var frames: seq<T>
    ghost var log: seq<LF.Action>

    ghost function Feed(): LF.Feed
      reads this
    {
      LF.Run(LF.DropOldest, 2, log)
    }

    ghost predicate Valid()
      reads this, subs.Values
    {
      Channels(subs, 2) && Mirrors(Feed(), frames, latest, subs)
    }

    constructor ()
      ensures Valid() && subs == map[] && latest == None && frames == [] && log == []
    {
      subs, latest := map[], None;
      frames, log := [], [];
    }

    static method SendTo(chans: map<nat, Chan<T>>, id: nat, f: T)
      requires Channels(chans, 2) && id in chans
      modifies chans[id]
      ensures Channels(chans, 2) && chans[id].buf == Newest(old(chans[id].buf) + [f], 2)
      ensures forall other :: other in chans && other != id ==> chans[other].buf == old(chans[other].buf)
    {
      var ch := chans[id];
      SendAloneIsFifo(ch.buf, 2, f, 0, 0);
      assert Newest(ch.buf + [f], 2) == SendAlone(ch.buf, 2, f, 0, 0).buf;
      var _ := ch.Send(f, b => Drain(b, 0), b => Drain(b, 0));
    }

    // The locked loop of Publish. A full channel loses its oldest frame, so each one ends
    // with the newest two.
    static method FanOut(chans: map<nat, Chan<T>>, f: T)
      requires Channels(chans, 2)
      modifies chans.Values
      ensures Channels(chans, 2)
      ensures forall id :: id in chans ==> chans[id].buf == Newest(old(chans[id].buf) + [f], 2)
    {
      hide Newest, Channels;
      var todo := chans.Keys;
      while todo != {}
        invariant todo <= chans.Keys && Channels(chans, 2)
        invariant forall id :: id in todo ==> chans[id].buf == old(chans[id].buf)
        invariant forall id :: id in chans && id !in todo ==> chans[id].buf == Newest(old(chans[id].buf) + [f], 2)
        decreases |todo|
      {
        ghost var _ := SomeElement(todo);
        var id :| id in todo;
        SendTo(chans, id, f);
        todo := todo - {id};
      }
    }

    // The call is the run of a publication. The order in which it serves the subscribers
    // makes no difference to it (PublishRun).
    method Publish(f: T) returns (ghost order: seq<nat>)
      requires Valid()
      modifies this`latest, this`frames, this`log, subs.Values
      ensures Valid() && latest == Some(f)
      ensures forall id :: id in subs ==> subs[id].buf == Newest(old(subs[id].buf) + [f], 2)
      ensures frames == old(frames) + [f] && log == old(log) + PublishActions(order)
    {
      hide LF.Run, PublishActions, Newest, NamedBy, Distinct, Ids, Entered;
      ghost var bufs := map id | id in subs :: subs[id].buf;
      latest := Some(f);
      FanOut(subs, f);
      order := SomeOrder(subs.Keys);
      PublishMirrors(LF.DropOldest, 2, log, order, frames, f, bufs);
      forall id | id in bufs ensures Newest(bufs[id] + [f], 2) == Entered(LF.DropOldest, 2, bufs[id], f) {
        EnteredIsNewest(2, bufs[id], f);
      }
      log, frames := log + PublishActions(order), frames + [f];
    }

    // The key stands for the channel's identity, which is not used again.
    method Subscribe(id: nat) returns (ch: Chan<T>)
      requires Valid() && id !in Feed().subs
      modifies this`subs, this`log
      ensures Valid() && fresh(ch) && subs == old(subs)[id := ch]
      ensures ch.buf == if latest.Some? then [latest.value] else []
      ensures forall i :: i in old(subs) ==> subs[i].buf == old(subs[i].buf)
      ensures log == old(log) + [LF.Subscribe(id)]
    {
      hide LF.Run, NamedBy;
      ghost var others := subs;
      ch := Preloaded(2, latest);
      assert forall i :: i in others ==> others[i] in others.Values && others[i] != ch;
      assert Channels(others, 2) && Mirrors(Feed(), frames, latest, others);
      hide Channels, Mirrors;
      OneMoreChannel(others, id, ch, 2);
      RunOneMore(LF.DropOldest, 2, log, LF.Subscribe(id));
      MirrorsAfterSubscribe(Feed(), frames, latest, others, id, ch);
      subs, log := subs[id := ch], log + [LF.Subscribe(id)];
    }

    // The returned unsubscribe function; it must be called once.
    method Unsubscribe(id: nat)
      requires Valid() && id in subs
      modifies this`subs, this`log, subs[id]
      ensures Valid() && subs == old(subs) - {id}
      ensures old(subs[id]).closed && old(subs[id]).buf == old(subs[id].buf)
      ensures log == old(log) + [LF.Remove(id)] + [LF.Close(id)]
    {
      hide LF.Run, LF.SendOnce;
      var ch := subs[id];
      subs := subs - {id};
      ch.Close();
      RunOneMore(LF.DropOldest, 2, log, LF.Remove(id));
      RunOneMore(LF.DropOldest, 2, log + [LF.Remove(id)], LF.Close(id));
      log := log + [LF.Remove(id)] + [LF.Close(id)];
    }

    // What a subscriber does with its channel.
    method Receive(id: nat) returns (r: Option<T>)
      requires Valid() && id in subs
      modifies this`log, subs[id]
      ensures Valid()
      ensures if old(subs[id].buf) == [] then r == None else r == Some(old(subs[id].buf[0]))
      ensures log == old(log) + [LF.Receive(id)]
    {
      hide LF.Run, LF.SendOnce;
      r := subs[id].TryReceive();
      RunOneMore(LF.DropOldest, 2, log, LF.Receive(id));
      log := log + [LF.Receive(id)];
    }
  }

  class Hub<T> {
    var subs: map<nat, Chan<T>>
    var latest: Option<T>
    var lastSeen: int
    var online: bool
    ghost var frames: seq<T>
    ghost var log: seq<LF.Action>

    ghost function Feed(): LF.Feed
      reads this
    {
      LF.Run(LF.DropNewest, 8, log)
    }

    ghost predicate Valid()
      reads this, subs.Values
    {
      Channels(subs, 8) && Mirrors(Feed(), frames, latest, subs)
    }

    constructor ()
      ensures Valid() && subs == map[] && latest == None && !online && lastSeen == 0
      ensures frames == [] && log == []
    {
      subs, latest, lastSeen, online := map[], None, 0, false;
      frames, log := [], [];
    }

    static method SendTo(chans: map<nat, Chan<T>>, id: nat, jpeg: T)
      requires Channels(chans, 8) && id in chans
      modifies chans[id]
      ensures Channels(chans, 8) && chans[id].buf == Entered(LF.DropNewest, 8, old(chans[id].buf), jpeg)
      ensures forall other :: other in chans && other != id ==> chans[other].buf == old(chans[other].buf)
    {
      var _ := chans[id].TrySend(jpeg);
    }

    // The locked loop of Push. A full channel keeps what it has and does not get the frame.
    static method FanOut(chans: map<nat, Chan<T>>, jpeg: T)
      requires Channels(chans, 8)
      modifies chans.Values
      ensures Channels(chans, 8)
      ensures forall id :: id in chans ==> chans[id].buf == Entered(LF.DropNewest, 8, old(chans[id].buf), jpeg)
    {
      hide Entered, Channels;
      var todo := chans.Keys;
      while todo != {}
        invariant todo <= chans.Keys && Channels(chans, 8)
        invariant forall id :: id in todo ==> chans[id].buf == old(chans[id].buf)
        invariant forall id :: id in chans && id !in todo ==> chans[id].buf == Entered(LF.DropNewest, 8, old(chans[id].buf), jpeg)
        decreases |todo|
      {
        ghost var _ := SomeElement(todo);
        var id :| id in todo;
        SendTo(chans, id, jpeg);
        todo := todo - {id};
      }
    }

    method Push(jpeg: T, now: int) returns (ghost order: seq<nat>)
      requires Valid()
      modifies this`latest, this`lastSeen, this`online, this`frames, this`log, subs.Values
      ensures Valid() && latest == Some(jpeg) && lastSeen == now && online
      ensures forall id :: id in subs ==> subs[id].buf == Entered(LF.DropNewest, 8, old(subs[id].buf), jpeg)
      ensures frames == old(frames) + [jpeg] && log == old(log) + PublishActions(order)
    {
      hide LF.Run, PublishActions, NamedBy, Distinct, Ids, Entered;
      ghost var bufs := map id | id in subs :: subs[id].buf;
      latest, lastSeen, online := Some(jpeg), now, true;
      FanOut(subs, jpeg);
      order := SomeOrder(subs.Keys);
      PublishMirrors(LF.DropNewest, 8, log, order, frames, jpeg, bufs);
      log, frames := log + PublishActions(order), frames + [jpeg];
    }

    method Subscribe(id: nat) returns (ch: Chan<T>)
      requires Valid() && id !in Feed().subs
      modifies this`subs, this`log
      ensures Valid() && fresh(ch) && subs == old(subs)[id := ch]
      ensures ch.buf == if latest.Some? then [latest.value] else []
      ensures forall i :: i in old(subs) ==> subs[i].buf == old(subs[i].buf)
      ensures log == old(log) + [LF.Subscribe(id)]
    {
      hide LF.Run, NamedBy;
      ghost var others := subs;
      ch := Preloaded(8, latest);
      assert forall i :: i in others ==> others[i] in others.Values && others[i] != ch;
      assert Channels(others, 8) && Mirrors(Feed(), frames, latest, others);
      hide Channels, Mirrors;
      OneMoreChannel(others, id, ch, 8);
      RunOneMore(LF.DropNewest, 8, log, LF.Subscribe(id));
      MirrorsAfterSubscribe(Feed(), frames, latest, others, id, ch);
      subs, log := subs[id := ch], log + [LF.Subscribe(id)];
    }

    method Unsubscribe(id: nat)
      requires Valid() && id in subs
      modifies this`subs, this`log, subs[id]
      ensures Valid() && subs == old(subs) - {id}
      ensures old(subs[id]).closed && old(subs[id]).buf == old(subs[id].buf)
      ensures log == old(log) + [LF.Remove(id)] + [LF.Close(id)]
    {
      hide LF.Run, LF.SendOnce;
      var ch := subs[id];
      subs := subs - {id};
      ch.Close();
      RunOneMore(LF.DropNewest, 8, log, LF.Remove(id));
      RunOneMore(LF.DropNewest, 8, log + [LF.Remove(id)], LF.Close(id));
      log := log + [LF.Remove(id)] + [LF.Close(id)];
    }

    // What a subscriber does with its channel.
    method Receive(id: nat) returns (r: Option<T>)
      requires Valid() && id in subs
      modifies this`log, subs[id]
      ensures Valid()
      ensures if old(subs[id].buf) == [] then r == None else r == Some(old(subs[id].buf[0]))
      ensures log == old(log) + [LF.Receive(id)]
    {
      hide LF.Run, LF.SendOnce;
      r := subs[id].TryReceive();
      RunOneMore(LF.DropNewest, 8, log, LF.Receive(id));
      log := log + [LF.Receive(id)];
    }
  }
}
