// The live fan-out: one publisher, any number of subscribers that come, go and receive
// at any point between its steps. Broadcaster and Hub differ in the queue capacity and
// in what a full queue loses, so they share this transition system.
//
// A frame is named by its publication index.
module LiveFeed {
  import opened Wrappers
  import opened Sets
  import opened DropChan

  datatype Policy = DropOldest | DropNewest

  // A subscription is ended in two steps: taken out of the set under the lock, then its
  // channel is closed.
  datatype Stage = Live | Removed | Closed

  datatype Gone = Gone(v: nat, received: bool)

  // queue is the channel. History: everything that entered it, everything that left it,
  // whether the subscription fell between a publisher's store and its fan-out, and how
  // many frames had been published then.
  datatype Sub = Sub(stage: Stage, queue: seq<nat>, entered: seq<nat>, left: seq<Gone>, early: bool, since: nat)

  // Where the publisher is. FanOut holds the lock; todo are the channels still to come.
  datatype Publisher =
    | Resting
    | Stored
    | FanOut(todo: set<nat>, current: Option<Sending>)

  datatype Sending = Sending(id: nat, pc: Pc<nat>)

  // published counts the stores, so the latest frame is published - 1.
  datatype Feed = Feed(policy: Policy, cap: nat, published: nat, publisher: Publisher, subs: map<nat, Sub>, panicked: bool)

  datatype Action =
    | Store
    | Lock
    | Pick(id: nat)
    | Send
    | Unlock
    | Subscribe(id: nat)
    | Remove(id: nat)
    | Close(id: nat)
    | Receive(id: nat)

  function Start(policy: Policy, cap: nat): Feed {
    Feed(policy, cap, 0, Resting, map[], false)
  }

  function LiveIds(f: Feed): set<nat> {
    set id | id in f.subs && f.subs[id].stage.Live?
  }

  // One step of sending frame v: a select statement of dropchan.Send, or the only one of
  // Hub.Push, which skips a full channel.
  function SendOnce(policy: Policy, cap: nat, s: Sub, pc: Pc<nat>): (Sub, Pc<nat>)
    requires pc.InCall()
  {
    if policy.DropNewest? then
      if |s.queue| < cap then (s.(queue := s.queue + [pc.v], entered := s.entered + [pc.v]), Returned(Delivered))
      else (s, Returned(Dropped))
    else
      var r := SendStep(s.queue, cap, pc);
      var isIn := r.pc.Returned? && r.pc.outcome != Dropped;
      (s.(queue := r.buf,
          entered := if isIn then s.entered + [pc.v] else s.entered,
          left := if pc.MakeRoom? && s.queue != [] then s.left + [Gone(s.queue[0], false)] else s.left),
       r.pc)
  }

  // One action; one that is not possible leaves everything as it is. Sending on a closed
  // channel panics.
  function Do(f: Feed, a: Action): Feed {
    match a
    case Store =>
      if f.publisher.Resting? then f.(published := f.published + 1, publisher := Stored) else f
    case Lock =>
      if f.publisher.Stored? then f.(publisher := FanOut(LiveIds(f), None)) else f
    case Pick(id) =>
      if f.publisher.FanOut? && f.publisher.current.None? && id in f.publisher.todo && f.published > 0
      then f.(publisher := FanOut(f.publisher.todo - {id}, Some(Sending(id, Offer(f.published - 1)))))
      else f
    case Send =>
      if f.publisher.FanOut? && f.publisher.current.Some? && f.publisher.current.value.id in f.subs
         && f.publisher.current.value.pc.InCall() then
        var Sending(id, pc) := f.publisher.current.value;
        if f.subs[id].stage.Closed? then f.(panicked := true)
        else
          var (s, next) := SendOnce(f.policy, f.cap, f.subs[id], pc);
          f.(subs := f.subs[id := s],
             publisher := FanOut(f.publisher.todo, if next.Returned? then None else Some(Sending(id, next))))
      else f
    case Unlock =>
      if f.publisher == FanOut({}, None) then f.(publisher := Resting) else f
    case Subscribe(id) =>
      if id in f.subs || f.publisher.FanOut? then f
      else
        var preload := if f.published > 0 then [f.published - 1] else [];
        f.(subs := f.subs[id := Sub(Live, preload, preload, [], f.publisher.Stored?, f.published)])
    case Remove(id) =>
      if id in f.subs && f.subs[id].stage.Live? && !f.publisher.FanOut?
      then f.(subs := f.subs[id := f.subs[id].(stage := Removed)]) else f
    case Close(id) =>
      if id in f.subs && f.subs[id].stage.Removed?
      then f.(subs := f.subs[id := f.subs[id].(stage := Closed)]) else f
    case Receive(id) =>
      if id in f.subs && f.subs[id].queue != [] then
        var s := f.subs[id];
        f.(subs := f.subs[id := s.(queue := s.queue[1..], left := s.left + [Gone(s.queue[0], true)])])
      else f
  }

  function Run(policy: Policy, cap: nat, actions: seq<Action>): Feed {
    if actions == [] then Start(policy, cap)
    else Do(Run(policy, cap, actions[..|actions| - 1]), actions[|actions| - 1])
  }

  // ---- The invariant, subscriber by subscriber.

  function Values(left: seq<Gone>): seq<nat> {
    seq(|left|, i requires 0 <= i < |left| => left[i].v)
  }

  // Strictly increasing, except that the first element may occur twice.
  ghost predicate NearlyIncreasing(s: seq<nat>) {
    forall i, j :: 0 <= i < j < |s| ==> s[i] < s[j] || (i == 0 && j == 1 && s[0] == s[1])
  }

  // The subscriber still gets the latest frame in this publication.
  predicate Awaits(f: Feed, id: nat) {
    match f.publisher
    case Resting => false
    case Stored => true
    case FanOut(todo, current) => id in todo || (current.Some? && current.value.id == id)
  }

  function PcFor(f: Feed, id: nat): Pc<nat> {
    if f.publisher.FanOut? && f.publisher.current.Some? && f.publisher.current.value.id == id
    then f.publisher.current.value.pc else Idle
  }

  // What holds of a subscriber that still awaits the latest frame or does not, with the
  // publisher at pc in sending to it.
  ghost predicate SubOk(policy: Policy, cap: nat, published: nat, awaits: bool, pc: Pc<nat>, s: Sub) {
    EntriesOk(published, awaits, s) && QueueOk(policy, cap, published, awaits, pc, s)
  }

  ghost predicate EntriesOk(published: nat, awaits: bool, s: Sub) {
    && NearlyIncreasing(s.entered)
    && (|s.entered| >= 2 && s.entered[0] == s.entered[1] ==> s.early)
    && (forall i :: 0 <= i < |s.entered| ==> s.entered[i] < published)
    && (s.stage.Live? && awaits ==>
          forall i :: 0 <= i < |s.entered| ==> s.entered[i] < published - 1 || (|s.entered| == 1 && s.early))
  }

  ghost predicate QueueOk(policy: Policy, cap: nat, published: nat, awaits: bool, pc: Pc<nat>, s: Sub) {
    && |s.queue| <= cap
    && s.entered == Values(s.left) + s.queue
    && (policy.DropOldest? ==>
          && (s.stage.Live? && !awaits && published > 0 ==>
                s.entered != [] && s.entered[|s.entered| - 1] == published - 1)
          && (pc.Retry? ==> |s.queue| < cap)
          && (s.queue == [] && s.left != [] && !pc.Retry? ==> s.left[|s.left| - 1].received))
  }

  ghost predicate SubInv(f: Feed, id: nat)
    requires id in f.subs
  {
    SubOk(f.policy, f.cap, f.published, Awaits(f, id), PcFor(f, id), f.subs[id])
  }

  ghost predicate PublisherInv(f: Feed) {
    match f.publisher
    case FanOut(todo, current) =>
      && f.published > 0
      && todo <= LiveIds(f)
      && (current.Some? ==>
            && current.value.id in LiveIds(f) && current.value.id !in todo
            && current.value.pc.InCall() && current.value.pc.v == f.published - 1)
    case _ => f.publisher.Stored? ==> f.published > 0
  }

  ghost predicate Inv(f: Feed) {
    && f.cap > 0
    && !f.panicked
    && PublisherInv(f)
    && forall id :: id in f.subs ==> SubInv(f, id)
  }

  lemma AppendNearlyIncreasing(s: seq<nat>, v: nat)
    requires NearlyIncreasing(s)
    requires forall i :: 0 <= i < |s| ==> s[i] < v || (|s| == 1 && s[0] == v)
    ensures NearlyIncreasing(s + [v])
  {
  }

  lemma EntryStaysBelow(s: seq<nat>, v: nat, early: bool)
    requires forall i :: 0 <= i < |s| ==> s[i] < v || (|s| == 1 && s[0] == v && early)
    requires |s| >= 2 && s[0] == s[1] ==> early
    ensures forall i :: 0 <= i < |s + [v]| ==> (s + [v])[i] < v + 1
    ensures |s + [v]| >= 2 && (s + [v])[0] == (s + [v])[1] ==> early
  {
  }

  lemma EntriesBefore(s: Sub, published: nat)
    requires published > 0
    requires forall i :: 0 <= i < |s.entered| ==> s.entered[i] < published - 1 || (|s.entered| == 1 && s.early)
    requires forall i :: 0 <= i < |s.entered| ==> s.entered[i] < published
    ensures var v := published - 1;
            forall i :: 0 <= i < |s.entered| ==> s.entered[i] < v || (|s.entered| == 1 && s.entered[0] == v && s.early)
  {
  }

  // ---- One subscriber, one step.

  lemma AppendKeepsSub(policy: Policy, cap: nat, published: nat, pc: Pc<nat>, s: Sub)
    requires SubOk(policy, cap, published, true, pc, s) && s.stage.Live?
    requires published > 0 && |s.queue| < cap
    ensures var v := published - 1;
            SubOk(policy, cap, published, false, Idle, s.(queue := s.queue + [v], entered := s.entered + [v]))
  {
    hide Values, NearlyIncreasing;
    var v := published - 1;
    EntryKeepsEntries(published, s);
    assert s.entered + [v] == Values(s.left) + (s.queue + [v]);
    hide EntriesOk;
  }

  lemma EntryKeepsEntries(published: nat, s: Sub)
    requires EntriesOk(published, true, s) && s.stage.Live? && published > 0
    ensures forall t: Sub :: t.entered == s.entered + [published - 1] && t.early == s.early ==>
              EntriesOk(published, false, t)
  {
    hide NearlyIncreasing;
    EntriesBefore(s, published);
    AppendNearlyIncreasing(s.entered, published - 1);
    EntryStaysBelow(s.entered, published - 1, s.early);
  }

  lemma DepartureKeepsSub(policy: Policy, cap: nat, published: nat, awaits: bool, pc: Pc<nat>, s: Sub, received: bool)
    requires SubOk(policy, cap, published, awaits, pc, s) && s.queue != []
    ensures var t := s.(queue := s.queue[1..], left := s.left + [Gone(s.queue[0], received)]);
            && t.entered == Values(t.left) + t.queue
            && (received ==> SubOk(policy, cap, published, awaits, pc, t))
  {
    assert Values(s.left + [Gone(s.queue[0], received)]) == Values(s.left) + [s.queue[0]];
  }

  // One step of a Send that has not returned yet.
  lemma SendGoesOn(cap: nat, published: nat, pc: Pc<nat>, s: Sub)
    requires cap > 0 && SubOk(DropOldest, cap, published, true, pc, s)
    requires (pc.Offer? && |s.queue| >= cap) || pc.MakeRoom?
    ensures var (t, next) := SendOnce(DropOldest, cap, s, pc);
            && t.stage == s.stage && next.InCall() && next.v == pc.v
            && SubOk(DropOldest, cap, published, true, next, t)
  {
    if pc.MakeRoom? && s.queue != [] {
      DepartureKeepsSub(DropOldest, cap, published, true, pc, s, false);
    }
  }

  lemma SendAppends(policy: Policy, cap: nat, s: Sub, pc: Pc<nat>)
    requires pc.InCall() && |s.queue| < cap && (policy.DropOldest? ==> !pc.MakeRoom?)
    ensures var (t, next) := SendOnce(policy, cap, s, pc);
            && t == s.(queue := s.queue + [pc.v], entered := s.entered + [pc.v])
            && next.Returned?
  {
  }

  lemma SkippingKeepsSub(cap: nat, published: nat, pc: Pc<nat>, s: Sub)
    requires SubOk(DropNewest, cap, published, true, pc, s)
    ensures SubOk(DropNewest, cap, published, false, Idle, s)
  {
  }

  // The step that decides about the frame.
  lemma SendReturns(policy: Policy, cap: nat, published: nat, pc: Pc<nat>, s: Sub)
    requires cap > 0 && published > 0 && s.stage.Live? && pc.InCall() && pc.v == published - 1
    requires SubOk(policy, cap, published, true, pc, s)
    requires policy.DropNewest? || |s.queue| < cap
    requires policy.DropOldest? ==> !pc.MakeRoom?
    ensures var (t, next) := SendOnce(policy, cap, s, pc);
            t.stage == s.stage && next.Returned? && SubOk(policy, cap, published, false, Idle, t)
  {
    hide SubOk;
    if |s.queue| < cap {
      hide SendOnce;
      SendAppends(policy, cap, s, pc);
      AppendKeepsSub(policy, cap, published, pc, s);
    } else {
      SkippingKeepsSub(cap, published, pc, s);
    }
  }

  lemma SendKeepsSub(policy: Policy, cap: nat, published: nat, pc: Pc<nat>, s: Sub)
    requires cap > 0 && published > 0 && s.stage.Live? && pc.InCall() && pc.v == published - 1
    requires SubOk(policy, cap, published, true, pc, s)
    ensures var (t, next) := SendOnce(policy, cap, s, pc);
            && t.stage == s.stage
            && (next.Returned? ==> SubOk(policy, cap, published, false, Idle, t))
            && (!next.Returned? ==> next.InCall() && next.v == pc.v && SubOk(policy, cap, published, true, next, t))
  {
    if policy.DropOldest? && (pc.MakeRoom? || (pc.Offer? && |s.queue| >= cap)) {
      SendGoesOn(cap, published, pc, s);
    } else {
      SendReturns(policy, cap, published, pc, s);
    }
  }

  // ---- The publisher's steps.

  lemma StoreKeepsInv(f: Feed)
    requires Inv(f)
    ensures Inv(Do(f, Store))
  {
    var g := Do(f, Store);
    forall id | id in g.subs ensures SubInv(g, id) {
      assert SubInv(f, id);
    }
  }

  lemma AwaitingIsForLive(policy: Policy, cap: nat, published: nat, awaits: bool, other: bool, pc: Pc<nat>, s: Sub)
    requires SubOk(policy, cap, published, awaits, pc, s) && !s.stage.Live?
    ensures SubOk(policy, cap, published, other, pc, s)
  {
  }

  lemma LockKeepsInv(f: Feed)
    requires Inv(f)
    ensures Inv(Do(f, Lock))
  {
    hide SubOk, SendOnce;
    var g := Do(f, Lock);
    forall id | id in g.subs ensures SubInv(g, id) {
      assert SubInv(f, id);
      if f.subs[id].stage.Live? {
        assert id in LiveIds(f);
        assert Awaits(g, id) == Awaits(f, id);
      } else {
        AwaitingIsForLive(f.policy, f.cap, f.published, Awaits(f, id), Awaits(g, id), Idle, f.subs[id]);
      }
    }
  }

  lemma OfferKeepsSub(policy: Policy, cap: nat, published: nat, awaits: bool, s: Sub, v: int)
    requires v >= 0 && SubOk(policy, cap, published, awaits, Idle, s)
    ensures SubOk(policy, cap, published, awaits, Offer(v), s)
  {
  }

  lemma PickKeepsInv(f: Feed, id: nat)
    requires Inv(f)
    ensures Inv(Do(f, Pick(id)))
  {
    hide SubOk, SendOnce;
    var g := Do(f, Pick(id));
    forall other | other in g.subs ensures SubInv(g, other) {
      assert SubInv(f, other);
      if g != f && other == id {
        OfferKeepsSub(f.policy, f.cap, f.published, Awaits(f, id), f.subs[id], f.published - 1);
      }
    }
  }

  lemma UnlockKeepsInv(f: Feed)
    requires Inv(f)
    ensures Inv(Do(f, Unlock))
  {
    hide SubOk, SendOnce;
    var g := Do(f, Unlock);
    forall id | id in g.subs ensures SubInv(g, id) {
      assert SubInv(f, id);
    }
  }

  // The feed after a step of the current Send.
  lemma SendShape(f: Feed)
    requires Inv(f) && f.publisher.FanOut? && f.publisher.current.Some?
    ensures var Sending(id, pc) := f.publisher.current.value;
            && id in f.subs && f.subs[id].stage.Live?
            && var (t, next) := SendOnce(f.policy, f.cap, f.subs[id], pc);
            Do(f, Send) == f.(subs := f.subs[id := t],
                              publisher := FanOut(f.publisher.todo, if next.Returned? then None else Some(Sending(id, next))))
  {
  }

  lemma OthersDuringSend(f: Feed, g: Feed, id: nat, t: Sub, current: Option<Sending>, other: nat)
    requires Inv(f) && f.publisher.FanOut? && f.publisher.current.Some? && f.publisher.current.value.id == id
    requires g == f.(subs := f.subs[id := t], publisher := FanOut(f.publisher.todo, current))
    requires current.Some? ==> current.value.id == id
    requires other in f.subs && other != id
    ensures SubInv(g, other)
  {
    assert SubInv(f, other);
    assert Awaits(g, other) == Awaits(f, other) && PcFor(g, other) == PcFor(f, other);
  }

  lemma CurrentSubInv(f: Feed, g: Feed, id: nat, t: Sub, next: Pc<nat>)
    requires Inv(f) && f.publisher.FanOut? && f.publisher.current.Some? && f.publisher.current.value.id == id
    requires g == f.(subs := f.subs[id := t],
                     publisher := FanOut(f.publisher.todo, if next.Returned? then None else Some(Sending(id, next))))
    requires next.Returned? ==> SubOk(f.policy, f.cap, f.published, false, Idle, t)
    requires !next.Returned? ==> SubOk(f.policy, f.cap, f.published, true, next, t)
    ensures SubInv(g, id)
  {
    hide SubOk;
  }

  lemma SendKeepsInv(f: Feed)
    requires Inv(f)
    ensures Inv(Do(f, Send))
  {
    hide SendOnce, SubOk;
    var g := Do(f, Send);
    if f.publisher.FanOut? && f.publisher.current.Some? {
      var Sending(id, pc) := f.publisher.current.value;
      SendShape(f);
      assert SubInv(f, id);
      hide Do;
      SendKeepsSub(f.policy, f.cap, f.published, pc, f.subs[id]);
      var (t, next) := SendOnce(f.policy, f.cap, f.subs[id], pc);
      CurrentSubInv(f, g, id, t, next);
      assert LiveIds(g) == LiveIds(f);
      forall other | other in g.subs ensures SubInv(g, other) {
        if other != id {
          OthersDuringSend(f, g, id, t, g.publisher.current, other);
        }
      }
      hide SubInv;
    }
  }

  // ---- The subscribers' steps.

  lemma NewSubIsOk(policy: Policy, cap: nat, published: nat, awaits: bool, early: bool)
    requires cap > 0 && (awaits ==> early && published > 0)
    ensures var preload := if published > 0 then [published - 1] else [];
            SubOk(policy, cap, published, awaits, Idle, Sub(Live, preload, preload, [], early, published))
  {
    assert Values([]) == [];
    hide Values;
    if published == 0 {
      assert EntriesOk(published, awaits, Sub(Live, [], [], [], early, published));
    } else {
      var v := published - 1;
      assert [] + [v] == [v];
      assert EntriesOk(published, awaits, Sub(Live, [v], [v], [], early, published));
    }
  }

  lemma SubscribeKeepsInv(f: Feed, id: nat)
    requires Inv(f)
    ensures Inv(Do(f, Subscribe(id)))
  {
    hide SubOk, SendOnce;
    var g := Do(f, Subscribe(id));
    if g != f {
      NewSubIsOk(f.policy, f.cap, f.published, Awaits(f, id), f.publisher.Stored?);
      forall other | other in g.subs ensures SubInv(g, other) {
        if other in f.subs {
          assert SubInv(f, other);
        }
      }
    }
  }

  lemma StageKeepsSub(policy: Policy, cap: nat, published: nat, awaits: bool, pc: Pc<nat>, s: Sub, stage: Stage)
    requires SubOk(policy, cap, published, awaits, pc, s) && !stage.Live?
    ensures SubOk(policy, cap, published, awaits, pc, s.(stage := stage))
  {
  }

  lemma StageMatters(f: Feed, id: nat, stage: Stage)
    requires id in f.subs && !stage.Live?
    requires forall other :: other in f.subs ==> SubInv(f, other)
    ensures var g := f.(subs := f.subs[id := f.subs[id].(stage := stage)]);
            forall other :: other in g.subs ==> SubInv(g, other)
  {
    hide SubOk;
    var g := f.(subs := f.subs[id := f.subs[id].(stage := stage)]);
    forall other | other in g.subs ensures SubInv(g, other) {
      assert SubInv(f, other);
      assert Awaits(g, other) == Awaits(f, other) && PcFor(g, other) == PcFor(f, other);
      if other == id {
        StageKeepsSub(f.policy, f.cap, f.published, Awaits(f, id), PcFor(f, id), f.subs[id], stage);
      }
    }
  }

  // A stage can only become less than Live, and not while the publisher holds the lock.
  lemma EndingKeepsInv(f: Feed, a: Action)
    requires Inv(f) && (a.Remove? || a.Close?)
    ensures Inv(Do(f, a))
  {
    var g := Do(f, a);
    hide SubOk, SendOnce;
    if g != f {
      StageMatters(f, a.id, g.subs[a.id].stage);
      if f.publisher.FanOut? {
        assert LiveIds(g) == LiveIds(f);
      }
    }
  }

  lemma ReceiveKeepsInv(f: Feed, id: nat)
    requires Inv(f)
    ensures Inv(Do(f, Receive(id)))
  {
    hide SubOk, SendOnce;
    var g := Do(f, Receive(id));
    if g != f {
      assert SubInv(f, id);
      DepartureKeepsSub(f.policy, f.cap, f.published, Awaits(f, id), PcFor(f, id), f.subs[id], true);
      assert LiveIds(g) == LiveIds(f);
      forall other | other in g.subs ensures SubInv(g, other) {
        assert SubInv(f, other);
      }
    }
  }

  lemma DoKeepsInv(f: Feed, a: Action)
    requires Inv(f)
    ensures Inv(Do(f, a))
  {
    match a {
      case Store => StoreKeepsInv(f);
      case Lock => LockKeepsInv(f);
      case Pick(id) => PickKeepsInv(f, id);
      case Send => SendKeepsInv(f);
      case Unlock => UnlockKeepsInv(f);
      case Subscribe(id) => SubscribeKeepsInv(f, id);
      case Remove(_) => EndingKeepsInv(f, a);
      case Close(_) => EndingKeepsInv(f, a);
      case Receive(id) => ReceiveKeepsInv(f, id);
    }
  }

  lemma DoKeepsPolicy(f: Feed, a: Action)
    ensures Do(f, a).policy == f.policy && Do(f, a).cap == f.cap
  {
    hide SendOnce;
  }

  lemma {:induction false} RunKeepsInv(policy: Policy, cap: nat, actions: seq<Action>)
    requires cap > 0
    ensures Inv(Run(policy, cap, actions))
    ensures Run(policy, cap, actions).policy == policy && Run(policy, cap, actions).cap == cap
  {
    if actions == [] {
      assert Inv(Start(policy, cap));
    } else {
      hide Inv, Start;
      RunKeepsInv(policy, cap, actions[..|actions| - 1]);
      DoKeepsPolicy(Run(policy, cap, actions[..|actions| - 1]), actions[|actions| - 1]);
      hide Do;
      DoKeepsInv(Run(policy, cap, actions[..|actions| - 1]), actions[|actions| - 1]);
    }
  }

  // ---- Nothing is left out by drop-oldest.

  // Every entry is the publication after the one before it, except that the first one may
  // be there twice when the subscription fell between its store and its fan-out.
  ghost predicate Gapless(entered: seq<nat>, early: bool) {
    forall i :: 0 < i < |entered| ==>
      entered[i] == entered[i - 1] + 1 || (i == 1 && early && entered[1] == entered[0])
  }

  // The first frame for a subscriber: the preloaded one, or the very first of all.
  function FirstFor(s: Sub): int {
    if s.since > 0 then s.since - 1 else 0
  }

  // A live subscriber that still awaits publication number published - 1 has the one
  // before it, or has that very one already as its preloaded frame.
  ghost predicate NoGap(published: nat, awaits: bool, s: Sub) {
    && Gapless(s.entered, s.early)
    && (if s.entered == [] then s.since == 0 else s.entered[0] == FirstFor(s))
    && (s.stage.Live? && awaits ==>
          if s.entered == [] then published == 1
          else
            var last := s.entered[|s.entered| - 1];
            last == published - 2 || (|s.entered| == 1 && s.early && last == published - 1))
  }

  ghost predicate NoGaps(f: Feed) {
    forall id :: id in f.subs ==> NoGap(f.published, Awaits(f, id), f.subs[id])
  }

  // What one subscriber's record looks like after an action of someone else, or after
  // one of its own that does not let a frame in.
  predicate SameEntries(s: Sub, t: Sub) {
    t.entered == s.entered && t.early == s.early && t.since == s.since && (t.stage.Live? ==> s.stage.Live?)
  }

  lemma SameEntriesNoGap(published: nat, awaits: bool, s: Sub, t: Sub)
    requires NoGap(published, awaits, s) && SameEntries(s, t)
    ensures NoGap(published, awaits, t)
  {
  }

  lemma NextPublicationNoGap(cap: nat, published: nat, pc: Pc<nat>, s: Sub)
    requires SubOk(DropOldest, cap, published, false, pc, s) && NoGap(published, false, s)
    ensures NoGap(published + 1, true, s)
  {
  }

  lemma EntryLeavesNoGap(published: nat, s: Sub, t: Sub)
    requires published > 0 && s.stage.Live? && NoGap(published, true, s)
    requires t.entered == s.entered + [published - 1] && t.early == s.early && t.since == s.since
    ensures NoGap(published, false, t)
  {
  }

  // One step of a Send to a live subscriber: it lets the frame in when it returns, and
  // until then nothing.
  lemma SendOnceEnters(cap: nat, published: nat, pc: Pc<nat>, s: Sub)
    requires pc.InCall() && SubOk(DropOldest, cap, published, true, pc, s)
    ensures var (t, next) := SendOnce(DropOldest, cap, s, pc);
            && t.stage == s.stage && t.early == s.early && t.since == s.since
            && t.entered == if next.Returned? then s.entered + [pc.v] else s.entered
  {
  }

  lemma SendLeavesNoGaps(f: Feed)
    requires Inv(f) && f.policy.DropOldest? && NoGaps(f)
    requires f.publisher.FanOut? && f.publisher.current.Some?
    ensures NoGaps(Do(f, Send))
  {
    hide SendOnce, SubOk, NoGap;
    var g := Do(f, Send);
    var Sending(id, pc) := f.publisher.current.value;
    SendShape(f);
    assert SubInv(f, id);
    SendOnceEnters(f.cap, f.published, pc, f.subs[id]);
    forall other | other in g.subs ensures NoGap(g.published, Awaits(g, other), g.subs[other]) {
      assert NoGap(f.published, Awaits(f, other), f.subs[other]);
      if other == id {
        if g.publisher.current.None? {
          EntryLeavesNoGap(f.published, f.subs[id], g.subs[id]);
        } else {
          SameEntriesNoGap(f.published, true, f.subs[id], g.subs[id]);
        }
      } else {
        assert Awaits(g, other) == Awaits(f, other);
      }
    }
  }

  lemma StoreLeavesNoGaps(f: Feed)
    requires Inv(f) && f.policy.DropOldest? && NoGaps(f) && f.publisher.Resting?
    ensures NoGaps(Do(f, Store))
  {
    hide SubOk, NoGap;
    var g := Do(f, Store);
    forall id | id in g.subs ensures NoGap(g.published, Awaits(g, id), g.subs[id]) {
      assert SubInv(f, id) && NoGap(f.published, Awaits(f, id), f.subs[id]);
      NextPublicationNoGap(f.cap, f.published, PcFor(f, id), f.subs[id]);
    }
  }

  lemma LockLeavesNoGaps(f: Feed)
    requires Inv(f) && NoGaps(f) && f.publisher.Stored?
    ensures NoGaps(Do(f, Lock))
  {
    var g := Do(f, Lock);
    forall id | id in g.subs ensures NoGap(g.published, Awaits(g, id), g.subs[id]) {
      assert NoGap(f.published, Awaits(f, id), f.subs[id]);
    }
  }

  lemma SubscribeLeavesNoGaps(f: Feed, id: nat)
    requires Inv(f) && NoGaps(f) && id !in f.subs && !f.publisher.FanOut?
    ensures NoGaps(Do(f, Subscribe(id)))
  {
    hide SubOk, SendOnce;
    var g := Do(f, Subscribe(id));
    assert NoGap(g.published, Awaits(g, id), g.subs[id]);
    hide NoGap;
    forall other | other in g.subs && other != id ensures NoGap(g.published, Awaits(g, other), g.subs[other]) {
      assert NoGap(f.published, Awaits(f, other), f.subs[other]);
    }
  }

  // The actions that let nobody in and start no publication.
  lemma OthersLeaveNoGaps(f: Feed, a: Action)
    requires Inv(f) && NoGaps(f) && !a.Store? && !a.Lock? && !a.Send? && !a.Subscribe?
    ensures NoGaps(Do(f, a))
  {
    hide SubOk, SendOnce, NoGap;
    var g := Do(f, a);
    forall id | id in g.subs ensures NoGap(g.published, Awaits(g, id), g.subs[id]) {
      assert NoGap(f.published, Awaits(f, id), f.subs[id]);
      assert SameEntries(f.subs[id], g.subs[id]) && Awaits(g, id) == Awaits(f, id);
      SameEntriesNoGap(f.published, Awaits(f, id), f.subs[id], g.subs[id]);
    }
  }

  lemma DoLeavesNoGaps(f: Feed, a: Action)
    requires Inv(f) && f.policy.DropOldest? && NoGaps(f)
    ensures NoGaps(Do(f, a))
  {
    hide Inv, NoGaps;
    if Do(f, a) != f {
      match a {
        case Store => StoreLeavesNoGaps(f);
        case Lock => LockLeavesNoGaps(f);
        case Send => SendLeavesNoGaps(f);
        case Subscribe(id) => SubscribeLeavesNoGaps(f, id);
        case _ => OthersLeaveNoGaps(f, a);
      }
    }
  }

  lemma {:induction false} RunLeavesNoGaps(cap: nat, actions: seq<Action>)
    requires cap > 0
    ensures NoGaps(Run(DropOldest, cap, actions))
  {
    hide Do, Inv;
    if actions != [] {
      var before := actions[..|actions| - 1];
      RunLeavesNoGaps(cap, before);
      RunKeepsInv(DropOldest, cap, before);
      DoLeavesNoGaps(Run(DropOldest, cap, before), actions[|actions| - 1]);
    }
  }

  // With drop-oldest every frame published while a subscriber is there enters its channel,
  // from the preloaded one on, in order and without a gap; a live one that awaits no
  // publication has them all. So all it loses it loses at the head of its queue.
  lemma EverythingEnters(cap: nat, actions: seq<Action>, id: nat)
    requires cap > 0 && id in Run(DropOldest, cap, actions).subs
    ensures var f := Run(DropOldest, cap, actions);
            var s := f.subs[id];
            && Gapless(s.entered, s.early)
            && (s.entered != [] ==> s.entered[0] == FirstFor(s))
            && s.entered == Values(s.left) + s.queue
            && (s.stage.Live? && !Awaits(f, id) && f.published > 0 ==>
                  s.entered != [] && s.entered[|s.entered| - 1] == f.published - 1)
  {
    hide Run;
    RunKeepsInv(DropOldest, cap, actions);
    RunLeavesNoGaps(cap, actions);
    assert SubInv(Run(DropOldest, cap, actions), id);
    assert NoGap(Run(DropOldest, cap, actions).published, Awaits(Run(DropOldest, cap, actions), id),
                 Run(DropOldest, cap, actions).subs[id]);
  }

  // ---- What a subscriber sees.

  function Received(left: seq<Gone>): seq<nat> {
    if left == [] then []
    else Received(left[..|left| - 1]) + if left[|left| - 1].received then [left[|left| - 1].v] else []
  }

  // What it has received, and behind that what is queued for it.
  function StreamOf(s: Sub): seq<nat> {
    Received(s.left) + s.queue
  }

  lemma RemovalStaysNearlyIncreasing(s: seq<nat>, i: nat)
    requires NearlyIncreasing(s) && i < |s|
    ensures NearlyIncreasing(s[..i] + s[i + 1..])
  {
    var r := s[..i] + s[i + 1..];
    assert forall k :: 0 <= k < |r| ==> r[k] == if k < i then s[k] else s[k + 1];
  }

  // Losing some of the values that left keeps the order of the rest.
  lemma {:induction false} LossesKeepOrder(left: seq<Gone>, queue: seq<nat>)
    requires NearlyIncreasing(Values(left) + queue)
    ensures NearlyIncreasing(Received(left) + queue)
    decreases |left|
  {
    if left == [] {
      assert Values(left) + queue == queue == Received(left) + queue;
    } else {
      var n := |left| - 1;
      var all := Values(left) + queue;
      if left[n].received {
        assert all == Values(left[..n]) + ([left[n].v] + queue);
        LossesKeepOrder(left[..n], [left[n].v] + queue);
        assert Received(left) + queue == Received(left[..n]) + ([left[n].v] + queue);
      } else {
        assert all[..n] + all[n + 1..] == Values(left[..n]) + queue;
        RemovalStaysNearlyIncreasing(all, n);
        LossesKeepOrder(left[..n], queue);
        assert Received(left) == Received(left[..n]);
      }
    }
  }

  // In every interleaving, what a subscriber has received and has queued is in
  // publication order. A frame occurs twice at most at the front, and only when the
  // subscription fell between the store and the fan-out of that frame. Whatever is lost
  // was at the head of the queue or did not get in.
  lemma StreamsAreInOrder(policy: Policy, cap: nat, actions: seq<Action>, id: nat)
    requires cap > 0 && id in Run(policy, cap, actions).subs
    ensures var s := Run(policy, cap, actions).subs[id];
            && NearlyIncreasing(StreamOf(s))
            && s.entered == Values(s.left) + s.queue
            && NearlyIncreasing(s.entered)
            && (|s.entered| >= 2 && s.entered[0] == s.entered[1] ==> s.early)
            && |s.queue| <= cap
  {
    RunKeepsInv(policy, cap, actions);
    var s := Run(policy, cap, actions).subs[id];
    assert SubInv(Run(policy, cap, actions), id);
    LossesKeepOrder(s.left, s.queue);
  }

  // With drop-oldest, once a publication is over every subscriber has the frame: it is
  // the last one it has received or queued.
  lemma NewestReachesEveryone(cap: nat, actions: seq<Action>, id: nat)
    requires cap > 0
    requires var f := Run(DropOldest, cap, actions);
             f.publisher.Resting? && f.published > 0 && id in f.subs && f.subs[id].stage.Live?
    ensures var f := Run(DropOldest, cap, actions);
            var stream := StreamOf(f.subs[id]);
            stream != [] && stream[|stream| - 1] == f.published - 1
  {
    hide Run;
    RunKeepsInv(DropOldest, cap, actions);
    var f := Run(DropOldest, cap, actions);
    var s := f.subs[id];
    assert SubInv(f, id);
    if s.queue == [] {
      assert s.entered == Values(s.left);
      assert s.left[|s.left| - 1].v == f.published - 1;
    }
  }

  // With drop-newest a frame enters a channel at its turn exactly when there is room.
  lemma NewestEntersIfRoom(cap: nat, actions: seq<Action>)
    requires cap > 0
    requires var p := Run(DropNewest, cap, actions).publisher; p.FanOut? && p.current.Some?
    ensures var f := Run(DropNewest, cap, actions);
            var g := Do(f, Send);
            var id := f.publisher.current.value.id;
            && id in f.subs && id in g.subs
            && g.publisher == FanOut(f.publisher.todo, None)
            && g.subs[id].queue == (if |f.subs[id].queue| < cap then f.subs[id].queue + [f.published - 1] else f.subs[id].queue)
            && g.subs[id].left == f.subs[id].left
  {
    RunKeepsInv(DropNewest, cap, actions);
  }

  // Nothing is ever sent on a closed channel.
  lemma NeverSendsOnClosed(policy: Policy, cap: nat, actions: seq<Action>)
    requires cap > 0
    ensures !Run(policy, cap, actions).panicked
    ensures var f := Run(policy, cap, actions);
            f.publisher.FanOut? && f.publisher.current.Some? ==> f.publisher.current.value.id in LiveIds(f)
  {
    RunKeepsInv(policy, cap, actions);
  }

  // ---- The publisher never waits for a subscriber.

  function StepsLeft(pc: Pc<nat>): nat {
    match pc
    case Offer(_) => 3
    case MakeRoom(_) => 2
    case Retry(_, _) => 1
    case _ => 0
  }

  function Work(p: Publisher): nat {
    match p
    case FanOut(todo, current) => 1 + 5 * |todo| + if current.Some? then 1 + StepsLeft(current.value.pc) else 0
    case _ => 0
  }

  // The publisher's own next step.
  ghost predicate IsNext(f: Feed, a: Action) {
    match f.publisher
    case Resting => a.Store?
    case Stored => a.Lock?
    case FanOut(todo, current) =>
      if current.Some? then a.Send?
      else if todo == {} then a.Unlock?
      else a.Pick? && a.id in todo
  }

  lemma PublisherCanMove(f: Feed)
    ensures exists next :: IsNext(f, next)
  {
    match f.publisher {
      case Resting => assert IsNext(f, Store);
      case Stored => assert IsNext(f, Lock);
      case FanOut(todo, current) =>
        if current.Some? {
          assert IsNext(f, Send);
        } else if todo == {} {
          assert IsNext(f, Unlock);
        } else {
          var id := SomeElement(todo);
          assert IsNext(f, Pick(id));
        }
    }
  }

  lemma SendOnceMakesProgress(policy: Policy, cap: nat, s: Sub, pc: Pc<nat>)
    requires pc.InCall()
    ensures var next := SendOnce(policy, cap, s, pc).1;
            StepsLeft(next) < StepsLeft(pc) && (next.Returned? || next.InCall())
  {
  }

  lemma SendMakesProgress(f: Feed)
    requires Inv(f) && f.publisher.FanOut? && f.publisher.current.Some?
    ensures Work(Do(f, Send).publisher) < Work(f.publisher)
  {
    SendShape(f);
    var Sending(id, pc) := f.publisher.current.value;
    SendOnceMakesProgress(f.policy, f.cap, f.subs[id], pc);
  }

  lemma PickMakesProgress(f: Feed, id: nat)
    requires Inv(f) && f.publisher.FanOut? && f.publisher.current.None? && id in f.publisher.todo
    ensures Work(Do(f, Pick(id)).publisher) < Work(f.publisher)
  {
    hide SubOk, SendOnce;
    var todo := f.publisher.todo;
    assert |todo - {id}| == |todo| - 1;
  }

  lemma OthersLeavePublisher(f: Feed, a: Action)
    requires Inv(f) && !IsNext(f, a)
    ensures Do(f, a).publisher == f.publisher
  {
    hide SubOk, SendOnce;
    if a.Pick? && f.publisher.FanOut? && f.publisher.current.None? {
      assert a.id !in f.publisher.todo;
    }
  }

  // In every state the publisher has a step it can take, whatever the subscribers do, and
  // in the fan-out each such step brings it closer to the end while no step of anyone
  // else sets it back.
  lemma PublishNeverBlocks(policy: Policy, cap: nat, actions: seq<Action>, a: Action)
    requires cap > 0
    ensures exists next :: IsNext(Run(policy, cap, actions), next)
    ensures var f := Run(policy, cap, actions);
            var g := Do(f, a);
            && (IsNext(f, a) ==> g.publisher != f.publisher)
            && (f.publisher.Resting? && IsNext(f, a) ==> g.publisher.Stored?)
            && (f.publisher.Stored? && IsNext(f, a) ==> g.publisher.FanOut?)
            && (f.publisher.FanOut? && IsNext(f, a) ==> Work(g.publisher) < Work(f.publisher))
            && (!IsNext(f, a) ==> g.publisher == f.publisher)
  {
    RunKeepsInv(policy, cap, actions);
    var f := Run(policy, cap, actions);
    PublisherCanMove(f);
    if !IsNext(f, a) {
      OthersLeavePublisher(f, a);
    } else if a.Send? {
      SendMakesProgress(f);
    } else if a.Pick? {
      PickMakesProgress(f, a.id);
    }
  }
}
