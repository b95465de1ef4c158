// Any number of producers and a consumer on one drop-oldest queue, interleaved step by
// step.
module DropChanRuns {
  import opened DropChan

  datatype Departure<T> = Departure(v: T, evicted: bool)

  datatype System<T> = System(
    cap: nat,
    buf: seq<T>,
    producers: seq<Pc<T>>,
    // history: calls begun, values that entered the channel and that left it
    begun: nat,
    entered: seq<T>,
    left: seq<Departure<T>>,
    // history: finished calls by outcome, and those Dropped that had evicted a value
    replaced: nat,
    dropped: nat,
    droppedTwice: nat)

  datatype Action<T> = Begin(p: nat, v: T) | Advance(p: nat) | Receive

  function Start<T>(cap: nat, n: nat): System<T> {
    System(cap, [], seq(n, _ => Idle), 0, [], [], 0, 0, 0)
  }

  // One action; one that is not possible leaves everything as it is.
  function Do<T>(s: System<T>, a: Action<T>): System<T> {
    match a
    case Begin(p, v) =>
      if p < |s.producers| && !s.producers[p].InCall()
      then s.(producers := s.producers[p := Offer(v)], begun := s.begun + 1)
      else s
    case Receive =>
      if s.buf != [] then s.(buf := s.buf[1..], left := s.left + [Departure(s.buf[0], false)]) else s
    case Advance(p) =>
      if p < |s.producers| && s.producers[p].InCall() then
        var pc := s.producers[p];
        var r := SendStep(s.buf, s.cap, pc);
        var isIn := r.pc.Returned? && r.pc.outcome != Dropped;
        s.(buf := r.buf,
           producers := s.producers[p := r.pc],
           entered := if isIn then s.entered + [pc.v] else s.entered,
           left := if pc.MakeRoom? && s.buf != [] then s.left + [Departure(s.buf[0], true)] else s.left,
           replaced := s.replaced + (if r.pc == Returned(ReplacedOldest) then 1 else 0),
           dropped := s.dropped + (if r.pc == Returned(Dropped) then 1 else 0),
           droppedTwice := s.droppedTwice + (if r.pc == Returned(Dropped) && pc.displaced then 1 else 0))
      else s
  }

  function Run<T>(s: System<T>, actions: seq<Action<T>>): System<T> {
    if actions == [] then s
    else Do(Run(s, actions[..|actions| - 1]), actions[|actions| - 1])
  }

  function Values<T>(left: seq<Departure<T>>): seq<T> {
    seq(|left|, i requires 0 <= i < |left| => left[i].v)
  }

  function Evictions<T>(left: seq<Departure<T>>): nat {
    if left == [] then 0
    else Evictions(left[..|left| - 1]) + if left[|left| - 1].evicted then 1 else 0
  }

  // Calls in progress, and those among them that have evicted a value.
  function InFlight<T>(producers: seq<Pc<T>>): nat {
    if producers == [] then 0
    else InFlight(producers[1..]) + if producers[0].InCall() then 1 else 0
  }

  function Displacing<T>(producers: seq<Pc<T>>): nat {
    if producers == [] then 0
    else Displacing(producers[1..]) + if IsDisplacing(producers[0]) then 1 else 0
  }

  predicate IsDisplacing<T>(pc: Pc<T>) {
    pc.Retry? && pc.displaced
  }

  lemma {:induction false} CountsOfUpdate<T>(producers: seq<Pc<T>>, p: nat, pc: Pc<T>)
    requires p < |producers|
    ensures InFlight(producers[p := pc]) ==
            InFlight(producers) - (if producers[p].InCall() then 1 else 0) + (if pc.InCall() then 1 else 0)
    ensures Displacing(producers[p := pc]) ==
            Displacing(producers) - (if IsDisplacing(producers[p]) then 1 else 0) + (if IsDisplacing(pc) then 1 else 0)
  {
    if p == 0 {
      assert producers[p := pc][1..] == producers[1..];
    } else {
      CountsOfUpdate(producers[1..], p - 1, pc);
      assert producers[p := pc][1..] == producers[1..][p - 1 := pc];
    }
  }

  lemma {:induction false} NobodyCalls<T>(n: nat)
    ensures InFlight(seq<Pc<T>>(n, _ => Idle)) == 0
    ensures Displacing(seq<Pc<T>>(n, _ => Idle)) == 0
  {
    if n > 0 {
      NobodyCalls<T>(n - 1);
      assert seq<Pc<T>>(n, _ => Idle)[1..] == seq<Pc<T>>(n - 1, _ => Idle);
    }
  }

  ghost predicate Inv<T>(s: System<T>) {
    && |s.buf| <= s.cap
    && s.entered == Values(s.left) + s.buf
    && s.begun == |s.entered| + InFlight(s.producers) + s.dropped
    && Evictions(s.left) == s.replaced + s.droppedTwice + Displacing(s.producers)
    && s.droppedTwice <= s.dropped
    && (|s.producers| == 1 && s.cap > 0 ==>
          s.dropped == 0 && (s.producers[0].Retry? ==> |s.buf| < s.cap))
  }

  // One value more has left.
  lemma OneMoreLeft<T>(left: seq<Departure<T>>, d: Departure<T>)
    ensures Values(left + [d]) == Values(left) + [d.v]
    ensures Evictions(left + [d]) == Evictions(left) + if d.evicted then 1 else 0
  {
    assert (left + [d])[..|left|] == left;
  }

  lemma AdvanceKeepsInv<T>(s: System<T>, p: nat)
    requires Inv(s) && p < |s.producers| && s.producers[p].InCall()
    ensures Inv(Do(s, Advance(p)))
  {
    hide Values, Evictions, InFlight, Displacing;
    CountsOfUpdate(s.producers, p, SendStep(s.buf, s.cap, s.producers[p]).pc);
    if s.producers[p].MakeRoom? && s.buf != [] {
      OneMoreLeft(s.left, Departure(s.buf[0], true));
    }
  }

  lemma DoKeepsInv<T>(s: System<T>, a: Action<T>)
    requires Inv(s)
    ensures Inv(Do(s, a))
  {
    hide Values, Evictions, InFlight, Displacing;
    match a {
      case Begin(p, v) =>
        if p < |s.producers| {
          CountsOfUpdate(s.producers, p, Offer(v));
        }
      case Receive =>
        if s.buf != [] {
          OneMoreLeft(s.left, Departure(s.buf[0], false));
        }
      case Advance(p) =>
        if p < |s.producers| && s.producers[p].InCall() {
          AdvanceKeepsInv(s, p);
        }
    }
  }

  lemma {:induction false} RunKeepsInv<T>(cap: nat, n: nat, actions: seq<Action<T>>)
    ensures Inv(Run(Start(cap, n), actions))
    ensures Run(Start<T>(cap, n), actions).cap == cap && |Run(Start<T>(cap, n), actions).producers| == n
  {
    if actions == [] {
      NobodyCalls<T>(n);
      assert Values(Start<T>(cap, n).left) == [];
    } else {
      RunKeepsInv(cap, n, actions[..|actions| - 1]);
      DoKeepsInv(Run(Start(cap, n), actions[..|actions| - 1]), actions[|actions| - 1]);
    }
  }

  // In every interleaving values leave in the order they entered, and once no call is
  // in progress every begun value has entered or was dropped. The losses are at least
  // one per call that reported one and at most one more per call that reported Dropped.
  lemma LossesAreBounded<T>(cap: nat, n: nat, actions: seq<Action<T>>)
    ensures var s := Run(Start(cap, n), actions);
            && Values(s.left) + s.buf == s.entered
            && |s.buf| <= cap
            && (InFlight(s.producers) == 0 ==>
                  && s.begun == |s.entered| + s.dropped
                  && var lost := Evictions(s.left) + s.dropped;
                  && s.replaced + s.dropped <= lost <= s.replaced + 2 * s.dropped)
  {
    RunKeepsInv(cap, n, actions);
    DisplacingInFlight(Run(Start(cap, n), actions).producers);
  }

  lemma {:induction false} DisplacingInFlight<T>(producers: seq<Pc<T>>)
    ensures Displacing(producers) <= InFlight(producers)
  {
    if producers != [] {
      DisplacingInFlight(producers[1..]);
    }
  }

  // With one producer no call ever reports Dropped, so between two calls the values
  // lost are exactly the calls that reported ReplacedOldest.
  lemma OneProducerLosesWhatItReports<T>(cap: nat, actions: seq<Action<T>>)
    requires cap > 0
    ensures var s := Run(Start(cap, 1), actions);
            && |s.producers| == 1
            && s.dropped == 0
            && (!s.producers[0].InCall() ==> Evictions(s.left) == s.replaced && s.begun == |s.entered|)
  {
    RunKeepsInv(cap, 1, actions);
    var ps := Run(Start(cap, 1), actions).producers;
    assert InFlight(ps[1..]) == 0 && Displacing(ps[1..]) == 0;
  }

  // With two producers both losses can fall on one call: it evicts a value, the other
  // producer takes the room, and the call then drops its own value as well.
  function BothLose(): seq<Action<char>> {
    [Begin(1, 'a'), Advance(1), Begin(0, 'b'), Advance(0), Advance(0), Begin(1, 'c'), Advance(1), Advance(0)]
  }

  lemma TwoProducersCanLoseTwo()
    ensures var t := Run(Start(1, 2), BothLose());
            && t.producers == [Returned(Dropped), Returned(Delivered)]
            && t.buf == ['c'] && t.droppedTwice == 1 && t.dropped == 1 && t.replaced == 0
            && Evictions(t.left) == 1
  {
    hide Do, Start;
    Fill();
    EvictAndLose();
    var s, all := Start<char>(1, 2), BothLose();
    RunTwoMore(s, [], all[0], all[1]);
    RunTwoMore(s, all[..2], all[2], all[3]);
    RunTwoMore(s, all[..4], all[4], all[5]);
    RunTwoMore(s, all[..6], all[6], all[7]);
    assert all[..2] == [] + [all[0], all[1]] && all[..4] == all[..2] + [all[2], all[3]];
    assert all[..6] == all[..4] + [all[4], all[5]] && all == all[..6] + [all[6], all[7]];
    assert [Departure('a', true)][..0] == [];
  }

  // The channel is full of one delivered value.
  function Full(): System<char> {
    System(1, ['a'], [Idle, Returned(Delivered)], 1, ['a'], [], 0, 0, 0)
  }

  lemma Fill()
    ensures Do(Do(Start(1, 2), Begin(1, 'a')), Advance(1)) == Full()
  {
    assert Start<char>(1, 2).producers == [Idle, Idle];
    var called := Do(Start(1, 2), Begin(1, 'a'));
    assert called.producers == [Idle, Offer('a')] && called.buf + ['a'] == ['a'];
    assert called.producers[1 := Returned(Delivered)] == [Idle, Returned(Delivered)];
  }

  lemma EvictAndLose()
    ensures var evicted := Do(Do(Do(Full(), Begin(0, 'b')), Advance(0)), Advance(0));
            var t := Do(Do(Do(evicted, Begin(1, 'c')), Advance(1)), Advance(0));
            && t.producers == [Returned(Dropped), Returned(Delivered)]
            && t.buf == ['c'] && t.droppedTwice == 1 && t.dropped == 1 && t.replaced == 0
            && t.left == [Departure('a', true)]
  {
    var evicted := Do(Do(Do(Full(), Begin(0, 'b')), Advance(0)), Advance(0));
    assert evicted.producers == [Retry('b', true), Returned(Delivered)] && evicted.buf == [];
    assert evicted.left == [Departure('a', true)];
  }

  lemma RunTwoMore<T>(s: System<T>, actions: seq<Action<T>>, a: Action<T>, b: Action<T>)
    ensures Run(s, actions + [a, b]) == Do(Do(Run(s, actions), a), b)
  {
    assert (actions + [a, b])[..|actions| + 1] == actions + [a];
    assert (actions + [a])[..|actions|] == actions;
  }
}
