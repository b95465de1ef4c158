// The drop-oldest queue: a bounded channel and Send, which never blocks.
//
// Send touches the channel in three separate, atomic steps. SendStep is one such step;
// the class below runs the three of them with anything happening in between, and
// DropChanRuns interleaves any number of producers and a consumer.
module DropChan {
  import opened Wrappers

  datatype Outcome = Delivered | ReplacedOldest | Dropped
  {
    predicate Lost() {
      this != Delivered
    }
  }

  // How far one producer has come in its current call.
  datatype Pc<T> =
    | Idle
    | Offer(v: T)
    | MakeRoom(v: T)
    | Retry(v: T, displaced: bool)
    | Returned(outcome: Outcome)
  {
    predicate InCall() {
      Offer? || MakeRoom? || Retry?
    }
  }

  datatype Stepped<T> = Stepped(buf: seq<T>, pc: Pc<T>)

  // One select statement of Send on a channel that holds buf.
  function SendStep<T>(buf: seq<T>, cap: nat, pc: Pc<T>): Stepped<T> {
    match pc
    case Offer(v) =>
      if |buf| < cap then Stepped(buf + [v], Returned(Delivered)) else Stepped(buf, MakeRoom(v))
    case MakeRoom(v) =>
      if buf != [] then Stepped(buf[1..], Retry(v, true)) else Stepped(buf, Retry(v, false))
    case Retry(v, displaced) =>
      if |buf| < cap then Stepped(buf + [v], Returned(if displaced then ReplacedOldest else Delivered))
      else Stepped(buf, Returned(Dropped))
    case _ => Stepped(buf, pc)
  }

  // The channel after a consumer has received up to n values.
  function Drain<T>(buf: seq<T>, n: nat): seq<T> {
    if n <= |buf| then buf[n..] else []
  }

  // A whole call, while others do to the channel what others1 says before the second step
  // and what others2 says before the third.
  function SendAmid<T>(buf: seq<T>, cap: nat, v: T, others1: seq<T> -> seq<T>, others2: seq<T> -> seq<T>): (r: Stepped<T>)
    ensures r.pc.Returned?
  {
    var s1 := SendStep(buf, cap, Offer(v));
    if s1.pc.Returned? then s1
    else
      var s2 := SendStep(others1(s1.buf), cap, s1.pc);
      SendStep(others2(s2.buf), cap, s2.pc)
  }

  // A whole call by the only producer, while a consumer receives r1 values before
  // the second step and r2 before the third.
  function SendAlone<T>(buf: seq<T>, cap: nat, v: T, r1: nat, r2: nat): (r: Stepped<T>)
    ensures r.pc.Returned?
  {
    SendAmid(buf, cap, v, b => Drain(b, r1), b => Drain(b, r2))
  }

  // How many values that consumer gets while the call runs.
  function ReceivedMeanwhile<T>(buf: seq<T>, cap: nat, r1: nat, r2: nat): nat {
    if |buf| < cap then 0
    else if |buf| <= r1 then |buf|
    else r1 + if r2 <= |buf| - r1 - 1 then r2 else |buf| - r1 - 1
  }

  // A call nobody interferes with: a full channel gives up its oldest value, and only a
  // full one does.
  lemma SendUndisturbed<T>(buf: seq<T>, cap: nat, v: T)
    requires 0 < cap && |buf| <= cap
    ensures var r := SendAlone(buf, cap, v, 0, 0);
            if |buf| < cap then r.buf == buf + [v] && r.pc.outcome == Delivered
            else r.buf == buf[1..] + [v] && r.pc.outcome == ReplacedOldest
  {
    assert Drain(buf, 0) == buf;
    assert buf != [] ==> Drain(buf[1..], 0) == buf[1..];
  }

  // With one producer and room for one value, nothing is ever dropped, and what the
  // channel holds is the old contents followed by v, less some values at its head:
  // those received, and one more exactly when the outcome is ReplacedOldest.
  lemma SendAloneIsFifo<T>(buf: seq<T>, cap: nat, v: T, r1: nat, r2: nat)
    requires 0 < cap && |buf| <= cap
    ensures var r := SendAlone(buf, cap, v, r1, r2);
            var gone := ReceivedMeanwhile(buf, cap, r1, r2) + if r.pc.outcome == ReplacedOldest then 1 else 0;
            && r.pc.outcome != Dropped
            && (r.pc.outcome == Delivered <==> |buf| < cap || |buf| <= r1)
            && |r.buf| <= cap
            && gone <= |buf|
            && r.buf == (buf + [v])[gone..]
  {
  }

  // ---- The channel as an object.

  // Sending on a closed channel and closing one twice panic; receiving from one is fine.
  class Chan<T> {
    const cap: nat
    var buf: seq<T>
    var closed: bool

    constructor (cap: nat)
      ensures this.cap == cap && buf == [] && !closed
    {
      this.cap := cap;
      buf := [];
      closed := false;
    }

    method Close()
      requires !closed
      modifies this`closed
      ensures closed
    {
      closed := true;
    }

    method TrySend(v: T) returns (sent: bool)
      requires !closed
      modifies this`buf
      ensures sent == (old(|buf|) < cap)
      ensures buf == if sent then old(buf) + [v] else old(buf)
    {
      sent := |buf| < cap;
      if sent {
        buf := buf + [v];
      }
    }

    method TryReceive() returns (r: Option<T>)
      modifies this`buf
      ensures old(buf) == [] ==> r == None && buf == []
      ensures old(buf) != [] ==> r == Some(old(buf)[0]) && buf == old(buf)[1..]
    {
      r := None;
      if buf != [] {
        r, buf := Some(buf[0]), buf[1..];
      }
    }

    // Send, with whatever other producers and consumers do to the channel meanwhile.
    method Send(v: T, others1: seq<T> -> seq<T>, others2: seq<T> -> seq<T>) returns (outcome: Outcome)
      requires !closed
      modifies this`buf
      ensures Stepped(buf, Returned(outcome)) == SendAmid(old(buf), cap, v, others1, others2)
    {
      var sent := TrySend(v);
      if sent {
        return Delivered;
      }
      buf := others1(buf);
      var displaced := false;
      var oldest := TryReceive();
      if oldest.Some? {
        displaced := true;
      }
      buf := others2(buf);
      sent := TrySend(v);
      if sent {
        return if displaced then ReplacedOldest else Delivered;
      }
      return Dropped;
    }
  }

  // ---- Sends with nobody receiving.

  function SendAll<T>(buf: seq<T>, cap: nat, vs: seq<T>): seq<T>
    decreases vs
  {
    if vs == [] then buf
    else SendAll(SendAlone(buf, cap, vs[0], 0, 0).buf, cap, vs[1..])
  }

  // The last cap values of s, or all of them when there are fewer.
  function Newest<T>(s: seq<T>, cap: nat): seq<T> {
    if |s| <= cap then s else s[|s| - cap..]
  }

  lemma NewestOfNewest<T>(s: seq<T>, t: seq<T>, cap: nat)
    ensures Newest(Newest(s, cap) + t, cap) == Newest(s + t, cap)
  {
  }

  lemma SendKeepsNewest<T>(buf: seq<T>, cap: nat, v: T)
    requires 0 < cap && |buf| <= cap
    ensures SendAlone(buf, cap, v, 0, 0).buf == Newest(buf + [v], cap)
    ensures |SendAlone(buf, cap, v, 0, 0).buf| <= cap
  {
    SendAloneIsFifo(buf, cap, v, 0, 0);
  }

  lemma {:induction false} SendAllKeepsNewest<T>(buf: seq<T>, cap: nat, vs: seq<T>)
    requires 0 < cap && |buf| <= cap
    ensures SendAll(buf, cap, vs) == Newest(buf + vs, cap)
    decreases vs
  {
    hide SendAlone, SendStep;
    if vs == [] {
      assert buf + vs == buf;
    } else {
      var b := SendAlone(buf, cap, vs[0], 0, 0).buf;
      SendKeepsNewest(buf, cap, vs[0]);
      SendAllKeepsNewest(b, cap, vs[1..]);
      NewestOfNewest(buf + [vs[0]], vs[1..], cap);
      assert buf + vs == buf + [vs[0]] + vs[1..];
    }
  }
}
