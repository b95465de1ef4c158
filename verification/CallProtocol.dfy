// The protocol the recorder follows towards the store and the encoders, as an
// automaton over the calls it makes, stated independently of the recorder.
module CallProtocol {

  // One call with its result. A segment is named by its start time.
  datatype Call =
    | Begin(start: int)
    | BeginFailed
    | Start(start: int, ok: bool)
    | Write(start: int, ok: bool)
    | CloseEncoder(start: int, ok: bool)
    | Kill(start: int)
    | CloseWriter(start: int, ok: bool)
    | Complete(start: int, ok: bool)
    | Discard(start: int)

  datatype Phase =
    | Free
    | Begun(start: int)
    | Running(start: int)
    | Broken(start: int)
    | Flushed(start: int)
    | Ready(start: int)
    | Doomed(start: int)
    | Violated

  // The only calls each phase allows.
  function Next(p: Phase, c: Call): Phase {
    match (p, c)
    case (Free, BeginFailed) => Free
    case (Free, Begin(t)) => Begun(t)
    case (Begun(s), Start(t, ok)) => if s != t then Violated else if ok then Running(t) else Doomed(t)
    case (Running(s), Write(t, ok)) => if s != t then Violated else if ok then Running(t) else Broken(t)
    case (Running(s), CloseEncoder(t, ok)) => if s != t then Violated else if ok then Flushed(t) else Doomed(t)
    case (Broken(s), Kill(t)) => if s != t then Violated else Doomed(t)
    case (Flushed(s), CloseWriter(t, ok)) => if s != t then Violated else if ok then Ready(t) else Doomed(t)
    case (Ready(s), Complete(t, ok)) => if s != t then Violated else if ok then Free else Doomed(t)
    case (Doomed(s), Discard(t)) => if s != t then Violated else Free
    case _ => Violated
  }

  function PhaseAfter(calls: seq<Call>): Phase {
    if calls == [] then Free else Next(PhaseAfter(calls[..|calls| - 1]), calls[|calls| - 1])
  }

  lemma PhaseOfOneMore(calls: seq<Call>, c: Call)
    ensures PhaseAfter(calls + [c]) == Next(PhaseAfter(calls), c)
  {
    assert (calls + [c])[..|calls|] == calls;
  }

  lemma {:induction false} ViolationsStay(calls: seq<Call>, n: nat)
    requires n <= |calls| && PhaseAfter(calls) != Violated
    ensures PhaseAfter(calls[..n]) != Violated
    decreases |calls|
  {
    if n < |calls| {
      assert calls[..|calls| - 1][..n] == calls[..n];
      ViolationsStay(calls[..|calls| - 1], n);
    } else {
      assert calls[..n] == calls;
    }
  }

  // ---- What the protocol is for, in terms of how often each call is made.

  predicate EndsSegment(c: Call, t: int) {
    c == Complete(t, true) || c == Discard(t)
  }

  predicate StopsEncoder(c: Call, t: int) {
    (c.CloseEncoder? && c.start == t) || c == Kill(t)
  }

  function Count(calls: seq<Call>, p: Call -> bool): nat {
    if calls == [] then 0
    else Count(calls[..|calls| - 1], p) + if p(calls[|calls| - 1]) then 1 else 0
  }

  function Begins(calls: seq<Call>, t: int): nat {
    Count(calls, c => c == Begin(t))
  }

  function Ends(calls: seq<Call>, t: int): nat {
    Count(calls, c => EndsSegment(c, t))
  }

  function EncodersStarted(calls: seq<Call>, t: int): nat {
    Count(calls, c => c == Start(t, true))
  }

  function EncodersStopped(calls: seq<Call>, t: int): nat {
    Count(calls, c => StopsEncoder(c, t))
  }

  predicate IsOpen(p: Phase, t: int) {
    !p.Free? && !p.Violated? && p.start == t
  }

  predicate EncoderRuns(p: Phase, t: int) {
    p == Running(t) || p == Broken(t)
  }

  lemma {:induction false} CountsBalance(calls: seq<Call>, t: int)
    requires PhaseAfter(calls) != Violated
    ensures var p := PhaseAfter(calls);
            && Begins(calls, t) == Ends(calls, t) + (if IsOpen(p, t) then 1 else 0)
            && EncodersStarted(calls, t) == EncodersStopped(calls, t) + (if EncoderRuns(p, t) then 1 else 0)
            && EncodersStarted(calls, t) + (if p == Begun(t) then 1 else 0) <= Begins(calls, t)
  {
    if calls != [] {
      CountsBalance(calls[..|calls| - 1], t);
    }
  }

  lemma {:induction false} CountOfPrefix(calls: seq<Call>, p: Call -> bool, n: nat)
    requires n <= |calls|
    ensures Count(calls[..n], p) <= Count(calls, p)
    decreases |calls|
  {
    if n < |calls| {
      assert calls[..|calls| - 1][..n] == calls[..n];
      CountOfPrefix(calls[..|calls| - 1], p, n);
    } else {
      assert calls[..n] == calls;
    }
  }

  lemma PhaseOfPrefix(calls: seq<Call>, j: nat)
    requires j < |calls|
    ensures PhaseAfter(calls[..j + 1]) == Next(PhaseAfter(calls[..j]), calls[j])
  {
    assert calls[..j + 1] == calls[..j] + [calls[j]];
    PhaseOfOneMore(calls[..j], calls[j]);
  }

  lemma StopIsCounted(calls: seq<Call>, t: int, i: nat, j: nat)
    requires i < j < |calls| && StopsEncoder(calls[i], t)
    ensures EncodersStopped(calls[..j], t) >= 1
  {
    var s := calls[..i + 1];
    assert s == calls[..j][..i + 1] && s[|s| - 1] == calls[i];
    CountOfPrefix(calls[..j], c => StopsEncoder(c, t), i + 1);
  }

  lemma StoppedNowhereRuns(calls: seq<Call>, t: int, j: nat)
    requires j <= |calls| && PhaseAfter(calls) != Violated && Begins(calls, t) <= 1
    requires EncodersStopped(calls[..j], t) >= 1
    ensures !EncoderRuns(PhaseAfter(calls[..j]), t)
  {
    ViolationsStay(calls, j);
    CountsBalance(calls[..j], t);
    CountOfPrefix(calls, c => c == Begin(t), j);
  }

  lemma OnlyRunningStops(p: Phase, c: Call, t: int)
    requires Next(p, c) != Violated && !EncoderRuns(p, t)
    ensures !(c.Write? && c.start == t) && !StopsEncoder(c, t)
  {
  }

  // An encoder of a segment that is begun once is not written to after it was stopped,
  // nor asked to stop a second time.
  lemma StoppedMeansStopped(calls: seq<Call>, t: int, i: nat, j: nat)
    requires PhaseAfter(calls) != Violated && Begins(calls, t) <= 1
    requires i < j < |calls| && StopsEncoder(calls[i], t)
    ensures !(calls[j].Write? && calls[j].start == t) && !StopsEncoder(calls[j], t)
  {
    StopIsCounted(calls, t, i, j);
    StoppedNowhereRuns(calls, t, j);
    ViolationsStay(calls, j + 1);
    PhaseOfPrefix(calls, j);
    OnlyRunningStops(PhaseAfter(calls[..j]), calls[j], t);
  }
}
