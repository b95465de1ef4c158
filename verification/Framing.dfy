// Streams of binary frames: what reading frame after frame from a byte stream returns,
// for any format that reads back what it writes.
module Framing {
  import opened Bytes

  // One frame read from the front of a stream, with the number of bytes it took.
  datatype Read<+F, +E> = Got(frame: F, size: nat) | Failed(error: E)

  // The frames read before the first error.
  datatype Stream<+F, +E> = Stream(frames: seq<F>, error: E)

  type Reader<!F, !E> = seq<byte> -> Read<F, E>

  ghost predicate WellSized<F, E>(read: Reader<F, E>) {
    forall s :: read(s).Got? ==> 0 < read(s).size <= |s|
  }

  function ReadAll<F, E>(read: Reader<F, E>, s: seq<byte>): Stream<F, E>
    requires WellSized(read)
    decreases |s|
  {
    match read(s)
    case Failed(e) => Stream([], e)
    case Got(f, n) =>
      var later := ReadAll(read, s[n..]);
      Stream([f] + later.frames, later.error)
  }

  function WriteAll<F>(write: F -> seq<byte>, frames: seq<F>): seq<byte> {
    if frames == [] then [] else write(frames[0]) + WriteAll(write, frames[1..])
  }

  // A valid frame is read back whatever follows it, and not at all when it is cut short.
  ghost predicate ReadsBack<F(!new), E>(read: Reader<F, E>, write: F -> seq<byte>, valid: F -> bool) {
    && (forall f, rest :: valid(f) ==> read(write(f) + rest) == Got(f, |write(f)|))
    && (forall f, n :: valid(f) && 0 <= n < |write(f)| ==> read(write(f)[..n]).Failed?)
  }

  // What one read contributes.
  lemma ReadAllStep<F, E>(read: Reader<F, E>, s: seq<byte>)
    requires WellSized(read)
    ensures read(s).Failed? ==> ReadAll(read, s) == Stream([], read(s).error)
    ensures read(s).Got? ==>
              var later := ReadAll(read, s[read(s).size..]);
              ReadAll(read, s) == Stream([read(s).frame] + later.frames, later.error)
  {
  }

  // One frame in front of a stream.
  lemma ReadOneMore<F, E>(read: Reader<F, E>, first: seq<byte>, rest: seq<byte>, f: F)
    requires WellSized(read) && read(first + rest) == Got(f, |first|)
    ensures ReadAll(read, first + rest) == Stream([f] + ReadAll(read, rest).frames, ReadAll(read, rest).error)
  {
    assert (first + rest)[|first|..] == rest;
  }

  // Reading a concatenation of written frames returns them and goes on behind them.
  lemma {:induction false} ReadAllOfWritten<F(!new), E>(
    read: Reader<F, E>, write: F -> seq<byte>, valid: F -> bool, frames: seq<F>, rest: seq<byte>)
    requires WellSized(read) && ReadsBack(read, write, valid)
    requires forall i :: 0 <= i < |frames| ==> valid(frames[i])
    ensures var later := ReadAll(read, rest);
            ReadAll(read, WriteAll(write, frames) + rest) == Stream(frames + later.frames, later.error)
  {
    hide ReadAll, WellSized;
    var later := ReadAll(read, rest).frames;
    if frames == [] {
      assert WriteAll(write, frames) + rest == rest;
      assert frames + later == later;
    } else {
      var first, others := write(frames[0]), WriteAll(write, frames[1..]);
      assert WriteAll(write, frames) == first + others;
      assert read(first + (others + rest)) == Got(frames[0], |first|);
      hide WriteAll, ReadsBack;
      ReadAllOfWritten(read, write, valid, frames[1..], rest);
      ReadOneMore(read, first, others + rest, frames[0]);
      assert WriteAll(write, frames) + rest == first + (others + rest);
      assert frames + later == [frames[0]] + (frames[1..] + later);
    }
  }

  // How many of the frames lie within the first n bytes.
  function WholeFrames<F>(write: F -> seq<byte>, frames: seq<F>, n: int): (k: nat)
    ensures k <= |frames|
  {
    if frames == [] || n < |write(frames[0])| then 0
    else 1 + WholeFrames(write, frames[1..], n - |write(frames[0])|)
  }

  // A stream cut anywhere yields the whole frames before the cut and then an error.
  lemma {:induction false} CutStreamKeepsWholeFrames<F(!new), E>(
    read: Reader<F, E>, write: F -> seq<byte>, valid: F -> bool, frames: seq<F>, n: nat)
    requires WellSized(read) && ReadsBack(read, write, valid) && read([]).Failed?
    requires forall i :: 0 <= i < |frames| ==> valid(frames[i])
    requires n <= |WriteAll(write, frames)|
    ensures ReadAll(read, WriteAll(write, frames)[..n]).frames == frames[..WholeFrames(write, frames, n)]
  {
    hide ReadAll;
    var s := WriteAll(write, frames);
    ReadAllStep(read, s[..n]);
    if frames == [] {
      assert s[..n] == [];
    } else {
      var first, others := write(frames[0]), WriteAll(write, frames[1..]);
      if n < |first| {
        assert s[..n] == first[..n];
      } else {
        assert s[..n] == first + others[..n - |first|];
        assert s[..n][|first|..] == others[..n - |first|];
        assert read(s[..n]) == Got(frames[0], |first|);
        CutStreamKeepsWholeFrames(read, write, valid, frames[1..], n - |first|);
        var k := WholeFrames(write, frames[1..], n - |first|);
        assert frames[..k + 1] == [frames[0]] + frames[1..][..k];
      }
    }
  }

  // The bytes of the frames read, and what is left when reading stops.
  function Leftover<F, E>(read: Reader<F, E>, s: seq<byte>): seq<byte>
    requires WellSized(read)
    decreases |s|
  {
    match read(s)
    case Failed(_) => s
    case Got(_, n) => Leftover(read, s[n..])
  }

  lemma FirstIsValid<F>(valid: F -> bool, f: F, later: seq<F>)
    requires valid(f) && forall i :: 0 <= i < |later| ==> valid(later[i])
    ensures forall i :: 0 <= i < |[f] + later| ==> valid(([f] + later)[i])
  {
  }

  lemma WriteOneMore<F>(write: F -> seq<byte>, f: F, frames: seq<F>)
    ensures WriteAll(write, [f] + frames) == write(f) + WriteAll(write, frames)
  {
    assert ([f] + frames)[1..] == frames;
  }

  // Every frame read can be written back to exactly the bytes it was read from.
  ghost predicate WritesBack<F(!new), E>(read: Reader<F, E>, write: F -> seq<byte>, valid: F -> bool) {
    forall s :: read(s).Got? ==>
      read(s).size <= |s| && valid(read(s).frame) && write(read(s).frame) == s[..read(s).size]
  }

  // The step of the following proof, on values.
  lemma FrontAndRest(s: seq<byte>, n: nat, written: seq<byte>, left: seq<byte>)
    requires n <= |s| && s[n..] == written + left
    ensures s == (s[..n] + written) + left
  {
    assert s == s[..n] + s[n..];
  }

  // For a format in which frames can be written back, the frames read and the leftover
  // make up the stream.
  lemma {:induction false} StreamIsFramesAndLeftover<F(!new), E>(
    read: Reader<F, E>, write: F -> seq<byte>, valid: F -> bool, s: seq<byte>)
    requires WellSized(read) && WritesBack(read, write, valid)
    ensures s == WriteAll(write, ReadAll(read, s).frames) + Leftover(read, s)
    ensures read(Leftover(read, s)).Failed?
    ensures forall i :: 0 <= i < |ReadAll(read, s).frames| ==> valid(ReadAll(read, s).frames[i])
    decreases |s|
  {
    match read(s) {
      case Failed(_) =>
      case Got(f, n) =>
        assert 0 < n <= |s| && valid(f) && write(f) == s[..n] && Leftover(read, s) == Leftover(read, s[n..]);
        ReadAllStep(read, s);
        hide *;
        var later := ReadAll(read, s[n..]).frames;
        StreamIsFramesAndLeftover(read, write, valid, s[n..]);
        WriteOneMore(write, f, later);
        FirstIsValid(valid, f, later);
        FrontAndRest(s, n, WriteAll(write, later), Leftover(read, s[n..]));
    }
  }
}
