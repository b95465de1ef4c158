// A network connection as io.Reader sees it, and io.ReadFull on it.
module Conn {
  import opened Wrappers
  import opened Bytes

  datatype ReadError = Eof | UnexpectedEof

  // What io.ReadFull of n bytes returns on a stream that holds s.
  function ReadFullResult(s: seq<byte>, n: nat): Result<seq<byte>, ReadError> {
    if n <= |s| then Ok(s[..n]) else Err(if s == [] then Eof else UnexpectedEof)
  }

  function Flatten(chunks: seq<seq<byte>>): seq<byte> {
    if chunks == [] then [] else chunks[0] + Flatten(chunks[1..])
  }

  class Connection {
    // The pieces in which the bytes arrive, in any sizes, empty ones included.
    var chunks: seq<seq<byte>>

    ghost function Remaining(): seq<byte>
      reads this
    {
      Flatten(chunks)
    }

    constructor (chunks: seq<seq<byte>>)
      ensures Remaining() == Flatten(chunks)
    {
      this.chunks := chunks;
    }

    // One Read: at most max bytes, possibly fewer, possibly none.
    method Read(max: nat) returns (data: seq<byte>, eof: bool)
      modifies this
      ensures old(Remaining()) == data + Remaining() && |data| <= max
      ensures eof ==> data == [] && Remaining() == []
      ensures !eof && max > 0 ==> |Remaining()| + |chunks| < old(|Remaining()| + |chunks|)
    {
      if chunks == [] {
        return [], true;
      }
      var first := chunks[0];
      if |first| <= max {
        chunks := chunks[1..];
        return first, false;
      }
      ghost var rest := Flatten(chunks[1..]);
      chunks := [first[max..]] + chunks[1..];
      assert chunks[1..] == old(chunks)[1..];
      assert first == first[..max] + first[max..];
      return first[..max], false;
    }

    method ReadFull(n: nat) returns (r: Result<seq<byte>, ReadError>)
      modifies this
      ensures r == ReadFullResult(old(Remaining()), n)
      ensures Remaining() == if r.Ok? then old(Remaining())[n..] else []
    {
      var buf := [];
      while |buf| < n
        invariant |buf| <= n
        invariant old(Remaining()) == buf + Remaining()
        decreases |Remaining()| + |chunks|
      {
        var data, eof := Read(n - |buf|);
        if eof {
          return Err(if buf == [] then Eof else UnexpectedEof);
        }
        buf := buf + data;
      }
      return Ok(buf);
    }
  }
}
