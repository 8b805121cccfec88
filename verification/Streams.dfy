/** The streams of octets that messages are read from and written to. */
module Streams {
  import opened Prelude
  import opened Octets

  class InStream {
    const data: seq<byte>
    var pos: nat

    predicate Valid()
      reads this
    {
      pos <= |data|
    }

    /** What was not read yet. */
    function Rest(): seq<byte>
      reads this
      requires Valid()
    {
      data[pos..]
    }

    constructor (octets: seq<byte>)
      ensures Valid() && Rest() == octets
    {
      data := octets;
      pos := 0;
    }

    /** Reads `n` octets, or nothing if there are fewer. */
    method Read(n: nat) returns (o: Option<seq<byte>>)
      requires Valid()
      modifies this
      ensures Valid()
      ensures o == Get(old(Rest()), 0, n)
      ensures Rest() == if o.Some? then old(Rest())[n..] else old(Rest())
      ensures pos == old(pos) + if o.Some? then n else 0
    {
      if pos + n <= |data| {
        o := Some(data[pos..pos + n]);
        assert data[pos..][0..0 + n] == data[pos..pos + n];
        pos := pos + n;
      } else {
        o := None;
      }
    }
  }

  class OutStream {
    var data: seq<byte>

    constructor ()
      ensures data == []
    {
      data := [];
    }

    method Write(o: seq<byte>)
      modifies this
      ensures data == old(data) + o
    {
      data := data + o;
    }
  }
}
