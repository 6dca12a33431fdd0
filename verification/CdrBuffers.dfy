/**
 The two buffers a CDR writer can append to: a byte vector, and a list of
 finished slices with a pending tail and a running length. The writer sees them
 through the same three operations.
 */
module CdrBuffers {
  import opened CdrWire

  function Contiguous(slices: seq<Bytes>): Bytes {
    if slices == [] then [] else slices[0] + Contiguous(slices[1..])
  }

  lemma {:induction false} ContiguousAppend(slices: seq<Bytes>, s: Bytes)
    ensures Contiguous(slices + [s]) == Contiguous(slices) + s
  {
    if slices == [] {
      assert [s][1..] == [];
    } else {
      assert (slices + [s])[1..] == slices[1..] + [s];
      ContiguousAppend(slices[1..], s);
    }
  }

  datatype Target =
    | Vec(bytes: Bytes)
    | Slices(zbuf: seq<Bytes>, current: Bytes, totalLen: nat)
  {
    function Contents(): Bytes {
      match this
      case Vec(bytes) => bytes
      case Slices(zbuf, current, _) => Contiguous(zbuf) + current
    }

    // len: the slice list answers from its counter.
    function Len(): nat {
      match this
      case Vec(bytes) => |bytes|
      case Slices(_, _, totalLen) => totalLen
    }

    predicate CountsRight() {
      Len() == |Contents()|
    }

    // extend_from_slice
    function Extend(data: Bytes): (r: Target)
      requires CountsRight()
      ensures r.CountsRight() && r.Contents() == Contents() + data
    {
      match this
      case Vec(bytes) => Vec(bytes + data)
      case Slices(zbuf, current, totalLen) =>
        Associative(Contiguous(zbuf), current, data);
        Slices(zbuf, current + data, totalLen + |data|)
    }

    // push
    function Push(byte: Byte): (r: Target)
      requires CountsRight()
      ensures r.CountsRight() && r.Contents() == Contents() + [byte]
    {
      match this
      case Vec(bytes) => Vec(bytes + [byte])
      case Slices(zbuf, current, totalLen) =>
        Associative(Contiguous(zbuf), current, [byte]);
        Slices(zbuf, current + [byte], totalLen + 1)
    }
  }

  type Buffer = b: Target | b.CountsRight() witness Vec([])

  const EMPTY_SLICES: Buffer := Slices([], [], 0)
}
