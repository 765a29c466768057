/** Octets and the small helpers shared by every component. */
module Bytes {

  /** An unsigned 8-bit value. */
  type byte = x: int | 0 <= x < 256

  datatype Option<+T> = None | Some(value: T)

  function Min(a: int, b: int): int { if a < b then a else b }

  /** The bytes of all chunks, in order. */
  function Flatten(chunks: seq<seq<byte>>): seq<byte> {
    if chunks == [] then [] else Flatten(chunks[..|chunks| - 1]) + chunks[|chunks| - 1]
  }

  lemma {:induction false} FlattenCons(first: seq<byte>, more: seq<seq<byte>>)
    ensures Flatten([first] + more) == first + Flatten(more)
  {
    var all := [first] + more;
    if more == [] {
      assert all == [first] && all[..0] == [];
    } else {
      var front, last := more[..|more| - 1], more[|more| - 1];
      assert all[..|all| - 1] == [first] + front && all[|all| - 1] == last;
      FlattenCons(first, front);
      assert (first + Flatten(front)) + last == first + (Flatten(front) + last);
    }
  }
}
