/** Shapes used throughout: results, bytes, and lists cut into pieces. */
module Common {
  datatype Option<+T> = None | Some(value: T)
  datatype Result<+T, +E> = Ok(value: T) | Err(error: E)

  newtype byte = x: int | 0 <= x < 256
  type Bytes = seq<byte>

  /** The pieces put back together. */
  function Flatten<T>(pieces: seq<seq<T>>): seq<T> {
    if pieces == [] then [] else pieces[0] + Flatten(pieces[1..])
  }

  lemma {:induction false} FlattenAppend<T>(pieces: seq<seq<T>>, last: seq<T>)
    ensures Flatten(pieces + [last]) == Flatten(pieces) + last
  {
    if pieces == [] {
      assert [] + [last] == [last] && [last][1..] == [];
      assert Flatten([last]) == last + [];
    } else {
      assert (pieces + [last])[1..] == pieces[1..] + [last];
      FlattenAppend(pieces[1..], last);
      assert pieces[0] + (Flatten(pieces[1..]) + last) == (pieces[0] + Flatten(pieces[1..])) + last;
    }
  }
}
