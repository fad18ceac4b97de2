/** Small shared vocabulary. */
module Prelude {

  /** A value that may be missing: Go's nil error, a missing map entry, JavaScript's undefined. */
  datatype Option<+T> = None | Some(value: T)

  newtype byte = x: int | 0 <= x < 256

  function Min(a: int, b: int): int {
    if a <= b then a else b
  }

  function Max(a: int, b: int): int {
    if a >= b then a else b
  }

  function Flatten(parts: seq<seq<byte>>): seq<byte> {
    if parts == [] then [] else parts[0] + Flatten(parts[1..])
  }

  lemma FlattenNothing()
    ensures Flatten([]) == []
    ensures forall s: seq<byte> :: [] + s == s
  {
  }

  lemma {:induction false} FlattenAppend(parts: seq<seq<byte>>, last: seq<byte>)
    ensures Flatten(parts + [last]) == Flatten(parts) + last
  {
    if parts == [] {
      assert parts + [last] == [last] && [last][1..] == [];
    } else {
      assert (parts + [last])[1..] == parts[1..] + [last];
      FlattenAppend(parts[1..], last);
    }
  }

  lemma {:induction false} FlattenPrefix(parts: seq<seq<byte>>, k: nat)
    requires k <= |parts|
    ensures |Flatten(parts[..k])| <= |Flatten(parts)|
  {
    if k > 0 {
      assert parts[..k][1..] == parts[1..][..k - 1];
      FlattenPrefix(parts[1..], k - 1);
    }
  }
}
