/** Byte strings laid end to end. */
module Chunks {
  import opened Bytes

  function Flatten(parts: seq<seq<byte>>): seq<byte> {
    if parts == [] then [] else parts[0] + Flatten(parts[1..])
  }

  lemma FlattenUnfolds(parts: seq<seq<byte>>)
    ensures Flatten(parts) == if parts == [] then [] else parts[0] + Flatten(parts[1..])
  {
  }

  lemma {:induction false} FlattenConcat(a: seq<seq<byte>>, b: seq<seq<byte>>)
    ensures Flatten(a + b) == Flatten(a) + Flatten(b)
  {
    if a == [] {
      assert a + b == b;
    } else {
      assert (a + b)[1..] == a[1..] + b;
      FlattenConcat(a[1..], b);
    }
  }
}
