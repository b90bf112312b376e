/** Fixed-width integers and the big-endian accesses of the byteorder crate.
    Machine words are ranges of `int`; wrap-around is written out with `Wrap32`. */
module Bytes {

  const TWO32: int := 0x1_0000_0000

  type byte = x: int | 0 <= x < 0x100
  type u16 = x: int | 0 <= x < 0x1_0000
  type u32 = x: int | 0 <= x < 0x1_0000_0000

  datatype Option<+T> = None | Some(value: T)

  /** Reduction of an unbounded number to 32 bits, as `Wrapping<u32>` does. */
  function Wrap32(x: int): u32 {
    x % TWO32
  }

  function Min(a: int, b: int): int {
    if a <= b then a else b
  }

  function U16At(s: seq<byte>, i: nat): u16
    requires i + 2 <= |s|
  {
    (s[i] as int) * 0x100 + s[i + 1]
  }

  function U32At(s: seq<byte>, i: nat): u32
    requires i + 4 <= |s|
  {
    (U16At(s, i) as int) * 0x1_0000 + U16At(s, i + 2)
  }

  function PutU16(s: seq<byte>, i: nat, v: u16): (r: seq<byte>)
    requires i + 2 <= |s|
    ensures |r| == |s|
    ensures U16At(r, i) == v
    ensures forall k :: 0 <= k < |s| && k != i && k != i + 1 ==> r[k] == s[k]
  {
    s[i := v / 0x100][i + 1 := v % 0x100]
  }

  lemma PutU16Twice(s: seq<byte>, i: nat, v: u16, w: u16)
    requires i + 2 <= |s|
    ensures PutU16(PutU16(s, i, v), i, w) == PutU16(s, i, w)
  {
  }

  function PutU32(s: seq<byte>, i: nat, v: u32): (r: seq<byte>)
    requires i + 4 <= |s|
    ensures |r| == |s|
    ensures U32At(r, i) == v
    ensures forall k :: 0 <= k < |s| && !(i <= k < i + 4) ==> r[k] == s[k]
  {
    PutU16(PutU16(s, i, v / 0x1_0000), i + 2, v % 0x1_0000)
  }

  /** Writing a source over a slice: `copy_from_slice`. */
  function Splice(s: seq<byte>, i: nat, source: seq<byte>): (r: seq<byte>)
    requires i + |source| <= |s|
    ensures |r| == |s|
    ensures r[i..i + |source|] == source
    ensures forall k :: 0 <= k < i ==> r[k] == s[k]
    ensures forall k :: i + |source| <= k < |s| ==> r[k] == s[k]
  {
    s[..i] + source + s[i + |source|..]
  }

  lemma SliceOfSlice(s: seq<byte>, a: nat, b: nat, i: nat, j: nat)
    requires a <= b <= |s| && i <= j <= b - a
    ensures s[a..b][i..j] == s[a + i..a + j]
  {
    var t := s[a..b];
    assert forall k :: 0 <= k < b - a ==> t[k] == s[a + k];
    assert |t[i..j]| == |s[a + i..a + j]|;
    forall k | 0 <= k < j - i
      ensures t[i..j][k] == s[a + i..a + j][k]
    {
      assert t[i..j][k] == t[i + k] == s[a + (i + k)];
    }
  }

  lemma ConcatAssociates<T>(a: seq<T>, b: seq<T>, c: seq<T>)
    ensures a + (b + c) == (a + b) + c
  {
  }

  /** Two legs of a queue's run: what was held and came in is what went out and is left. */
  lemma JoinFlows<T>(held: seq<T>, in1: seq<T>, out1: seq<T>, next: seq<T>, in2: seq<T>, out2: seq<T>, left: seq<T>)
    requires held + in1 == out1 + next && next + in2 == out2 + left
    ensures held + (in1 + in2) == (out1 + out2) + left
  {
    ConcatAssociates(held, in1, in2);
    ConcatAssociates(out1, next, in2);
    ConcatAssociates(out1, out2, left);
  }

  method WriteU16(a: array<byte>, i: nat, v: u16)
    requires i + 2 <= a.Length
    modifies a
    ensures a[..] == PutU16(old(a[..]), i, v)
  {
    a[i] := v / 0x100;
    a[i + 1] := v % 0x100;
  }

  method WriteU32(a: array<byte>, i: nat, v: u32)
    requires i + 4 <= a.Length
    modifies a
    ensures a[..] == PutU32(old(a[..]), i, v)
  {
    WriteU16(a, i, v / 0x1_0000);
    WriteU16(a, i + 2, v % 0x1_0000);
  }

  method CopyInto(a: array<byte>, i: nat, source: seq<byte>)
    requires i + |source| <= a.Length
    modifies a
    ensures a[..] == Splice(old(a[..]), i, source)
  {
    forall k | 0 <= k < |source| {
      a[i + k] := source[k];
    }
  }
}
