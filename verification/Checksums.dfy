/** The Internet checksum (RFC 1071). `Checksum` is the plain definition over a
    byte string; `High` and `Low` are the two byte sums of the optimised code. */
module Checksums {
  import opened Bytes

  /** Sum of the big-endian 16-bit words; an odd last byte is a high-order byte. */
  function WordSum(s: seq<byte>): nat {
    if |s| == 0 then 0
    else if |s| == 1 then s[0] * 0x100
    else U16At(s, 0) + WordSum(s[2..])
  }

  function High(s: seq<byte>): nat {
    if |s| == 0 then 0
    else if |s| == 1 then s[0]
    else s[0] + High(s[2..])
  }

  function Low(s: seq<byte>): nat {
    if |s| <= 1 then 0 else s[1] + Low(s[2..])
  }

  /** Add the carries back in until 16 bits are left. */
  function Fold(sum: nat): (r: u16)
    ensures r % 0xFFFF == sum % 0xFFFF
    ensures r == 0 <==> sum == 0
  {
    if sum < 0x1_0000 then sum else Fold(sum % 0x1_0000 + sum / 0x1_0000)
  }

  function Checksum(s: seq<byte>): u16 {
    0xFFFF - Fold(WordSum(s))
  }

  /** What a receiver checks: the sum over everything, stored checksum included,
      is all ones. */
  predicate Verifies(s: seq<byte>) {
    Fold(WordSum(s)) == 0xFFFF
  }

  lemma {:induction false} WordSumIsSplit(s: seq<byte>)
    ensures WordSum(s) == High(s) * 0x100 + Low(s)
  {
    if |s| >= 2 {
      WordSumIsSplit(s[2..]);
    }
  }

  lemma {:induction false} SumsBounded(s: seq<byte>)
    ensures High(s) <= 0xFF * ((|s| + 1) / 2)
    ensures Low(s) <= 0xFF * (|s| / 2)
  {
    if |s| >= 2 {
      SumsBounded(s[2..]);
    }
  }

  lemma {:induction false} WordSumConcat(a: seq<byte>, b: seq<byte>)
    requires |a| % 2 == 0
    ensures WordSum(a + b) == WordSum(a) + WordSum(b)
  {
    if a == [] {
      assert a + b == b;
    } else {
      assert (a + b)[2..] == a[2..] + b;
      WordSumConcat(a[2..], b);
    }
  }

  lemma WordSumStep(s: seq<byte>, k: nat)
    requires k % 2 == 0 && k + 2 <= |s|
    ensures WordSum(s[..k + 2]) == WordSum(s[..k]) + U16At(s, k)
  {
    var word := s[k..k + 2];
    assert s[..k + 2] == s[..k] + word;
    WordSumConcat(s[..k], word);
    assert WordSum(word) == U16At(word, 0) + WordSum(word[2..]);
  }

  lemma {:induction false} SplitConcat(a: seq<byte>, b: seq<byte>)
    requires |a| % 2 == 0
    ensures High(a + b) == High(a) + High(b)
    ensures Low(a + b) == Low(a) + Low(b)
  {
    if a == [] {
      assert a + b == b;
    } else {
      assert (a + b)[2..] == a[2..] + b;
      SplitConcat(a[2..], b);
    }
  }

  lemma SplitStep(s: seq<byte>, k: nat)
    requires k % 2 == 0 && k + 2 <= |s|
    ensures High(s[..k + 2]) == High(s[..k]) + s[k]
    ensures Low(s[..k + 2]) == Low(s[..k]) + s[k + 1]
  {
    var word := s[k..k + 2];
    assert s[..k + 2] == s[..k] + word;
    SplitConcat(s[..k], word);
    assert word[2..] == [];
  }

  lemma SplitLast(s: seq<byte>)
    requires |s| % 2 == 1
    ensures High(s) == High(s[..|s| - 1]) + s[|s| - 1]
    ensures Low(s) == Low(s[..|s| - 1])
  {
    hide High;
    hide Low;
    assert s == s[..|s| - 1] + [s[|s| - 1]];
    SplitConcat(s[..|s| - 1], [s[|s| - 1]]);
    SplitOne(s[|s| - 1]);
  }

  lemma SplitOne(b: byte)
    ensures High([b]) == b && Low([b]) == 0
  {
  }

  /** Storing a value in a zeroed, word-aligned field adds it to the sum. */
  lemma {:induction false} WordSumPut(s: seq<byte>, i: nat, v: u16)
    requires i % 2 == 0 && i + 2 <= |s|
    ensures WordSum(PutU16(s, i, v)) == WordSum(PutU16(s, i, 0)) + v
  {
    var a, z := PutU16(s, i, v), PutU16(s, i, 0);
    if i == 0 {
      assert a[2..] == z[2..];
    } else {
      assert a[2..] == PutU16(s[2..], i - 2, v);
      assert z[2..] == PutU16(s[2..], i - 2, 0);
      WordSumPut(s[2..], i - 2, v);
    }
  }

  /** Receiver check: a checksum computed over the zeroed field and then stored
      in it makes the whole string verify. */
  lemma StoredChecksumVerifies(s: seq<byte>, i: nat)
    requires i % 2 == 0 && i + 2 <= |s|
    ensures Verifies(PutU16(s, i, Checksum(PutU16(s, i, 0))))
  {
    hide Fold;
    var zeroed := PutU16(s, i, 0);
    WordSumPut(s, i, Checksum(zeroed));
    ComplementFolds(WordSum(zeroed));
  }

  lemma ComplementFolds(sum: nat)
    ensures Fold(sum + (0xFFFF - Fold(sum))) == 0xFFFF
  {
    hide Fold;
    var total := sum + (0xFFFF - Fold(sum));
    assert (sum - Fold(sum)) % 0xFFFF == 0;
    assert total % 0xFFFF == 0;
    assert total != 0;
  }

  /** Store in the field at `at` the checksum of `prefix` followed by the bytes
      `lo..hi`, that field taken as zero. */
  function WithChecksum(s: seq<byte>, prefix: seq<byte>, lo: nat, hi: nat, at: nat): (r: seq<byte>)
    requires lo <= at && at + 2 <= hi <= |s|
    ensures |r| == |s|
    ensures forall k :: 0 <= k < |s| && k != at && k != at + 1 ==> r[k] == s[k]
  {
    PutU16(s, at, Checksum(prefix + PutU16(s, at, 0)[lo..hi]))
  }

  lemma WithChecksumVerifies(s: seq<byte>, prefix: seq<byte>, lo: nat, hi: nat, at: nat)
    requires lo <= at && at + 2 <= hi <= |s|
    requires |prefix| % 2 == 0 && (at - lo) % 2 == 0
    ensures Verifies(prefix + WithChecksum(s, prefix, lo, hi, at)[lo..hi])
  {
    var covered := prefix + s[lo..hi];
    var i := |prefix| + (at - lo);
    var c := Checksum(prefix + PutU16(s, at, 0)[lo..hi]);
    assert prefix + PutU16(s, at, 0)[lo..hi] == PutU16(covered, i, 0);
    assert prefix + PutU16(s, at, c)[lo..hi] == PutU16(covered, i, c);
    StoredChecksumVerifies(covered, i);
  }

  /** The fold loop of every checksum routine. */
  method FoldCarries(start: u32) returns (sum: u16)
    ensures sum == Fold(start)
  {
    var s: u32 := start;
    while s >= 0x1_0000
      invariant Fold(s) == Fold(start)
      decreases s
    {
      s := s % 0x1_0000 + s / 0x1_0000;
    }
    sum := s;
  }
}
