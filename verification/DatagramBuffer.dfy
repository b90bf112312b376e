/** The circular buffer of datagrams of datagram_buffer.rs: blocks of a 2-byte length and
    the bytes, the last of which may hang over the end of the ring. */
module DatagramBuffers {
  import opened Bytes
  import opened Sockets

  const HEADER_LENGTH: nat := 2
  const MAX_DATAGRAM_LENGTH: nat := 0x1_0000
  const MAX_BLOCK_LENGTH: nat := HEADER_LENGTH + MAX_DATAGRAM_LENGTH

  /** The buffer as a value: all its bytes, head and tail, and the length of the ring. */
  datatype Ring = Ring(buf: seq<byte>, head: nat, tail: nat, length: nat) {

    predicate Shaped() {
      && length >= 1 && head < length && tail < length
      && |buf| == length - 1 + MAX_BLOCK_LENGTH
    }

    predicate HasEnoughSpaceFor(n: nat) {
      head >= tail || HEADER_LENGTH + n <= tail - head - 1
    }

    /** `read_from` behind its guard; the guard is not needed for this to be in bounds.
        The length is stored in 16 bits. */
    function Store(d: seq<byte>): (r: Ring)
      requires Shaped() && |d| <= MAX_DATAGRAM_LENGTH
      ensures r.Shaped() && r.tail == tail && r.length == length
    {
      var end := head + HEADER_LENGTH + |d|;
      this.(buf := Splice(PutU16(buf, head, |d| % 0x1_0000), head + HEADER_LENGTH, d),
            head := if end >= length then 0 else end)
    }

    /** The length that `write_to` reads at tail. */
    function NextLength(): u16
      requires Shaped()
    {
      U16At(buf, tail)
    }

    function Front(): seq<byte>
      requires Shaped()
    {
      buf[tail + HEADER_LENGTH..tail + HEADER_LENGTH + NextLength()]
    }

    function Advance(): (r: Ring)
      requires Shaped()
      ensures r.Shaped()
    {
      var end := tail + HEADER_LENGTH + NextLength();
      this.(tail := if end >= length then 0 else end)
    }
  }

  // ── the abstract value: datagrams up to the wrap, and after it ──

  function Block(d: seq<byte>): seq<byte> {
    [|d| % 0x1_0000 / 0x100, |d| % 0x100] + d
  }

  function Encode(ds: seq<seq<byte>>): seq<byte> {
    if ds == [] then [] else Block(ds[0]) + Encode(ds[1..])
  }

  ghost predicate Short(ds: seq<seq<byte>>) {
    forall i :: 0 <= i < |ds| ==> |ds[i]| <= 0xFFFF
  }

  /** `upper` lies from tail on without a break, `lower` from 0 on. The last block of
      `upper` is the first to reach the end of the ring: where head wrapped, tail will. */
  ghost predicate Layout(r: Ring, upper: seq<seq<byte>>, lower: seq<seq<byte>>) {
    && r.Shaped() && Short(upper) && Short(lower)
    && if r.head >= r.tail then
         lower == [] && r.buf[r.tail..r.head] == Encode(upper)
       else
         && upper != []
         && var end := r.tail + |Encode(upper)|;
         && r.length <= end <= |r.buf| && r.tail + |Encode(upper[..|upper| - 1])| < r.length
         && r.buf[r.tail..end] == Encode(upper)
         && r.buf[..r.head] == Encode(lower)
  }

  /** The ring holds exactly these datagrams. */
  ghost predicate Holds(r: Ring, ds: seq<seq<byte>>) {
    exists upper, lower :: Layout(r, upper, lower) && ds == upper + lower
  }

  lemma {:induction false} EncodeConcat(a: seq<seq<byte>>, b: seq<seq<byte>>)
    ensures Encode(a + b) == Encode(a) + Encode(b)
  {
    if a == [] {
      assert a + b == b;
    } else {
      assert (a + b)[1..] == a[1..] + b;
      EncodeConcat(a[1..], b);
    }
  }

  lemma EncodeOne(d: seq<byte>)
    ensures Encode([d]) == Block(d)
  {
    assert [d][1..] == [];
    assert Block(d) + [] == Block(d);
  }

  lemma EncodeFirst(ds: seq<seq<byte>>)
    requires ds != []
    ensures |Encode(ds)| >= HEADER_LENGTH + |ds[0]|
  {
  }

  /** The bytes of a stored block, and nothing else, are written. */
  lemma StoreWrites(r: Ring, d: seq<byte>)
    requires r.Shaped() && |d| <= MAX_DATAGRAM_LENGTH
    ensures var s := r.Store(d); var end := r.head + HEADER_LENGTH + |d|;
      && end <= |r.buf| == |s.buf|
      && s.buf[r.head..end] == Block(d)
      && s.buf[..r.head] == r.buf[..r.head]
      && s.buf[end..] == r.buf[end..]
  {
    hide PutU16;
    hide Splice;
    var length := |d| % 0x1_0000;
    var b := PutU16(r.buf, r.head, length);
    assert |d| % 0x1_0000 % 0x100 == |d| % 0x100;
    HeaderBytes(r.buf, r.head, length);
    BlockIsSpliced(b, r.head, d);
  }

  lemma BlockIsSpliced(b: seq<byte>, i: nat, d: seq<byte>)
    requires i + HEADER_LENGTH + |d| <= |b|
    ensures var s := Splice(b, i + HEADER_LENGTH, d); var end := i + HEADER_LENGTH + |d|;
      && |s| == |b| && s[i..end] == [b[i], b[i + 1]] + d && s[..i] == b[..i] && s[end..] == b[end..]
  {
    var s := Splice(b, i + HEADER_LENGTH, d);
    assert s == b[..i] + ([b[i], b[i + 1]] + d) + b[i + HEADER_LENGTH + |d|..];
  }

  lemma HeaderBytes(s: seq<byte>, i: nat, v: u16)
    requires i + HEADER_LENGTH <= |s|
    ensures PutU16(s, i, v)[i] == v / 0x100 && PutU16(s, i, v)[i + 1] == v % 0x100
  {
  }

  lemma StoreUnwrapped(r: Ring, ds: seq<seq<byte>>, d: seq<byte>)
    requires Layout(r, ds, []) && r.head >= r.tail && |d| <= 0xFFFF
    requires !(r.tail == 0 && r.head + HEADER_LENGTH + |d| >= r.length)
    ensures Layout(r.Store(d), ds + [d], [])
  {
    hide Ring.Store;
    hide Block;
    hide Encode;
    var s := r.Store(d);
    var end := r.head + HEADER_LENGTH + |d|;
    StoreHead(r, d);
    StoreWrites(r, d);
    EncodeConcat(ds, [d]);
    EncodeOne(d);
    assert s.buf[r.tail..r.head] == s.buf[..r.head][r.tail..] == r.buf[..r.head][r.tail..] == r.buf[r.tail..r.head];
    assert s.buf[r.tail..end] == s.buf[r.tail..r.head] + s.buf[r.head..end];
    assert (ds + [d])[..|ds|] == ds;
    EncodeNothing();
  }

  lemma EncodeNothing()
    ensures Encode([]) == []
  {
  }

  lemma StoreHead(r: Ring, d: seq<byte>)
    requires r.Shaped() && |d| <= MAX_DATAGRAM_LENGTH
    ensures var s := r.Store(d); var end := r.head + HEADER_LENGTH + |d|;
      s.Shaped() && s.tail == r.tail && s.length == r.length && s.head == (if end >= r.length then 0 else end)
  {
  }

  lemma StoreWrapped(r: Ring, upper: seq<seq<byte>>, lower: seq<seq<byte>>, d: seq<byte>)
    requires Layout(r, upper, lower) && r.head < r.tail && |d| <= 0xFFFF && r.HasEnoughSpaceFor(|d|)
    ensures Layout(r.Store(d), upper, lower + [d])
  {
    hide Ring.Store;
    hide Block;
    hide Encode;
    var s := r.Store(d);
    var end := r.head + HEADER_LENGTH + |d|;
    StoreHead(r, d);
    StoreWrites(r, d);
    EncodeConcat(lower, [d]);
    EncodeOne(d);
    var top := r.tail + |Encode(upper)|;
    SliceOfSlice(s.buf, end, |s.buf|, r.tail - end, top - end);
    SliceOfSlice(r.buf, end, |r.buf|, r.tail - end, top - end);
    assert s.buf[end..|s.buf|] == s.buf[end..] && r.buf[end..|r.buf|] == r.buf[end..];
    assert s.buf[..end] == s.buf[..r.head] + s.buf[r.head..end];
  }

  /** Storing appends, and the condition under which it does is exact: the guard must
      hold (so it refuses nothing that could be stored), the length must fit in 16 bits,
      and the block must not reach the end of the ring while tail is 0, for then head lands
      on tail and the ring reads as empty. */
  lemma StoreAppendsIff(r: Ring, ds: seq<seq<byte>>, d: seq<byte>)
    requires Holds(r, ds) && |d| <= 0x1_0000
    ensures Holds(r.Store(d), ds + [d]) <==>
            r.HasEnoughSpaceFor(|d|) && |d| <= 0xFFFF && !(r.tail == 0 && r.head + HEADER_LENGTH + |d| >= r.length)
  {
    hide Layout;
    hide Ring.Store;
    hide Encode;
    var upper, lower :| Layout(r, upper, lower) && ds == upper + lower;
    LayoutShape(r, upper, lower);
    if r.HasEnoughSpaceFor(|d|) && |d| <= 0xFFFF && !(r.tail == 0 && r.head + HEADER_LENGTH + |d| >= r.length) {
      if r.head >= r.tail {
        StoreUnwrapped(r, upper, d);
        assert Layout(r.Store(d), upper + [d], []);
        assert ds + [d] == (upper + [d]) + [];
      } else {
        StoreWrapped(r, upper, lower, d);
        assert ds + [d] == upper + (lower + [d]);
      }
    } else if Holds(r.Store(d), ds + [d]) {
      var u, l :| Layout(r.Store(d), u, l) && ds + [d] == u + l;
      LayoutShape(r.Store(d), u, l);
      StoreHead(r, d);
      LastIsShort(u, l, ds, d);
      EmptyRing(r.Store(d), u, l);
      if r.head < r.tail {
        GuardIsNeeded(r, upper, lower, d, u, l);
      }
    }
  }

  /** What the guard refuses would have run over the first datagrams. */
  lemma GuardIsNeeded(r: Ring, upper: seq<seq<byte>>, lower: seq<seq<byte>>, d: seq<byte>,
                      u: seq<seq<byte>>, l: seq<seq<byte>>)
    requires Layout(r, upper, lower) && |d| <= MAX_DATAGRAM_LENGTH && r.head < r.tail
    requires Layout(r.Store(d), u, l) && u + l == (upper + lower) + [d]
    ensures r.HasEnoughSpaceFor(|d|)
  {
    hide Layout;
    hide Encode;
    hide Ring.Store;
    LayoutShape(r, upper, lower);
    StoreHead(r, d);
    LayoutLengths(r, upper, lower);
    LayoutLengths(r.Store(d), u, l);
    EncodeConcat(upper, lower);
    EncodeConcat(upper + lower, [d]);
    EncodeConcat(u, l);
    EncodeNothing();
    AllInUpper(u, l, upper + lower, d);
  }

  lemma AllInUpper(u: seq<seq<byte>>, l: seq<seq<byte>>, ds: seq<seq<byte>>, d: seq<byte>)
    requires u + l == ds + [d]
    ensures l == [] ==> u != [] && u[..|u| - 1] == ds
  {
    if l == [] {
      assert u + l == u;
    }
  }

  lemma LayoutLengths(r: Ring, upper: seq<seq<byte>>, lower: seq<seq<byte>>)
    requires Layout(r, upper, lower)
    ensures r.head >= r.tail ==> lower == [] && |Encode(upper)| == r.head - r.tail
    ensures r.head < r.tail ==>
              && upper != [] && |Encode(lower)| == r.head
              && r.tail + |Encode(upper[..|upper| - 1])| < r.length <= r.tail + |Encode(upper)|
    ensures Encode(lower) == [] ==> lower == []
  {
    if lower != [] {
      EncodeFirst(lower);
    }
  }

  /** Where head lands on tail, everything the ring held is lost, the new datagram too. */
  lemma LandingOnTailLosesAll(r: Ring, d: seq<byte>)
    requires r.Shaped() && |d| <= MAX_DATAGRAM_LENGTH && r.tail == 0 && r.head + HEADER_LENGTH + |d| >= r.length
    ensures r.HasEnoughSpaceFor(|d|) && Holds(r.Store(d), [])
  {
    hide Ring.Store;
    StoreHead(r, d);
    EmptyHolds(r.Store(d));
  }

  lemma LayoutShape(r: Ring, upper: seq<seq<byte>>, lower: seq<seq<byte>>)
    requires Layout(r, upper, lower)
    ensures r.Shaped() && Short(upper) && Short(lower)
    ensures r.head >= r.tail ==> lower == []
    ensures r.head >= r.tail ==> r.head - r.tail == |Encode(upper)|
    ensures r.head < r.tail ==> upper != []
  {
    hide Encode;
  }

  lemma LastIsShort(u: seq<seq<byte>>, l: seq<seq<byte>>, ds: seq<seq<byte>>, d: seq<byte>)
    requires Short(u) && Short(l) && ds + [d] == u + l
    ensures |d| <= 0xFFFF
  {
    assert d == (u + l)[|ds|];
  }

  /** Equal head and tail mean empty. */
  lemma EmptyRing(r: Ring, upper: seq<seq<byte>>, lower: seq<seq<byte>>)
    requires Layout(r, upper, lower)
    ensures r.head == r.tail <==> upper + lower == []
  {
    if upper != [] {
      EncodeFirst(upper);
    }
  }

  // ── taking the first datagram ──

  lemma FrontIs(r: Ring, upper: seq<seq<byte>>, end: nat)
    requires r.Shaped() && Short(upper) && upper != [] && r.tail <= end <= |r.buf|
    requires r.buf[r.tail..end] == Encode(upper)
    ensures r.NextLength() == |upper[0]| && r.Front() == upper[0]
    ensures r.tail + HEADER_LENGTH + |upper[0]| <= end
    ensures r.buf[r.tail + HEADER_LENGTH + |upper[0]|..end] == Encode(upper[1..])
  {
    hide Block;
    var d := upper[0];
    var s := r.buf[r.tail..end];
    BlockBytes(d, Encode(upper[1..]));
    assert s == Block(d) + Encode(upper[1..]);
    assert r.buf[r.tail] == s[0] && r.buf[r.tail + 1] == s[1];
    SliceOfSlice(r.buf, r.tail, end, HEADER_LENGTH, HEADER_LENGTH + |d|);
    SliceOfSlice(r.buf, r.tail, end, HEADER_LENGTH + |d|, end - r.tail);
  }

  lemma BlockBytes(d: seq<byte>, rest: seq<byte>)
    requires |d| <= 0xFFFF
    ensures var s := Block(d) + rest;
      && |s| >= HEADER_LENGTH + |d| && s[0] == |d| / 0x100 && s[1] == |d| % 0x100
      && s[HEADER_LENGTH..HEADER_LENGTH + |d|] == d && s[HEADER_LENGTH + |d|..] == rest
  {
  }

  lemma AdvanceUnwrapped(r: Ring, ds: seq<seq<byte>>)
    requires Layout(r, ds, []) && ds != [] && r.head >= r.tail
    ensures r.Front() == ds[0] && Layout(r.Advance(), ds[1..], [])
  {
    FrontIs(r, ds, r.head);
    hide Encode;
  }

  lemma AdvanceWrapped(r: Ring, upper: seq<seq<byte>>, lower: seq<seq<byte>>)
    requires Layout(r, upper, lower) && r.head < r.tail
    ensures r.Front() == upper[0]
    ensures if |upper| == 1 then Layout(r.Advance(), lower, []) else Layout(r.Advance(), upper[1..], lower)
  {
    hide Block;
    var end := r.tail + |Encode(upper)|;
    FrontIs(r, upper, end);
    var next := r.tail + HEADER_LENGTH + |upper[0]|;
    BlockLength(upper[0]);
    if |upper| == 1 {
      assert upper[1..] == [];
    } else {
      var init := upper[..|upper| - 1];
      assert init[0] == upper[0];
      assert upper[1..][..|upper| - 2] == init[1..];
      assert Encode(init) == Block(init[0]) + Encode(init[1..]);
      assert Encode(upper) == Block(upper[0]) + Encode(upper[1..]);
    }
  }

  lemma BlockLength(d: seq<byte>)
    ensures |Block(d)| == HEADER_LENGTH + |d|
  {
  }

  /** Reading returns the datagrams unchanged and in order, and tail wraps exactly where
      head wrapped. */
  lemma AdvanceTakesTheFirst(r: Ring, ds: seq<seq<byte>>)
    requires Holds(r, ds)
    ensures r.Shaped() && (r.head == r.tail <==> ds == [])
    ensures ds != [] ==> r.Front() == ds[0] && Holds(r.Advance(), ds[1..])
  {
    hide Layout;
    hide Ring.Advance;
    hide Ring.Front;
    var upper, lower :| Layout(r, upper, lower) && ds == upper + lower;
    LayoutShape(r, upper, lower);
    EmptyRing(r, upper, lower);
    if ds != [] {
      if r.head >= r.tail {
        AdvanceUnwrapped(r, upper);
        assert ds[1..] == upper[1..] + [];
      } else {
        AdvanceWrapped(r, upper, lower);
        if |upper| == 1 {
          assert Layout(r.Advance(), lower, []);
          assert ds[1..] == lower + [];
        } else {
          assert ds[1..] == upper[1..] + lower;
        }
      }
    }
  }

  lemma EmptyHolds(r: Ring)
    requires r.Shaped() && r.head == r.tail
    ensures Holds(r, [])
  {
    var none: seq<seq<byte>> := [];
    assert Layout(r, none, none);
    assert none + none == none;
  }

  // ── whole runs ──

  datatype Use = Put(datagram: seq<byte>) | Take

  /** What `ReadFrom` and `WriteTo` do to the ring, a full buffer refusing and an empty
      one not being asked. */
  function Play(r: Ring, uses: seq<Use>): (after: Ring)
    requires r.Shaped() && AllWithinLimit(uses)
    ensures after.Shaped()
    decreases |uses|
  {
    if uses == [] then r else Play(PlayOne(r, uses[0]), uses[1..])
  }

  function PlayOne(r: Ring, use: Use): (after: Ring)
    requires r.Shaped() && (use.Put? ==> |use.datagram| <= 0xFFFF)
    ensures after.Shaped()
  {
    match use
    case Put(d) => if r.HasEnoughSpaceFor(|d|) then r.Store(d) else r
    case Take => if r.head == r.tail then r else r.Advance()
  }

  /** The datagrams stored and taken by one use, and in order during a run. */
  function StoredBy(r: Ring, use: Use): seq<seq<byte>> {
    if use.Put? && r.HasEnoughSpaceFor(|use.datagram|) then [use.datagram] else []
  }

  function TakenBy(r: Ring, use: Use): seq<seq<byte>>
    requires r.Shaped()
  {
    if use.Take? && r.head != r.tail then [r.Front()] else []
  }

  function Stored(r: Ring, uses: seq<Use>): seq<seq<byte>>
    requires r.Shaped() && AllWithinLimit(uses)
    decreases |uses|
  {
    if uses == [] then [] else StoredBy(r, uses[0]) + Stored(PlayOne(r, uses[0]), uses[1..])
  }

  function Taken(r: Ring, uses: seq<Use>): seq<seq<byte>>
    requires r.Shaped() && AllWithinLimit(uses)
    decreases |uses|
  {
    if uses == [] then [] else TakenBy(r, uses[0]) + Taken(PlayOne(r, uses[0]), uses[1..])
  }

  predicate AllWithinLimit(uses: seq<Use>) {
    forall i :: 0 <= i < |uses| && uses[i].Put? ==> |uses[i].datagram| <= 0xFFFF
  }

  /** No block reaches the end of the ring while tail is 0. */
  predicate NeverLandsOnTail(r: Ring, uses: seq<Use>)
    requires r.Shaped() && AllWithinLimit(uses)
    decreases |uses|
  {
    uses != [] ==>
      && (uses[0].Put? && r.tail == 0 && r.HasEnoughSpaceFor(|uses[0].datagram|) ==>
            r.head + HEADER_LENGTH + |uses[0].datagram| < r.length)
      && NeverLandsOnTail(PlayOne(r, uses[0]), uses[1..])
  }

  /** First in, first out over any run: what was held and stored is what was taken and
      is still held. */
  lemma {:induction false} RingIsFifo(r: Ring, held: seq<seq<byte>>, uses: seq<Use>) returns (left: seq<seq<byte>>)
    requires Holds(r, held) && r.Shaped() && AllWithinLimit(uses) && NeverLandsOnTail(r, uses)
    ensures Holds(Play(r, uses), left)
    ensures held + Stored(r, uses) == Taken(r, uses) + left
    decreases |uses|
  {
    hide Holds;
    hide Ring.Store;
    hide Ring.Advance;
    hide Ring.Front;
    hide PlayOne;
    hide StoredBy;
    hide TakenBy;
    if uses == [] {
      return held;
    }
    var next := UseIsFifo(r, held, uses[0]);
    var after := PlayOne(r, uses[0]);
    left := RingIsFifo(after, next, uses[1..]);
    JoinFlows(held, StoredBy(r, uses[0]), TakenBy(r, uses[0]), next,
              Stored(after, uses[1..]), Taken(after, uses[1..]), left);
  }

  lemma UseIsFifo(r: Ring, held: seq<seq<byte>>, use: Use) returns (next: seq<seq<byte>>)
    requires Holds(r, held) && r.Shaped() && (use.Put? ==> |use.datagram| <= 0xFFFF)
    requires use.Put? && r.tail == 0 && r.HasEnoughSpaceFor(|use.datagram|) ==>
               r.head + HEADER_LENGTH + |use.datagram| < r.length
    ensures Holds(PlayOne(r, use), next)
    ensures held + StoredBy(r, use) == TakenBy(r, use) + next
  {
    hide Holds;
    hide Ring.Store;
    hide Ring.Advance;
    hide Ring.Front;
    AdvanceTakesTheFirst(r, held);
    next := held;
    match use {
      case Put(d) =>
        if r.HasEnoughSpaceFor(|d|) {
          StoreAppendsIff(r, held, d);
          next := held + [d];
        }
      case Take =>
        if held != [] {
          next := held[1..];
        }
    }
  }

  // ── the object ──

  class DatagramBuffer {
    const buf: array<byte>
    const circularBufferLength: nat
    var head: nat
    var tail: nat

    ghost function View(): Ring
      reads this, buf
    {
      Ring(buf[..], head, tail, circularBufferLength)
    }

    ghost predicate Valid()
      reads this, buf
    {
      View().Shaped()
    }

    constructor (capacity: nat)
      ensures Valid() && fresh(buf) && circularBufferLength == capacity + 1 && buf.Length == capacity + 0x1_0002
      ensures Holds(View(), [])
    {
      buf := new byte[capacity + MAX_BLOCK_LENGTH](_ => 0);
      circularBufferLength := capacity + 1;
      head, tail := 0, 0;
      new;
      EmptyHolds(View());
    }

    predicate IsEmpty()
      reads this
    {
      head == tail
    }

    function HasEnoughSpaceFor(n: nat): (fits: bool)
      reads this, buf
      requires Valid()
      ensures fits == View().HasEnoughSpaceFor(n)
    {
      if head >= tail then true
      else HEADER_LENGTH + n <= tail - head - 1
    }

    /** `read_from`: false stands for the error "Datagram buffer is full". */
    method ReadFrom(source: seq<byte>) returns (stored: bool)
      requires Valid() && |source| <= MAX_DATAGRAM_LENGTH
      modifies this, buf
      ensures Valid() && stored == old(View()).HasEnoughSpaceFor(|source|)
      ensures View() == if stored then old(View()).Store(source) else old(View())
    {
      hide PutU16;
      hide Splice;
      if !HasEnoughSpaceFor(|source|) {
        return false;
      }
      WriteU16(buf, head, |source| % 0x1_0000);
      head := head + HEADER_LENGTH;
      CopyInto(buf, head, source);
      head := head + |source|;
      if head >= circularBufferLength {
        head := 0;
      }
      return true;
    }

    /** `write_to`: the datagram is consumed before it is sent, so whatever the socket
        answers exactly one datagram is gone. */
    method WriteTo(io: IoWrite) returns (result: IoResult, datagram: seq<byte>)
      requires Valid() && !IsEmpty()
      modifies this
      ensures Valid() && View() == old(View()).Advance()
      ensures datagram == old(View()).Front()
      ensures result == match io
        case Took(w) => if Min(w, |datagram|) == |datagram| then IoResult.Ok(|datagram|) else Error
        case WriteBlocks => WouldBlock
        case WriteFails => Error
    {
      tail := tail + HEADER_LENGTH;
      var length := (buf[tail - 2] as int) * 0x100 + buf[tail - 1];
      datagram := buf[tail..tail + length];
      tail := tail + length;
      if tail >= circularBufferLength {
        tail := 0;
      }
      match io {
        case WriteBlocks => return WouldBlock, datagram;
        case WriteFails => return Error, datagram;
        case Took(w) =>
          var sent := Min(w, |datagram|);
          return if sent != length then Error else IoResult.Ok(sent), datagram;
      }
    }
  }
}
