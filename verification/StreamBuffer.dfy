/** What a non-blocking socket may answer. A write that is offered `n` bytes
    takes `Min(w, n)` of them; a read takes a prefix of what has arrived. */
module Sockets {
  import opened Bytes

  datatype IoWrite = Took(w: nat) | WriteBlocks | WriteFails

  datatype IoRead = Arrived(data: seq<byte>) | ReadBlocks | ReadFails

  datatype IoResult = Ok(count: nat) | WouldBlock | Error
}

/** The circular byte buffer of stream_buffer.rs. `Queue` is its abstract value:
    the bytes not yet consumed and the position of the first of them. */
module StreamBuffers {
  import opened Bytes
  import opened Sockets

  /** `x % n` for an index that passed the end at most once. */
  function Around(x: nat, n: nat): nat
    requires x < 2 * n
  {
    if x < n then x else x - n
  }

  lemma AroundIsMod(x: nat, n: nat)
    requires 0 < n && x < 2 * n
    ensures x % n == Around(x, n)
  {
    if x >= n {
      assert x == n + (x - n);
      ModOfSum(x - n, n);
    }
  }

  lemma ModOfSum(r: nat, n: nat)
    requires r < n
    ensures (n + r) % n == r
  {
    var q := (n + r) / n;
    if q < 1 {
      TimesMonotone(q, 0, n);
    } else if q > 1 {
      TimesMonotone(2, q, n);
    }
  }

  lemma TimesMonotone(a: int, b: int, n: nat)
    requires a <= b
    ensures a * n <= b * n
  {
  }

  /** The bytes between tail and head of a ring held in `s`. */
  function Between(s: seq<byte>, tail: nat, head: nat): seq<byte>
    requires tail < |s| && head < |s|
  {
    if tail <= head then s[tail..head] else s[tail..] + s[..head]
  }

  /** The two copies of `read_from`: up to the right end, then from the left end. */
  function Overwrite(s: seq<byte>, head: nat, source: seq<byte>): seq<byte>
    requires head < |s| && |source| <= |s|
  {
    if |source| <= |s| - head then Splice(s, head, source)
    else Splice(Splice(s, head, source[..|s| - head]), 0, source[|s| - head..])
  }

  lemma OverwriteAt(s: seq<byte>, head: nat, source: seq<byte>, k: nat)
    requires head < |s| && |source| <= |s| && k < |s|
    ensures |Overwrite(s, head, source)| == |s|
    ensures Overwrite(s, head, source)[k] ==
            if head <= k < head + |source| then source[k - head]
            else if k + |s| < head + |source| then source[k + |s| - head]
            else s[k]
  {
    var room := |s| - head;
    if |source| <= room {
      var r := Splice(s, head, source);
      if head <= k < head + |source| {
        assert r[k] == r[head..head + |source|][k - head];
      }
    } else {
      var left, right := source[..room], source[room..];
      var mid := Splice(s, head, left);
      var r := Splice(mid, 0, right);
      if k < |right| {
        assert r[k] == r[0..|right|][k];
      } else if head <= k {
        assert mid[k] == mid[head..head + room][k - head];
      }
    }
  }

  lemma BetweenAt(s: seq<byte>, tail: nat, head: nat, i: nat)
    requires tail < |s| && head < |s|
    ensures |Between(s, tail, head)| == if tail <= head then head - tail else |s| + head - tail
    ensures i < |Between(s, tail, head)| ==> Between(s, tail, head)[i] == s[Around(tail + i, |s|)]
  {
  }

  /** The ring is a queue: overwriting `source` from head, across the end if need be,
      appends it, and when there is no room leaves only its end. */
  lemma RingWrite(s: seq<byte>, tail: nat, head: nat, source: seq<byte>)
    requires tail < |s| && head < |s| && |source| <= |s|
    ensures |Overwrite(s, head, source)| == |s|
    ensures Between(Overwrite(s, head, source), tail, Around(head + |source|, |s|))
         == Queue(Between(s, tail, head), tail, |s| - 1).Append(source).contents
  {
    hide Between;
    hide Overwrite;
    BetweenAt(s, tail, head, 0);
    OverwriteAt(s, head, source, 0);
    var expected := Queue(Between(s, tail, head), tail, |s| - 1).Append(source).contents;
    var r := Overwrite(s, head, source);
    BetweenAt(r, tail, Around(head + |source|, |s|), 0);
    forall i: nat | i < |expected|
      ensures Between(r, tail, Around(head + |source|, |s|))[i] == expected[i]
    {
      RingWriteAt(s, tail, head, source, i);
    }
  }

  lemma RingWriteAt(s: seq<byte>, tail: nat, head: nat, source: seq<byte>, i: nat)
    requires tail < |s| && head < |s| && |source| <= |s|
    requires |Overwrite(s, head, source)| == |s| && |Between(s, tail, head)| < |s|
    requires i < |Queue(Between(s, tail, head), tail, |s| - 1).Append(source).contents|
    ensures i < |Between(Overwrite(s, head, source), tail, Around(head + |source|, |s|))|
    ensures Between(Overwrite(s, head, source), tail, Around(head + |source|, |s|))[i]
         == Queue(Between(s, tail, head), tail, |s| - 1).Append(source).contents[i]
  {
    hide Between;
    hide Overwrite;
    var r := Overwrite(s, head, source);
    BetweenAt(s, tail, head, i);
    BetweenAt(r, tail, Around(head + |source|, |s|), i);
    OverwriteAt(s, head, source, Around(tail + i, |s|));
  }

  /** Moving tail over a contiguous piece removes that piece from the front. */
  lemma RingRead(s: seq<byte>, tail: nat, head: nat, w: nat)
    requires tail < |s| && head < |s| && tail != head
    requires w <= if tail < head then head - tail else |s| - tail
    ensures s[tail..tail + w] == Between(s, tail, head)[..w]
    ensures Between(s, Around(tail + w, |s|), head) == Between(s, tail, head)[w..]
  {
    var all := Between(s, tail, head);
    if tail > head {
      assert all[..w] == s[tail..][..w];
      if tail + w == |s| {
        assert all[w..] == s[..head];
      } else {
        assert all[w..] == s[tail + w..] + s[..head];
      }
    }
  }

  /** One write: how much is offered, and where the ring stands afterwards. */
  lemma RingTake(s: seq<byte>, tail: nat, head: nat, n: nat)
    requires tail < |s| && head < |s| && tail != head
    requires n <= if tail < head then head - tail else |s| - tail
    ensures
      var q := Queue(Between(s, tail, head), tail, |s| - 1);
      var next := Around(tail + n, |s|);
      && q.Ok() && q.Offered() == (if tail < head then head - tail else |s| - tail)
      && s[tail..tail + n] == q.contents[..n]
      && q.Consume(n) == Queue(Between(s, next, head), if next == head then 0 else next, |s| - 1)
  {
    BetweenAt(s, tail, head, 0);
    BetweenAt(s, Around(tail + n, |s|), head, 0);
    RingRead(s, tail, head, n);
    hide Between;
  }

  datatype Queue = Queue(contents: seq<byte>, tail: nat, capacity: nat) {

    predicate Ok() {
      |contents| <= capacity && tail <= capacity
    }

    function Remaining(): int {
      capacity - |contents|
    }

    /** A write only ever sees the bytes up to the right end of the ring. */
    function Offered(): (n: nat)
      requires Ok()
      ensures n <= |contents|
      ensures n == 0 <==> contents == []
      ensures tail == 0 ==> n == |contents|
    {
      Min(|contents|, capacity + 1 - tail)
    }

    /** `read_from`: an append when there is room. Without room (the source only
        asserts that in debug builds) head runs over tail, and what is left between
        them is the end of the source. */
    function Append(source: seq<byte>): (q: Queue)
      requires Ok() && |source| <= capacity + 1
      ensures q.Ok() && q.capacity == capacity && q.tail == tail
      ensures |source| <= Remaining() ==> q.contents == contents + source
    {
      if |source| <= Remaining() then this.(contents := contents + source)
      else this.(contents := source[capacity + 1 - |contents|..])
    }

    /** Consuming the first `w` bytes, including the reset of `optimize`. */
    function Consume(w: nat): (q: Queue)
      requires Ok() && w <= Offered()
      ensures q.Ok() && q.capacity == capacity
      ensures contents == contents[..w] + q.contents
    {
      var rest := contents[w..];
      Queue(rest, if rest == [] then 0 else Around(tail + w, capacity + 1), capacity)
    }

    /** The bytes a write hands over. */
    function Sent(io: IoWrite): (s: seq<byte>)
      requires Ok()
      ensures s <= contents
    {
      if contents == [] || !io.Took? then [] else contents[..Min(io.w, Offered())]
    }

    function WriteTo(io: IoWrite): (q: Queue)
      requires Ok()
      ensures q.Ok() && q.capacity == capacity
      ensures contents == Sent(io) + q.contents
    {
      if contents == [] || !io.Took? then this else Consume(Min(io.w, Offered()))
    }

    function WriteResult(io: IoWrite): IoResult
      requires Ok()
    {
      if contents == [] then IoResult.Ok(0)
      else match io
        case Took(_) => IoResult.Ok(|Sent(io)|)
        case WriteBlocks => WouldBlock
        case WriteFails => Error
    }
  }

  // ── what a write takes ──

  /** A write takes exactly as many bytes as the destination takes of the contiguous ones, from
      the front; one that blocks or fails takes none. */
  lemma WriteIsExact(q: Queue, io: IoWrite)
    requires q.Ok()
    ensures
      var n := if io.Took? then Min(io.w, q.Offered()) else 0;
      && q.Sent(io) == q.contents[..n] && q.WriteTo(io).contents == q.contents[n..]
      && (n > 0 && n < |q.contents| ==> q.WriteTo(io).tail == Around(q.tail + n, q.capacity + 1))
  {
  }

  /** Two writes to a destination that takes everything empty the buffer, wherever it wraps;
      one does if and only if the contents do not wrap. */
  lemma TwoWritesEmpty(q: Queue, w: nat)
    requires q.Ok() && w >= |q.contents|
    ensures q.WriteTo(Took(w)).WriteTo(Took(w)).contents == []
    ensures q.WriteTo(Took(w)).contents == [] <==> q.tail + |q.contents| <= q.capacity + 1
  {
    var once := q.WriteTo(Took(w));
    if once.contents != [] {
      assert once.tail == 0;
    }
  }

  // ── whole runs ──

  datatype Use = Fill(source: seq<byte>) | Drain(io: IoWrite)

  /** A fill only when there is room, as all callers of the source do it but the flush of a
      packet whose header is shorter than its bytes. */
  function UseOne(q: Queue, use: Use): (r: Queue)
    requires q.Ok()
    ensures r.Ok() && r.capacity == q.capacity
  {
    match use
    case Fill(source) => if |source| <= q.Remaining() then q.Append(source) else q
    case Drain(io) => q.WriteTo(io)
  }

  function Play(q: Queue, uses: seq<Use>): (r: Queue)
    requires q.Ok()
    ensures r.Ok() && r.capacity == q.capacity
    decreases |uses|
  {
    if uses == [] then q else Play(UseOne(q, uses[0]), uses[1..])
  }

  function FilledAll(q: Queue, uses: seq<Use>): seq<byte>
    requires q.Ok()
    decreases |uses|
  {
    if uses == [] then [] else
    (if uses[0].Fill? && |uses[0].source| <= q.Remaining() then uses[0].source else [])
    + FilledAll(UseOne(q, uses[0]), uses[1..])
  }

  function SentAll(q: Queue, uses: seq<Use>): seq<byte>
    requires q.Ok()
    decreases |uses|
  {
    if uses == [] then [] else
    (if uses[0].Drain? then q.Sent(uses[0].io) else []) + SentAll(UseOne(q, uses[0]), uses[1..])
  }

  /** First in, first out over any run, for any capacity, wherever the ring wraps and
      however little each write takes. */
  lemma {:induction false} QueueIsFifo(q: Queue, uses: seq<Use>)
    requires q.Ok()
    ensures q.contents + FilledAll(q, uses) == SentAll(q, uses) + Play(q, uses).contents
    decreases |uses|
  {
    hide Queue.Append;
    hide Queue.WriteTo;
    hide Queue.Sent;
    if uses == [] {
      assert q.contents + [] == [] + q.contents;
    } else {
      var next := UseOne(q, uses[0]);
      QueueIsFifo(next, uses[1..]);
      var filled := if uses[0].Fill? && |uses[0].source| <= q.Remaining() then uses[0].source else [];
      var drained := if uses[0].Drain? then q.Sent(uses[0].io) else [];
      assert q.contents + filled == drained + next.contents;
      JoinFlows(q.contents, filled, drained, next.contents,
                FilledAll(next, uses[1..]), SentAll(next, uses[1..]), Play(next, uses[1..]).contents);
    }
  }

  class StreamBuffer {
    const buf: array<byte>
    var head: nat
    var tail: nat
    ghost var queue: Queue

    ghost predicate Valid()
      reads this, buf
    {
      && buf.Length > 0 && head < buf.Length && tail < buf.Length
      && queue == Queue(Between(buf[..], tail, head), tail, buf.Length - 1)
    }

    constructor (capacity: nat)
      ensures Valid() && fresh(buf) && queue == Queue([], 0, capacity)
    {
      buf := new byte[capacity + 1](_ => 0);
      head, tail := 0, 0;
      queue := Queue([], 0, capacity);
    }

    predicate IsEmpty()
      reads this, buf
      requires Valid()
      ensures IsEmpty() <==> queue.contents == []
    {
      head == tail
    }

    function Size(): (n: nat)
      reads this, buf
      requires Valid()
      ensures n == |queue.contents|
    {
      if head < tail then head + buf.Length - tail else head - tail
    }

    function Remaining(): (n: nat)
      reads this, buf
      requires Valid()
      ensures n == queue.Remaining()
    {
      buf.Length - 1 - Size()
    }

    /** Hands the destination the bytes `sent`; a failed or blocked write changes nothing. */
    method WriteTo(io: IoWrite) returns (result: IoResult, sent: seq<byte>)
      requires Valid()
      modifies this
      ensures Valid()
      ensures queue == old(queue).WriteTo(io)
      ensures sent == old(queue).Sent(io) && result == old(queue).WriteResult(io)
    {
      hide Between;
      if IsEmpty() {
        return IoResult.Ok(0), [];
      }
      match io {
        case WriteBlocks => return WouldBlock, [];
        case WriteFails => return Error, [];
        case Took(w) =>
          sent := Take(w);
          return IoResult.Ok(|sent|), sent;
      }
    }

    /** The destination takes at most `w` of the contiguous bytes from tail on. */
    method Take(w: nat) returns (sent: seq<byte>)
      requires Valid() && head != tail
      modifies this
      ensures Valid()
      ensures sent == old(queue).contents[..Min(w, old(queue).Offered())]
      ensures queue == old(queue).Consume(Min(w, old(queue).Offered()))
    {
      hide Between;
      var n := Min(w, if head > tail then head - tail else buf.Length - tail);
      RingTake(buf[..], tail, head, n);
      AroundIsMod(tail + n, buf.Length);
      hide Queue.Consume;
      queue := queue.Consume(n);
      sent := buf[tail..tail + n];
      tail := (tail + n) % buf.Length;
      Optimize();
    }

    method ReadFrom(source: seq<byte>)
      requires Valid() && |source| <= queue.capacity + 1
      modifies this, buf
      ensures Valid() && queue == old(queue).Append(source)
    {
      hide Between;
      hide Overwrite;
      BetweenAt(buf[..], tail, head, 0);
      ghost var appended := queue.Append(source);
      hide Queue.Append;
      RingWrite(buf[..], tail, head, source);
      var next := (head + |source|) % buf.Length;
      AroundIsMod(head + |source|, buf.Length);
      hide Around;
      CopyAround(source);
      head := next;
      queue := appended;
    }

    /** Fill until the right end of the buffer, then from its left end. */
    method CopyAround(source: seq<byte>)
      requires head < buf.Length && |source| <= buf.Length
      modifies buf
      ensures buf[..] == Overwrite(old(buf[..]), head, source)
    {
      if |source| <= buf.Length - head {
        CopyInto(buf, head, source);
      } else {
        CopyInto(buf, head, source[..buf.Length - head]);
        CopyInto(buf, 0, source[buf.Length - head..]);
      }
    }

    /** Called once head and tail may have met; the abstract tail is already reset then. */
    method Optimize()
      requires buf.Length > 0 && head < buf.Length && tail < buf.Length
      requires queue == Queue(Between(buf[..], tail, head), if head == tail then 0 else tail, buf.Length - 1)
      modifies `head, `tail
      ensures Valid()
    {
      if head == tail {
        head, tail := 0, 0;
      }
    }
  }
}
