/** Dmitry Vyukov's bounded multi-producer/multi-consumer ring buffer
    (`LockFreeQueue`), each call taken as one atomic step.

    The buffer is a power-of-two array of slots. Each slot carries a sequence
    number that says whose turn it is: a producer may fill the slot of cursor
    `pos` when its sequence is `pos`, and a consumer may empty it when its
    sequence is `pos + 1`. `Valid` states this handshake for every position of
    the current lap, and `Contents` reads the pending values off it as a FIFO
    sequence. */
module BoundedQueue {
  import opened Words
  import opened Outcomes

  /** `Node<T>`: a sequence number and an optional payload. */
  datatype Slot<T> = Slot(sequence: nat, value: Option<T>)

  /** `LockFreeQueue<T>` without its cache-line padding. The cursors only grow;
      `pos & mask` picks the slot of cursor `pos`. */
  datatype Queue<T> = Queue(buffer: seq<Slot<T>>, mask: nat, enqueuePos: nat, dequeuePos: nat)
  {
    function Capacity(): nat { |buffer| }
  }

  /** Largest request `with_capacity` accepts before `next_power_of_two`
      would overflow a 64-bit `usize`. */
  const MAX_REQUEST: nat := 0x8000_0000_0000_0000

  /** The slot that cursor position `pos` addresses. */
  function SlotAt<T>(q: Queue<T>, pos: nat): Slot<T>
    requires |q.buffer| > 0
  {
    q.buffer[pos % |q.buffer|]
  }

  /** The state every queue is in between two calls. Positions of the current
      lap before `enqueuePos` hold a published value (sequence `p + 1`), the
      rest of the lap is free for the producer of that position (sequence `p`). */
  ghost predicate Valid<T>(q: Queue<T>)
  {
    && |q.buffer| >= 2 && IsPowerOfTwo(|q.buffer|)
    && q.mask == |q.buffer| - 1
    && q.dequeuePos <= q.enqueuePos <= q.dequeuePos + |q.buffer|
    && (forall p: nat :: q.dequeuePos <= p < q.enqueuePos ==>
          SlotAt(q, p).sequence == p + 1 && SlotAt(q, p).value.Some?)
    && (forall p: nat :: q.enqueuePos <= p < q.dequeuePos + |q.buffer| ==>
          SlotAt(q, p) == Slot(p, None))
  }

  /** The values waiting in the queue, oldest first. */
  ghost function Contents<T>(q: Queue<T>): (s: seq<T>)
    requires Valid(q)
    ensures |s| == q.enqueuePos - q.dequeuePos
  {
    seq(q.enqueuePos - q.dequeuePos,
        k requires 0 <= k < q.enqueuePos - q.dequeuePos => SlotAt(q, q.dequeuePos + k).value.value)
  }

  /** The capacity `with_capacity` settles on: the request when it is a power
      of two of at least 2 (the source's test `c & (c - 1) != 0`), otherwise 2
      or the next power of two. */
  function EffectiveCapacity(requested: nat): (c: nat)
    ensures 2 <= c && requested <= c && IsPowerOfTwo(c)
  {
    if requested < 2 || BitAnd(requested, requested - 1) != 0 then
      if requested < 2 then 2 else NextPowerOfTwo(requested)
    else
      PowerOfTwoTest(requested);
      requested
  }

  /** The effective capacity is the least power of two at least max(2, request). */
  lemma EffectiveCapacityIsLeast(requested: nat, p: nat)
    requires IsPowerOfTwo(p) && 2 <= p && requested <= p
    ensures EffectiveCapacity(requested) <= p
  {
    if 2 <= requested && BitAnd(requested, requested - 1) != 0 {
      NextPowerOfTwoIsLeast(requested, p);
    }
  }

  /** `LockFreeQueue::with_capacity`. */
  function WithCapacity<T>(requested: nat): (q: Queue<T>)
    requires requested <= MAX_REQUEST
    ensures Valid(q) && Contents(q) == []
    ensures q.Capacity() == EffectiveCapacity(requested)
    ensures forall i :: 0 <= i < |q.buffer| ==> q.buffer[i] == Slot(i, None)
    ensures q.enqueuePos == 0 && q.dequeuePos == 0
  {
    var capacity := EffectiveCapacity(requested);
    var q := Queue(seq(capacity, (i: nat) => Slot(i, None)), capacity - 1, 0, 0);
    assert forall p: nat :: 0 <= p < capacity ==> SlotAt(q, p) == Slot(p, None) by {
      forall p: nat | 0 <= p < capacity {
        ModSmall(p, capacity);
      }
    }
    q
  }

  /** `pos & mask` is a valid slot index and is the slot `SlotAt` addresses. */
  lemma SlotIndex<T>(q: Queue<T>, pos: nat)
    requires Valid(q)
    ensures BitAnd(pos, q.mask) == pos % |q.buffer|
    ensures BitAnd(pos, q.mask) < |q.buffer|
  {
    MaskIsModulo(pos, |q.buffer|);
  }

  /** Sequentially the "another thread raced ahead, reload the cursor" branches
      of push and pop are dead: the slot a cursor addresses never carries a
      sequence beyond what that cursor expects. */
  lemma NoRaceAhead<T>(q: Queue<T>)
    requires Valid(q)
    ensures SlotAt(q, q.enqueuePos).sequence <= q.enqueuePos
    ensures SlotAt(q, q.dequeuePos).sequence <= q.dequeuePos + 1
  {
    var n := |q.buffer|;
    if q.enqueuePos == q.dequeuePos + n {
      ModShift(q.dequeuePos, n);
      assert SlotAt(q, q.enqueuePos) == SlotAt(q, q.dequeuePos);
    }
  }

  /** The producer's slot has fallen a lap behind exactly when the queue holds
      `Capacity()` values. */
  lemma FullTest<T>(q: Queue<T>)
    requires Valid(q)
    ensures SlotAt(q, q.enqueuePos).sequence < q.enqueuePos <==> |Contents(q)| == q.Capacity()
    ensures |Contents(q)| < q.Capacity() ==> SlotAt(q, q.enqueuePos) == Slot(q.enqueuePos, None)
  {
    var n := |q.buffer|;
    if q.enqueuePos == q.dequeuePos + n {
      ModShift(q.dequeuePos, n);
      assert SlotAt(q, q.enqueuePos) == SlotAt(q, q.dequeuePos);
    }
  }

  /** The consumer's slot has not been published exactly when the queue is empty. */
  lemma EmptyTest<T>(q: Queue<T>)
    requires Valid(q)
    ensures SlotAt(q, q.dequeuePos).sequence < q.dequeuePos + 1 <==> Contents(q) == []
  {
  }

  /** `LockFreeQueue::push`: on a full queue the value comes back in `Err`
      and nothing changes; otherwise it joins the back of the queue. */
  function Push<T>(q: Queue<T>, v: T): (r: (Queue<T>, Result<(), T>))
    requires Valid(q)
    ensures Valid(r.0)
    ensures r.1.Err? <==> |Contents(q)| == q.Capacity()
    ensures r.1.Err? ==> r.1.error == v && r.0 == q
    ensures r.1.Ok? ==> Contents(r.0) == Contents(q) + [v]
    ensures r.0.Capacity() == q.Capacity()
  {
    var pos := q.enqueuePos;
    SlotIndex(q, pos);
    FullTest(q);
    var i := BitAnd(pos, q.mask);
    var sequence := q.buffer[i].sequence;
    if sequence < pos then
      (q, Err(v))
    else
      var q' := q.(buffer := q.buffer[i := Slot(pos + 1, Some(v))], enqueuePos := pos + 1);
      PushStep(q, q', v);
      (q', Ok(()))
  }

  lemma PushStep<T>(q: Queue<T>, q': Queue<T>, v: T)
    requires Valid(q) && q.enqueuePos < q.dequeuePos + |q.buffer|
    requires q' == q.(buffer := q.buffer[q.enqueuePos % |q.buffer| := Slot(q.enqueuePos + 1, Some(v))],
                      enqueuePos := q.enqueuePos + 1)
    ensures Valid(q') && Contents(q') == Contents(q) + [v]
  {
    var n, e := |q.buffer|, q.enqueuePos;
    forall p: nat | q.dequeuePos <= p < q'.dequeuePos + n && p != e
      ensures SlotAt(q', p) == SlotAt(q, p)
    {
      if p < e { ModDistinct(p, e, n); } else { ModDistinct(e, p, n); }
    }
    assert Valid(q');
    assert Contents(q') == Contents(q) + [v];
  }

  /** `LockFreeQueue::pop`: `None` on an empty queue, with nothing changed;
      otherwise the oldest value, which leaves the queue. */
  function Pop<T>(q: Queue<T>): (r: (Queue<T>, Option<T>))
    requires Valid(q)
    ensures Valid(r.0)
    ensures r.1.None? <==> Contents(q) == []
    ensures r.1.None? ==> r.0 == q
    ensures r.1.Some? ==> r.1.value == Contents(q)[0] && Contents(r.0) == Contents(q)[1..]
    ensures r.0.Capacity() == q.Capacity() && r.0.enqueuePos == q.enqueuePos
  {
    var pos := q.dequeuePos;
    SlotIndex(q, pos);
    EmptyTest(q);
    var i := BitAnd(pos, q.mask);
    var sequence := q.buffer[i].sequence;
    if sequence < pos + 1 then
      (q, None)
    else
      var q' := q.(buffer := q.buffer[i := Slot(pos + q.mask + 1, None)], dequeuePos := pos + 1);
      PopStep(q, q');
      (q', q.buffer[i].value)
  }

  lemma PopStep<T>(q: Queue<T>, q': Queue<T>)
    requires Valid(q) && q.dequeuePos < q.enqueuePos
    requires q' == q.(buffer := q.buffer[q.dequeuePos % |q.buffer| := Slot(q.dequeuePos + |q.buffer|, None)],
                      dequeuePos := q.dequeuePos + 1)
    ensures Valid(q') && Contents(q') == Contents(q)[1..]
    ensures SlotAt(q, q.dequeuePos).value == Some(Contents(q)[0])
  {
    var n, d := |q.buffer|, q.dequeuePos;
    forall p: nat | d < p < d + n
      ensures SlotAt(q', p) == SlotAt(q, p)
    {
      ModDistinct(d, p, n);
    }
    ModShift(d, n);
    assert SlotAt(q', d + n) == Slot(d + n, None);
    assert Valid(q');
    assert Contents(q') == Contents(q)[1..];
  }

  /** Push touches the addressed slot and the enqueue cursor and nothing else. */
  lemma PushFrame<T>(q: Queue<T>, v: T)
    requires Valid(q) && |Contents(q)| < q.Capacity()
    ensures var q' := Push(q, v).0;
      && q'.buffer[q.enqueuePos % |q.buffer|] == Slot(q.enqueuePos + 1, Some(v))
      && (forall j :: 0 <= j < |q.buffer| && j != q.enqueuePos % |q.buffer| ==> q'.buffer[j] == q.buffer[j])
      && q'.enqueuePos == q.enqueuePos + 1
      && q'.dequeuePos == q.dequeuePos && q'.mask == q.mask
  {
    SlotIndex(q, q.enqueuePos);
  }

  /** Pop empties the addressed slot, re-arms it for the producer of the next
      lap (sequence `pos + mask + 1`) and advances the dequeue cursor. */
  lemma PopFrame<T>(q: Queue<T>)
    requires Valid(q) && Contents(q) != []
    ensures var q' := Pop(q).0;
      && q'.buffer[q.dequeuePos % |q.buffer|] == Slot(q.dequeuePos + q.mask + 1, None)
      && (forall j :: 0 <= j < |q.buffer| && j != q.dequeuePos % |q.buffer| ==> q'.buffer[j] == q.buffer[j])
      && q'.dequeuePos == q.dequeuePos + 1
      && q'.enqueuePos == q.enqueuePos && q'.mask == q.mask
  {
    SlotIndex(q, q.dequeuePos);
  }

  /** The pop loop used to empty the queue (`loop { match queue.pop() ... }`):
      returns the drained queue and how many values were discarded. */
  function Drain<T>(q: Queue<T>): (r: (Queue<T>, nat))
    requires Valid(q)
    ensures Valid(r.0) && Contents(r.0) == []
    ensures r.1 == |Contents(q)|
    ensures r.0.Capacity() == q.Capacity() && r.0.enqueuePos == q.enqueuePos
    decreases q.enqueuePos - q.dequeuePos
  {
    var (q', v) := Pop(q);
    if v.None? then (q, 0)
    else
      var (drained, k) := Drain(q');
      (drained, k + 1)
  }

  /** Pushes every value of `xs` in order, counting the pushes that succeed.
      Into a queue with room for all of them (in particular `Capacity()`
      values into an empty queue) every push succeeds. */
  method PushEach<T>(q: Queue<T>, xs: seq<T>) returns (q': Queue<T>, accepted: nat)
    requires Valid(q)
    ensures Valid(q') && q'.Capacity() == q.Capacity()
    ensures accepted == Min(|xs|, q.Capacity() - |Contents(q)|)
    ensures Contents(q') == Contents(q) + xs[..accepted]
  {
    q', accepted := q, 0;
    var i := 0;
    while i < |xs|
      invariant 0 <= i <= |xs|
      invariant Valid(q') && q'.Capacity() == q.Capacity()
      invariant accepted == Min(i, q.Capacity() - |Contents(q)|)
      invariant Contents(q') == Contents(q) + xs[..accepted]
    {
      var (next, result) := Push(q', xs[i]);
      if result.Ok? {
        assert xs[..accepted + 1] == xs[..accepted] + [xs[i]];
        accepted := accepted + 1;
      }
      q' := next;
      i := i + 1;
    }
  }

  /** The capacity-2 scenario: two pushes succeed, the third hands its value
      back, and the two values come out in order, then `None`. */
  lemma CapacityTwoScenario()
    ensures var q0 := WithCapacity<int>(2);
      var (q1, r1) := Push(q0, 1);
      var (q2, r2) := Push(q1, 2);
      var (q3, r3) := Push(q2, 3);
      var (q4, o4) := Pop(q3);
      var (q5, o5) := Pop(q4);
      var (_, o6) := Pop(q5);
      && r1.Ok? && r2.Ok? && r3 == Err(3)
      && o4 == Some(1) && o5 == Some(2) && o6 == None
  {
    assert BitAnd(2, 1) == 0;
    var q0 := WithCapacity<int>(2);
    assert q0.Capacity() == 2;
    var (q1, r1) := Push(q0, 1);
    var (q2, r2) := Push(q1, 2);
    assert Contents(q2) == [1, 2];
    var (q3, r3) := Push(q2, 3);
    var (q4, o4) := Pop(q3);
    assert Contents(q4) == [2];
  }
}
