/** `Canal<T>`, the channel state machine layered over the ring buffer. Each
    operation is one atomic step by one thread; blocking is a decision the
    step returns, not a wait.

    `cnt` counts items and encodes two special bands: a value a little below
    zero means the receiver has registered to sleep, and anything within
    `FUDGE` of `DISCONNECTED` (the least `isize`) means the channel is
    disconnected. The atomic adds on it wrap around like the machine's. */
module Channel {
  import opened Words
  import opened Outcomes
  import opened BoundedQueue

  const DISCONNECTED: Isize := ISIZE_MIN
  const FUDGE: Isize := 1024

  /** The shared packet. `steals` counts the receiver's pops not yet
      subtracted from `cnt`; `channels` and `ports` count live senders and
      receivers; `senderDrain` arbitrates which sender drains a disconnected
      channel. The condition variable is not part of the state. */
  datatype Canal<T> = Canal(
    queue: Queue<T>,
    cnt: Isize,
    steals: int,
    shouldBlock: bool,
    channels: Isize,
    ports: Isize,
    senderDrain: Isize)

  /** Failure modes for receiving. */
  datatype Failure = Empty | Disconnected

  /** What a blocking receive ends with: a result, or the decision to sleep
      until a sender clears `shouldBlock`. */
  datatype RecvStep<T> = Finished(result: Result<T, Failure>) | MustWait

  /** The live-count band in which a receiver registered to sleep. */
  predicate InWakeBand(n: int)
  {
    n <= -1 && n > -1 - FUDGE
  }

  /** The band reserved for the disconnected sentinel. */
  predicate InDisconnectedBand(n: int)
  {
    n < DISCONNECTED + FUDGE
  }

  /** `Canal::new`: one sender, one receiver, an empty queue, all counters at rest. */
  function New<T>(cap: nat): (c: Canal<T>)
    requires cap <= MAX_REQUEST
    ensures Valid(c.queue) && Contents(c.queue) == []
    ensures c.queue.Capacity() == EffectiveCapacity(cap)
    ensures c.cnt == 0 && c.steals == 0 && !c.shouldBlock
    ensures c.channels == 1 && c.ports == 1 && c.senderDrain == 0
  {
    Canal(WithCapacity(cap), 0, 0, false, 1, 1, 0)
  }

  /** `wake_port`: clear the sleep flag (the condvar notification is not modelled). */
  function WakePort<T>(c: Canal<T>): (r: Canal<T>)
    ensures !r.shouldBlock
    ensures r.(shouldBlock := c.shouldBlock) == c
  {
    c.(shouldBlock := false)
  }

  /** The counter step a sender takes after its push succeeded: `fetch_add(1)`
      on `cnt`, then act on the value it saw. A sleeping receiver is woken; a
      disconnected channel is put back to exactly `DISCONNECTED`, and the
      sender that finds `senderDrain` at 0 empties the queue and leaves the
      arbiter at 0 again. */
  function CountPushed<T>(c: Canal<T>): (r: Canal<T>)
    requires Valid(c.queue)
    ensures Valid(r.queue) && r.queue.Capacity() == c.queue.Capacity()
    ensures r.steals == c.steals && r.channels == c.channels && r.ports == c.ports
    ensures InWakeBand(c.cnt) ==>
      r == c.(cnt := c.cnt + 1, shouldBlock := false)
    ensures !InWakeBand(c.cnt) && !InDisconnectedBand(c.cnt) ==>
      r == c.(cnt := WrapIsize(c.cnt + 1))
    ensures InDisconnectedBand(c.cnt) ==>
      r.cnt == DISCONNECTED && r.shouldBlock == c.shouldBlock
    ensures InDisconnectedBand(c.cnt) && c.senderDrain == 0 ==>
      Contents(r.queue) == [] && r.senderDrain == 0
    ensures InDisconnectedBand(c.cnt) && c.senderDrain != 0 ==>
      r.queue == c.queue && r.senderDrain == WrapIsize(c.senderDrain + 1)
  {
    var n := c.cnt;
    var bumped := c.(cnt := WrapIsize(n + 1));
    if InWakeBand(n) then
      WakePort(bumped)
    else if InDisconnectedBand(n) then
      var restored := bumped.(cnt := DISCONNECTED);
      var arbiter := restored.senderDrain;
      var entered := restored.(senderDrain := WrapIsize(arbiter + 1));
      if arbiter == 0 then
        // the drain owner: one pass empties the queue, and its fetch_sub
        // sees 1, so it is the last drainer and leaves
        entered.(queue := Drain(entered.queue).0, senderDrain := WrapIsize(entered.senderDrain - 1))
      else
        entered
    else
      bumped
  }

  /** `Canal::send`. The value comes back unchanged, with nothing changed,
      when no receiver is left, when the channel is disconnected, or when the
      queue is full; otherwise it joins the back of the queue and `cnt` rises
      by one. */
  function Send<T>(c: Canal<T>, t: T): (r: (Canal<T>, Result<(), T>))
    requires Valid(c.queue)
    ensures Valid(r.0.queue) && r.0.queue.Capacity() == c.queue.Capacity()
    ensures r.1.Err? <==>
      c.ports == 0 || InDisconnectedBand(c.cnt) || |Contents(c.queue)| == c.queue.Capacity()
    ensures r.1.Err? ==> r.1.error == t && r.0 == c
    ensures r.1.Ok? ==>
      && Contents(r.0.queue) == Contents(c.queue) + [t]
      && r.0.cnt == WrapIsize(c.cnt + 1)
      && r.0.shouldBlock == (c.shouldBlock && !InWakeBand(c.cnt))
      && r.0.steals == c.steals && r.0.channels == c.channels && r.0.ports == c.ports
      && r.0.senderDrain == c.senderDrain
  {
    if c.ports == 0 then (c, Err(t))
    else if InDisconnectedBand(c.cnt) then (c, Err(t))
    else
      var (q, pushed) := Push(c.queue, t);
      if pushed.Err? then (c, Err(pushed.error))
      else (CountPushed(c.(queue := q)), Ok(()))
  }

  /** `bump`: `fetch_add(amt)` on `cnt`, except that a channel seen
      disconnected is put back to exactly `DISCONNECTED` (the plain add would
      have wrapped it away from the sentinel). Returns the value seen. */
  function Bump<T>(c: Canal<T>, amt: Isize): (r: (Canal<T>, Isize))
    ensures c.cnt == DISCONNECTED ==> r == (c, DISCONNECTED)
    ensures c.cnt != DISCONNECTED ==> r == (c.(cnt := WrapIsize(c.cnt + amt)), c.cnt)
  {
    var n := c.cnt;
    var added := c.(cnt := WrapIsize(n + amt));
    if n == DISCONNECTED then (added.(cnt := DISCONNECTED), DISCONNECTED) else (added, n)
  }

  /** The batch reconciliation `try_recv` runs once the steal credit exceeds
      `MAX_STEALS`: `swap(0)` on `cnt`, then give back what it saw minus the
      credit it can absorb. The credit never goes negative (the `assert!` there
      cannot fire) and `cnt - steals` is unchanged on a live channel. */
  function Reconcile<T>(c: Canal<T>): (r: Canal<T>)
    requires c.steals >= 0
    ensures r.steals >= 0
    ensures r.queue == c.queue && r.shouldBlock == c.shouldBlock
    ensures r.channels == c.channels && r.ports == c.ports && r.senderDrain == c.senderDrain
    ensures c.cnt == DISCONNECTED ==> r == c
    ensures c.cnt != DISCONNECTED ==> r.cnt - r.steals == c.cnt - c.steals
    ensures c.cnt != DISCONNECTED && c.cnt >= c.steals ==> r.steals == 0
    ensures c.cnt != DISCONNECTED && c.cnt < c.steals ==> r.cnt == 0 && r.steals == c.steals - c.cnt
  {
    var n := c.cnt;
    var zeroed := c.(cnt := 0);
    if n == DISCONNECTED then
      zeroed.(cnt := DISCONNECTED)
    else
      var m := Min(n, c.steals);
      Bump(zeroed.(steals := c.steals - m), n - m).0
  }

  /** `Canal::try_recv`. A value, if the queue has one, and one more unit of
      steal credit; otherwise `Empty`, unless `cnt` is exactly `DISCONNECTED`,
      in which case a last pop is tried before reporting `Disconnected`. */
  function TryRecv<T>(c: Canal<T>, maxSteals: nat): (r: (Canal<T>, Result<T, Failure>))
    requires Valid(c.queue)
    ensures Valid(r.0.queue) && r.0.queue.Capacity() == c.queue.Capacity()
    ensures r.0.shouldBlock == c.shouldBlock && r.0.channels == c.channels
    ensures r.0.ports == c.ports && r.0.senderDrain == c.senderDrain
    ensures r.1.Ok? <==> Contents(c.queue) != []
    ensures r.1.Ok? ==>
      && r.1.value == Contents(c.queue)[0]
      && Contents(r.0.queue) == Contents(c.queue)[1..]
      && (c.steals >= 0 ==> r.0.steals >= 1)
      && (c.cnt == DISCONNECTED ==> r.0.cnt == DISCONNECTED && r.0.steals == c.steals + 1)
      && (c.cnt != DISCONNECTED ==> r.0.cnt - r.0.steals == c.cnt - c.steals - 1)
      && (c.steals <= maxSteals ==> r.0.steals == c.steals + 1 && r.0.cnt == c.cnt)
      && (c.steals > maxSteals && c.cnt != DISCONNECTED ==>
            && r.0.cnt == c.cnt - Min(c.cnt, c.steals)
            && r.0.steals == c.steals - Min(c.cnt, c.steals) + 1)
    ensures r.1.Err? ==> r.0 == c && (r.1.error == Disconnected <==> c.cnt == DISCONNECTED)
  {
    var (q, popped) := Pop(c.queue);
    if popped.Some? then
      var c1 := c.(queue := q);
      var c2 := if c1.steals > maxSteals then Reconcile(c1) else c1;
      (c2.(steals := c2.steals + 1), Ok(popped.value))
    else if c.cnt != DISCONNECTED then
      (c, Err(Empty))
    else
      var (q', last) := Pop(c.queue);
      match last
      case Some(t) => (c.(queue := q'), Ok(t))
      case None => (c, Err(Disconnected))
  }

  /** `decrement`: subtract the steal credit plus this receiver's own unit
      from `cnt`, zero the credit, and decide whether to sleep: yes exactly when the
      count seen, net of the credit, says nothing is queued. A channel seen
      disconnected is restored to `DISCONNECTED` and never sleeps; a count seen
      at or below `-1 - FUDGE` trips the `assert!`. */
  function Decrement<T>(c: Canal<T>): (r: Checked<(Canal<T>, bool)>)
    ensures c.cnt == DISCONNECTED ==> r == Done((c.(steals := 0), false))
    ensures c.cnt != DISCONNECTED && c.cnt <= -1 - FUDGE ==> r.Panicked?
    ensures c.cnt > -1 - FUDGE ==> r.Done?
    ensures r.Done? && c.cnt != DISCONNECTED ==>
      var (c', block) := r.state;
      && (block <==> c.cnt - c.steals <= 0)
      && c' == c.(cnt := WrapIsize(c.cnt - (1 + c.steals)), steals := 0, shouldBlock := c.shouldBlock || block)
  {
    var steals := c.steals;
    var c1 := c.(steals := 0);
    var n := c1.cnt;
    var c2 := c1.(cnt := WrapIsize(n - (1 + steals)));
    if n == DISCONNECTED then Done((c2.(cnt := DISCONNECTED), false))
    else if !(n > -1 - FUDGE) then Panicked
    else if n - steals <= 0 then Done((c2.(shouldBlock := true), true))
    else Done((c2, false))
  }

  /** The tail of `Canal::recv` once the receiver may go on (it did not have
      to sleep, or a sender cleared `shouldBlock`): one more `try_recv`, whose
      steal unit is taken back because `decrement` already accounted for it. */
  function Resume<T>(c: Canal<T>, maxSteals: nat): (r: (Canal<T>, Result<T, Failure>))
    requires Valid(c.queue)
    ensures Valid(r.0.queue) && r.0.queue.Capacity() == c.queue.Capacity()
    ensures r.0.shouldBlock == c.shouldBlock && r.0.channels == c.channels
    ensures r.0.ports == c.ports && r.0.senderDrain == c.senderDrain
    ensures c.steals >= 0 ==> r.0.steals >= 0
    ensures r.1.Ok? <==> Contents(c.queue) != []
    ensures r.1.Ok? ==>
      && r.1.value == Contents(c.queue)[0]
      && Contents(r.0.queue) == Contents(c.queue)[1..]
      && (c.cnt != DISCONNECTED ==> r.0.cnt - r.0.steals == c.cnt - c.steals)
      && (c.cnt == DISCONNECTED ==> r.0.cnt == DISCONNECTED && r.0.steals == c.steals)
      && (c.steals <= maxSteals ==> r.0.steals == c.steals && r.0.cnt == c.cnt)
    ensures r.1.Err? ==> r.0 == c && (r.1.error == Disconnected <==> c.cnt == DISCONNECTED)
  {
    var (c1, data) := TryRecv(c, maxSteals);
    if data.Ok? then (c1.(steals := c1.steals - 1), data) else (c1, data)
  }

  /** `Canal::recv` up to its wait: a value or `Disconnected` straight from
      `try_recv`, or, on `Empty`, the `decrement` decision: sleep, or go on
      at once with `Resume`. */
  function Recv<T>(c: Canal<T>, maxSteals: nat): (r: Checked<(Canal<T>, RecvStep<T>)>)
    requires Valid(c.queue)
    ensures r.Done? ==> Valid(r.state.0.queue) && r.state.0.queue.Capacity() == c.queue.Capacity()
    ensures r.Panicked? <==> Contents(c.queue) == [] && c.cnt != DISCONNECTED && c.cnt <= -1 - FUDGE
    ensures (r.Done? && r.state.1.MustWait?) <==>
      Contents(c.queue) == [] && c.cnt != DISCONNECTED && c.cnt > -1 - FUDGE && c.cnt - c.steals <= 0
    ensures Contents(c.queue) != [] ==>
      r == Done((TryRecv(c, maxSteals).0, Finished(Ok(Contents(c.queue)[0]))))
    ensures Contents(c.queue) == [] && c.cnt == DISCONNECTED ==>
      r == Done((c, Finished(Err(Disconnected))))
    ensures Contents(c.queue) == [] && c.cnt != DISCONNECTED && c.cnt > -1 - FUDGE && c.cnt - c.steals <= 0 ==>
      r == Done((c.(cnt := WrapIsize(c.cnt - (1 + c.steals)), steals := 0, shouldBlock := true), MustWait))
    ensures Contents(c.queue) == [] && c.cnt != DISCONNECTED && c.cnt > -1 - FUDGE && c.cnt - c.steals > 0 ==>
      var c' := c.(cnt := WrapIsize(c.cnt - (1 + c.steals)), steals := 0);
      r == Done((c', Finished(Err(if c'.cnt == DISCONNECTED then Disconnected else Empty))))
    ensures r.Done? && r.state.1.MustWait? ==> r.state.0.shouldBlock && r.state.0.queue == c.queue
  {
    var (c1, first) := TryRecv(c, maxSteals);
    if first != Err(Empty) then Done((c1, Finished(first)))
    else match Decrement(c1)
      case Panicked => Panicked
      case Done((c2, block)) =>
        if block then Done((c2, MustWait))
        else
          var (c3, second) := Resume(c2, maxSteals);
          Done((c3, Finished(second)))
  }

  /** `clone_chan`: one more sender. */
  function CloneChan<T>(c: Canal<T>): (r: Canal<T>)
    ensures c.channels < ISIZE_MAX ==> r.channels == c.channels + 1
    ensures r.(channels := c.channels) == c
  {
    c.(channels := WrapIsize(c.channels + 1))
  }

  /** `clone_port`: one more receiver. */
  function ClonePort<T>(c: Canal<T>): (r: Canal<T>)
    ensures c.ports < ISIZE_MAX ==> r.ports == c.ports + 1
    ensures r.(ports := c.ports) == c
  {
    c.(ports := WrapIsize(c.ports + 1))
  }

  /** `drop_chan`. Panics when no sender was left to drop. Only the last
      sender acts: it swaps `cnt` to `DISCONNECTED`, waking a receiver that
      had registered to sleep (`cnt` was -1), and panics if it finds any other
      negative live count. */
  function DropChan<T>(c: Canal<T>): (r: Checked<Canal<T>>)
    ensures r.Panicked? <==>
      c.channels < 1 || (c.channels == 1 && c.cnt < 0 && c.cnt != -1 && c.cnt != DISCONNECTED)
    ensures c.channels > 1 ==> r == Done(c.(channels := c.channels - 1))
    ensures c.channels == 1 && r.Done? ==>
      r.state == c.(channels := 0, cnt := DISCONNECTED, shouldBlock := c.shouldBlock && c.cnt != -1)
  {
    var prev := c.channels;
    var c1 := c.(channels := WrapIsize(prev - 1));
    if prev > 1 then Done(c1)
    else if prev != 1 then Panicked
    else
      var n := c1.cnt;
      var c2 := c1.(cnt := DISCONNECTED);
      if n == -1 then Done(WakePort(c2))
      else if n == DISCONNECTED then Done(c2)
      else if n >= 0 then Done(c2)
      else Panicked
  }

  /** The compare-and-swap loop of the last `drop_port`: try to swap `cnt`
      from the local credit count to `DISCONNECTED`; while `cnt` is neither,
      pop everything left and count it into the local credit. Run
      sequentially the loop ends if `cnt` already is `DISCONNECTED`, if it
      equals the credit (the first swap succeeds and whatever is queued is
      left to a late sender), or if `cnt - steals` is the number of queued
      values (one drain brings the credit up to `cnt`); otherwise it spins. */
  function DisconnectPort<T>(c: Canal<T>, steals: int): (r: Canal<T>)
    requires Valid(c.queue)
    requires c.cnt == DISCONNECTED || c.cnt == steals || c.cnt - steals == |Contents(c.queue)|
    ensures Valid(r.queue) && r.queue.Capacity() == c.queue.Capacity() && r.cnt == DISCONNECTED
    ensures c.cnt == DISCONNECTED ==> r == c
    ensures c.cnt == steals ==> r == c.(cnt := DISCONNECTED)
    ensures c.cnt != DISCONNECTED ==> r == c.(queue := r.queue, cnt := DISCONNECTED)
    ensures c.cnt != DISCONNECTED && c.cnt - steals == |Contents(c.queue)| ==> Contents(r.queue) == []
    decreases |Contents(c.queue)|
  {
    if c.cnt == steals then
      c.(cnt := DISCONNECTED)
    else if c.cnt == DISCONNECTED then
      c
    else
      var (q, popped) := Drain(c.queue);
      DisconnectPort(c.(queue := q), steals + popped)
  }

  /** `drop_port`. Panics when no receiver was left to drop. Only the last
      receiver acts: it disconnects the channel and drains whatever is still
      queued, unless `cnt` equals its steal credit, in which case it
      disconnects at once and leaves the queue to a late sender. Its own
      steal credit is left as it was. */
  function DropPort<T>(c: Canal<T>): (r: Checked<Canal<T>>)
    requires Valid(c.queue)
    requires c.ports == 1 ==> c.cnt == DISCONNECTED || c.cnt == c.steals || c.cnt - c.steals == |Contents(c.queue)|
    ensures r.Panicked? <==> c.ports < 1
    ensures c.ports > 1 ==> r == Done(c.(ports := c.ports - 1))
    ensures c.ports == 1 ==>
      && r.Done? && Valid(r.state.queue) && r.state.queue.Capacity() == c.queue.Capacity()
      && r.state == c.(ports := 0, cnt := DISCONNECTED, queue := r.state.queue)
      && (c.cnt == DISCONNECTED || c.cnt == c.steals ==> r.state.queue == c.queue)
      && (c.cnt != DISCONNECTED && c.cnt - c.steals == |Contents(c.queue)| ==> Contents(r.state.queue) == [])
  {
    var prev := c.ports;
    var c1 := c.(ports := WrapIsize(prev - 1));
    if prev > 1 then Done(c1)
    else if prev != 1 then Panicked
    else Done(DisconnectPort(c1, c1.steals))
  }

  /** The assertions of `Drop for Canal`: the shared packet may only be freed
      disconnected and with no handle left. */
  predicate ReadyToFree<T>(c: Canal<T>)
  {
    c.cnt == DISCONNECTED && c.channels == 0 && c.ports == 0
  }
}
