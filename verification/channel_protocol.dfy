/** The counter discipline of `Canal` with a single receiver, as an invariant
    that every operation keeps, and the teardown it leads to.

    Between steps the receiver is either `Idle` or `Parked`: it ran
    `decrement`, decided to sleep, and has not yet resumed. While the channel
    is live, `cnt` equals the queued values plus the receiver's steal credit
    when it is idle, and the queued values minus its own registered unit when
    it is parked. Once disconnected `cnt` stays exactly `DISCONNECTED`. */
module ChannelProtocol {
  import opened Words
  import opened Outcomes
  import opened BoundedQueue
  import opened Channel

  datatype Phase = Idle | Parked

  ghost predicate Inv<T>(c: Canal<T>, maxSteals: nat, phase: Phase)
  {
    && Valid(c.queue)
    && c.queue.Capacity() + maxSteals + 2 <= ISIZE_MAX
    && c.senderDrain == 0
    && c.channels >= 0 && c.ports >= 0
    && c.steals >= 0
    && (phase == Parked ==> c.steals == 0)
    && (c.cnt == DISCONNECTED ==> !c.shouldBlock)
    && (c.cnt != DISCONNECTED ==>
          && c.channels >= 1 && c.ports >= 1
          && (phase == Idle ==>
                c.cnt == c.steals + |Contents(c.queue)| && c.steals <= maxSteals + 1 && !c.shouldBlock)
          && (phase == Parked ==>
                c.cnt == |Contents(c.queue)| - 1 && (c.shouldBlock <==> Contents(c.queue) == [])))
  }

  /** A fresh channel starts out in the invariant with an idle receiver. */
  lemma NewEstablishes<T>(cap: nat, maxSteals: nat)
    requires cap <= MAX_REQUEST && EffectiveCapacity(cap) + maxSteals + 2 <= ISIZE_MAX
    ensures Inv(New<T>(cap), maxSteals, Idle)
  {
  }

  /** A send, whichever phase the receiver is in, keeps the invariant; it
      fails exactly when no receiver is left, the channel is disconnected or
      the queue is full. It wakes a parked receiver that was waiting on an
      empty queue. */
  lemma SendPreserves<T>(c: Canal<T>, t: T, maxSteals: nat, phase: Phase)
    requires Inv(c, maxSteals, phase)
    ensures Inv(Send(c, t).0, maxSteals, phase)
    ensures Send(c, t).1.Err? <==>
      c.ports == 0 || c.cnt == DISCONNECTED || |Contents(c.queue)| == c.queue.Capacity()
    ensures phase == Parked && Send(c, t).1.Ok? ==> !Send(c, t).0.shouldBlock
  {
    var (c', r) := Send(c, t);
    if r.Ok? {
      assert c.cnt != DISCONNECTED;
      assert |Contents(c'.queue)| == |Contents(c.queue)| + 1;
    }
  }

  /** Within one `send` the disconnected-band branch of the counter step is
      dead: the preflight check already turned such a channel away. So a
      send never touches `senderDrain`. */
  lemma SendNeverDrains<T>(c: Canal<T>, t: T)
    requires Valid(c.queue)
    ensures Send(c, t).0.senderDrain == c.senderDrain
    ensures Send(c, t).1.Ok? ==> !InDisconnectedBand(c.cnt) && Send(c, t).0.cnt == WrapIsize(c.cnt + 1)
  {
  }

  /** If a receiver forces the disconnect between a sender's preflight check
      and its counter step, that step restores `DISCONNECTED` and, as the only
      sender around, drains the queue and leaves the arbiter at 0. */
  lemma LateSenderDrains<T>(c: Canal<T>)
    requires Valid(c.queue) && c.cnt == DISCONNECTED && c.senderDrain == 0
    ensures var r := CountPushed(c);
      r.cnt == DISCONNECTED && Contents(r.queue) == [] && r.senderDrain == 0
  {
  }

  /** An idle receiver's `try_recv` keeps the invariant. */
  lemma TryRecvPreserves<T>(c: Canal<T>, maxSteals: nat)
    requires Inv(c, maxSteals, Idle)
    ensures Inv(TryRecv(c, maxSteals).0, maxSteals, Idle)
    ensures TryRecv(c, maxSteals).1 == Err(Empty) <==> Contents(c.queue) == [] && c.cnt != DISCONNECTED
  {
    var (c', r) := TryRecv(c, maxSteals);
    if r.Ok? && c.cnt != DISCONNECTED {
      assert |Contents(c'.queue)| == |Contents(c.queue)| - 1;
      if c.steals > maxSteals {
        assert c'.steals == 1;
      }
    }
  }

  /** An idle receiver's `recv` never panics. It either finishes, staying
      idle, or parks; it parks exactly when the channel is live and empty,
      and then `cnt` is -1 with the sleep flag raised. */
  lemma RecvPreserves<T>(c: Canal<T>, maxSteals: nat)
    requires Inv(c, maxSteals, Idle)
    ensures Recv(c, maxSteals).Done?
    ensures var (c', step) := Recv(c, maxSteals).state;
      && (step.MustWait? <==> Contents(c.queue) == [] && c.cnt != DISCONNECTED)
      && (step.MustWait? ==> Inv(c', maxSteals, Parked) && c'.cnt == -1 && c'.shouldBlock)
      && (step.Finished? ==> Inv(c', maxSteals, Idle) && step.result != Err(Empty))
  {
    TryRecvPreserves(c, maxSteals);
  }

  /** A parked receiver that finds the sleep flag cleared resumes: it takes
      the value that woke it, or sees the disconnect, and is idle again. */
  lemma ResumePreserves<T>(c: Canal<T>, maxSteals: nat)
    requires Inv(c, maxSteals, Parked) && !c.shouldBlock
    ensures Inv(Resume(c, maxSteals).0, maxSteals, Idle)
    ensures Resume(c, maxSteals).1 != Err(Empty)
  {
    var (c', r) := Resume(c, maxSteals);
    if r.Ok? && c.cnt != DISCONNECTED {
      assert |Contents(c'.queue)| == |Contents(c.queue)| - 1;
    }
  }

  /** Cloning a handle keeps the invariant as long as its count does not wrap. */
  lemma ClonePreserves<T>(c: Canal<T>, maxSteals: nat, phase: Phase)
    requires Inv(c, maxSteals, phase)
    ensures c.channels < ISIZE_MAX ==> Inv(CloneChan(c), maxSteals, phase)
    ensures c.ports < ISIZE_MAX ==> Inv(ClonePort(c), maxSteals, phase)
  {
  }

  /** Dropping a sender that exists never panics and keeps the invariant; the
      last one disconnects the channel and wakes a receiver parked on an
      empty queue. */
  lemma DropChanPreserves<T>(c: Canal<T>, maxSteals: nat, phase: Phase)
    requires Inv(c, maxSteals, phase) && c.channels >= 1
    ensures DropChan(c).Done?
    ensures Inv(DropChan(c).state, maxSteals, phase)
    ensures c.channels == 1 ==> DropChan(c).state.cnt == DISCONNECTED && !DropChan(c).state.shouldBlock
  {
  }

  /** Dropping an idle receiver that exists never panics and keeps the
      invariant; the last one disconnects the channel and leaves the queue
      empty unless the senders had already disconnected it. */
  lemma DropPortPreserves<T>(c: Canal<T>, maxSteals: nat)
    requires Inv(c, maxSteals, Idle) && c.ports >= 1
    ensures DropPort(c).Done?
    ensures Inv(DropPort(c).state, maxSteals, Idle)
    ensures c.ports == 1 ==> DropPort(c).state.cnt == DISCONNECTED
    ensures c.ports == 1 && c.cnt != DISCONNECTED ==> Contents(DropPort(c).state.queue) == []
  {
  }

  /** The race `LateSenderDrains` is about, from its start: the last
      receiver, idle on an empty live channel, is dropped after a sender's
      push but before that sender's counter step. `cnt` still equals the
      receiver's credit, so the first swap disconnects at once and the value
      stays queued; the sender's late counter step then restores
      `DISCONNECTED` and drains it. */
  lemma LastReceiverRacesSender<T>(c: Canal<T>, t: T, maxSteals: nat)
    requires Inv(c, maxSteals, Idle) && c.ports == 1
    requires c.cnt != DISCONNECTED && Contents(c.queue) == []
    ensures var (q, pushed) := BoundedQueue.Push(c.queue, t);
      && pushed.Ok?
      && DropPort(c.(queue := q)).Done?
      && var dropped := DropPort(c.(queue := q)).state;
      && dropped.cnt == DISCONNECTED && Contents(dropped.queue) == [t]
      && var counted := CountPushed(dropped);
      && counted.cnt == DISCONNECTED && Contents(counted.queue) == [] && counted.senderDrain == 0
  {
    var (q, pushed) := BoundedQueue.Push(c.queue, t);
    assert c.cnt == c.steals;
    var dropped := DropPort(c.(queue := q)).state;
    LateSenderDrains(dropped);
  }

  /** Once both kinds of handle are gone the `Drop` assertions hold. */
  lemma InvariantAtRest<T>(c: Canal<T>, maxSteals: nat, phase: Phase)
    requires Inv(c, maxSteals, phase) && c.channels == 0 && c.ports == 0
    ensures ReadyToFree(c)
  {
  }

  /** Dropping the last receiver and then the last sender, or the other way
      round, succeeds and ends in a state the `Drop` assertions accept. */
  lemma Teardown<T>(c: Canal<T>, maxSteals: nat)
    requires Inv(c, maxSteals, Idle) && c.channels == 1 && c.ports == 1
    ensures DropPort(c).Done? && DropChan(DropPort(c).state).Done?
    ensures ReadyToFree(DropChan(DropPort(c).state).state)
    ensures DropChan(c).Done? && DropPort(DropChan(c).state).Done?
    ensures ReadyToFree(DropPort(DropChan(c).state).state)
  {
    DropPortPreserves(c, maxSteals);
    DropChanPreserves(c, maxSteals, Idle);
    DropChanPreserves(DropPort(c).state, maxSteals, Idle);
    DropPortPreserves(DropChan(c).state, maxSteals);
  }

  /** On a live channel with room, a `send` followed by the idle receiver's
      `recv` returns the oldest value without waiting: the value just sent
      when the queue was empty. The value sent stays queued behind the rest. */
  lemma SendThenRecv<T>(c: Canal<T>, t: T, maxSteals: nat)
    requires Inv(c, maxSteals, Idle) && c.cnt != DISCONNECTED && |Contents(c.queue)| < c.queue.Capacity()
    ensures Send(c, t).1.Ok?
    ensures var c1 := Send(c, t).0;
      var queued := Contents(c.queue) + [t];
      && Recv(c1, maxSteals) == Done((Recv(c1, maxSteals).state.0, Finished(Ok(queued[0]))))
      && Inv(Recv(c1, maxSteals).state.0, maxSteals, Idle)
      && Contents(Recv(c1, maxSteals).state.0.queue) == queued[1..]
    ensures Contents(c.queue) == [] ==> Recv(Send(c, t).0, maxSteals).state.1 == Finished(Ok(t))
  {
    SendPreserves(c, t, maxSteals, Idle);
    var c1 := Send(c, t).0;
    assert Contents(c1.queue) == Contents(c.queue) + [t];
    RecvPreserves(c1, maxSteals);
    TryRecvPreserves(c1, maxSteals);
  }

  /** The crate's `test_send_full`: on a channel of capacity 2 the first two
      sends succeed, the third hands its value back, and teardown reaches the
      `Drop` assertions. */
  lemma SendFullScenario()
    ensures var c0 := New<int>(2);
      var (c1, r1) := Send(c0, 1);
      var (c2, r2) := Send(c1, 2);
      var (c3, r3) := Send(c2, 3);
      && r1.Ok? && r2.Ok? && r3 == Err(3)
      && DropPort(c3).Done? && DropChan(DropPort(c3).state).Done?
      && ReadyToFree(DropChan(DropPort(c3).state).state)
  {
    assert BitAnd(2, 1) == 0;
    var c0 := New<int>(2);
    NewEstablishes<int>(2, 5);
    var (c1, r1) := Send(c0, 1);
    SendPreserves(c0, 1, 5, Idle);
    var (c2, r2) := Send(c1, 2);
    SendPreserves(c1, 2, 5, Idle);
    var (c3, r3) := Send(c2, 3);
    SendPreserves(c2, 3, 5, Idle);
    Teardown(c3, 5);
  }
}
