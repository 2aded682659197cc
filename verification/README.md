# canal in Dafny

A model of the core of `canal`, a Rust crate of multi-producer/multi-consumer
channels and lock-free building blocks. Every concurrent operation is modelled
as one atomic step by one caller at a time, and its contract says what the step
does to an abstract state:

- **`BoundedQueue`** (`bounded_queue.dfy`) models `LockFreeQueue`. This is
  Dmitry Vyukov's bounded ring buffer.
  - Its slots carry sequence numbers, and two cursors only grow.
  - `Valid` is the slot/sequence handshake for the current lap.
  - `Contents` reads the pending values off the slots as a FIFO sequence.
  - `push` and `pop` are proved to append to that sequence and to take from its front, with full and empty detected exactly.
- **`Channel`** (`channel.dfy`) models `Canal`, the counter machine layered over the ring buffer.
  - Its state is the signed item count `cnt`, with the `DISCONNECTED` sentinel and the `FUDGE` bands.
  - The receiver's `steals` credit and the `channels`/`ports` reference counts are part of the state.
  - So are the `sender_drain` arbiter and the `should_block` flag.
  - The atomic adds wrap like 64-bit two's complement arithmetic.
  - A panic is the `Panicked` outcome.
  - A blocking receive returns the decision to wait.
- **`ChannelProtocol`** (`channel_protocol.dfy`) covers a channel with a single receiver.
  - It states the counter discipline as an invariant, `Inv`.
  - It proves that every operation keeps `Inv`.
  - It proves that dropping all handles reaches the state the `Drop` assertions demand.
- **`LinkedList`** (`linked_list.dfy`) models the mutex-guarded stub-node list `ListInner`, with its nodes in an arena.
- **`Tagging`** (`tagging.dfy`) models the low-bit pointer tagging on 64-bit words.
  - `src/sync/ccas.rs:100-126` has its own private copies of the `src/sync/utils.rs` helpers. Its transmutes are fixed to its own `Descriptor<T>`, where the utils ones are generic over `D: Descriptor<T>`. Both use the same bit operations, so this one model serves both.
- **`Ccas`** (`ccas.dfy`) models the sequential outcome of the conditional compare-and-swap.
- **`Words`** (`words.dfy`) and **`Outcomes`** (`outcomes.dfy`) hold shared material:
  - machine-word arithmetic, with `&` on naturals and `next_power_of_two`;
  - the `Option`, `Result` and `Checked` outcome types.

Several inputs become explicit parameters:

- Rust's `MAX_STEALS` is the parameter `maxSteals`, because it differs between test and release builds.
- A CCAS descriptor lives on the caller's stack. The model takes its address `at` as a parameter and keeps descriptor memory as a map.

## Model

| member | source | states |
|---|---|---|
| Words.WrapIsize | src/mpmc/channel.rs:195 | The value an atomic `isize` add or subtract stores: an in-range result is kept, and one overflowing by at most one turn is moved by exactly 2^64 back into range |
| Words.NextPowerOfTwo | src/mpmc/mpmc_bounded_queue.rs:84 | `next_power_of_two` returns a power of two at least its argument |
| Words.NextPowerOfTwoIsLeast | src/mpmc/mpmc_bounded_queue.rs:84 | That power of two is the least one at least its argument |
| Words.PowerOfTwoTest | src/mpmc/mpmc_bounded_queue.rs:79 | For n ≥ 1, the bit test `n & (n - 1) == 0` holds exactly when n is a power of two |
| Words.MaskIsModulo | src/mpmc/mpmc_bounded_queue.rs:114 | For a power of two n, `x & (n - 1)` is `x mod n`, so masking a cursor picks its ring position |
| BoundedQueue.EffectiveCapacity | src/mpmc/mpmc_bounded_queue.rs:79-88 | The capacity settled on is a power of two, at least 2, and at least the request |
| BoundedQueue.EffectiveCapacityIsLeast | src/mpmc/mpmc_bounded_queue.rs:79-88 | No power of two at least max(2, request) is smaller than the capacity settled on |
| BoundedQueue.WithCapacity | src/mpmc/mpmc_bounded_queue.rs:78-103 | A fresh queue satisfies the slot invariant and is empty. Slot i has sequence i and no value, both cursors are 0, and `mask` is the capacity minus one |
| BoundedQueue.SlotIndex | src/mpmc/mpmc_bounded_queue.rs:114 | `pos & mask` is always an in-bounds slot index, namely the ring position of `pos` |
| BoundedQueue.NoRaceAhead | src/mpmc/mpmc_bounded_queue.rs:132-134 | In a valid queue, the slot a cursor addresses never holds a sequence ahead of that cursor. So, run sequentially, the reload branches of `push` and `pop` are unreachable |
| BoundedQueue.FullTest | src/mpmc/mpmc_bounded_queue.rs:129-131 | The enqueue slot's sequence is behind the cursor exactly when the queue holds `capacity` values. Otherwise the slot is free and empty |
| BoundedQueue.EmptyTest | src/mpmc/mpmc_bounded_queue.rs:160-162 | The dequeue slot's sequence is below `pos + 1` exactly when the queue is empty |
| BoundedQueue.Push | src/mpmc/mpmc_bounded_queue.rs:110-137 | `Err` comes back exactly when the queue is full, carries the pushed value and changes nothing. On success the value joins the back of the FIFO contents. The invariant and capacity are kept |
| BoundedQueue.PushStep | src/mpmc/mpmc_bounded_queue.rs:118-125 | Publishing `pos + 1` in the enqueue slot and advancing the cursor keeps the slot invariant and appends exactly the new value |
| BoundedQueue.PushFrame | src/mpmc/mpmc_bounded_queue.rs:118-125 | A successful push writes only slot `pos & mask`, with sequence `pos + 1` and the value. It advances only `enqueue_pos`, by one |
| BoundedQueue.Pop | src/mpmc/mpmc_bounded_queue.rs:142-167 | `None` comes back exactly when the queue is empty, and then nothing changes. Otherwise the oldest value comes back and leaves the FIFO contents |
| BoundedQueue.PopStep | src/mpmc/mpmc_bounded_queue.rs:149-156 | Re-arming the dequeue slot for the next lap and advancing the cursor keeps the slot invariant and removes exactly the front value, which was the slot's value |
| BoundedQueue.PopFrame | src/mpmc/mpmc_bounded_queue.rs:149-156 | A successful pop empties only slot `pos & mask` and sets its sequence to `pos + mask + 1`. It advances only `dequeue_pos`, by one |
| BoundedQueue.Drain | src/mpmc/channel.rs:139-144 | Popping until `None` empties the queue, discards exactly the number of values it held, and keeps the invariant |
| BoundedQueue.PushEach | src/mpmc/mpmc_bounded_queue.rs:190-191 | Pushing a list in order accepts exactly as many values as there is room for, and appends exactly that prefix. So `capacity` pushes into an empty queue all succeed |
| BoundedQueue.CapacityTwoScenario | src/mpmc/mpmc_bounded_queue.rs:110-167 | On a capacity-2 queue, two pushes succeed and the third returns its value. Then pops return 1, 2 and `None` |
| Channel.New | src/mpmc/channel.rs:57-68 | A fresh channel has an empty valid queue of the rounded capacity, a zero count and no steal credit. It has one sender, one receiver and no sleeper |
| Channel.WakePort | src/mpmc/channel.rs:321-325 | Waking clears the sleep flag and changes nothing else |
| Channel.CountPushed | src/mpmc/channel.rs:106-161 | After a push, `cnt` rises by one. A count seen in the sleep band also clears the sleep flag. A count seen in the disconnected band is reset to `DISCONNECTED`: the sender that finds the arbiter at 0 empties the queue and leaves the arbiter at 0, and any other sender leaves the arbiter raised by one |
| Channel.Send | src/mpmc/channel.rs:72-164 | `Err(t)` comes back, with nothing changed, exactly when no receiver is left, `cnt` is in the disconnected band, or the queue is full. Otherwise `t` joins the queue, `cnt` rises by one, and a receiver in the sleep band is woken |
| Channel.Bump | src/mpmc/channel.rs:249-257 | On a live channel, adds to `cnt` with wrap-around and returns the value seen. A channel seen disconnected stays exactly `DISCONNECTED` and reports it, which a plain wrapping add would not do |
| Channel.Reconcile | src/mpmc/channel.rs:216-228 | On a live channel, as much of the steal credit as `cnt` allows (`m = min(cnt, steals)`) is moved out of both, so `cnt - steals` is unchanged: when `cnt >= steals` the credit ends at 0, otherwise `cnt` ends at 0 and the credit at `steals - cnt`. The credit never goes negative, so the `assert!` holds. A disconnected channel is unchanged |
| Channel.TryRecv | src/mpmc/channel.rs:211-247 | A value comes back exactly when the queue has one, and it is the front value. It adds one unit of steal credit. Past `MAX_STEALS` on a live channel it first moves `m = min(cnt, steals)` out of both, so `cnt` ends at `cnt - m` and the credit at `steals - m + 1`. Otherwise `Disconnected` comes back exactly when `cnt` is `DISCONNECTED`, and `Empty` comes back in every other case, with nothing changed |
| Channel.Decrement | src/mpmc/channel.rs:188-209 | Subtracts the credit plus one from `cnt` and zeroes the credit. It decides to sleep exactly when the count seen, net of credit, is at most 0. A disconnected channel is restored and does not sleep. A count at or below `-1 - FUDGE` panics |
| Channel.Resume | src/mpmc/channel.rs:180-183 | The post-wait `try_recv` returns the front value without adding net steal credit, or reports `Disconnected` or `Empty` unchanged |
| Channel.Recv | src/mpmc/channel.rs:166-184 | A non-empty queue yields its front value at once, with the state `try_recv` leaves. A drained disconnected channel yields `Disconnected`. A live empty channel panics exactly when `cnt` is at or below `-1 - FUDGE`. It decides to wait exactly when the count net of credit is at most 0, with the flag raised and the credit folded into `cnt`. Otherwise the second `try_recv` reports `Empty`, or `Disconnected` if the fold reached the sentinel. The queue stays valid |
| Channel.CloneChan | src/mpmc/channel.rs:262-264 | Adds exactly one sender and changes nothing else |
| Channel.ClonePort | src/mpmc/channel.rs:269-271 | Adds exactly one receiver and changes nothing else |
| Channel.DropChan | src/mpmc/channel.rs:276-288 | Panics exactly when no sender was left, or when the last sender finds a negative count other than -1 or `DISCONNECTED`. A non-last drop only decrements. The last drop sets `DISCONNECTED` and clears the flag if the count was -1 |
| Channel.DisconnectPort | src/mpmc/channel.rs:302-316 | The loop always ends with `cnt == DISCONNECTED` and nothing but the queue changed. An already disconnected channel is left as it is. When `cnt` equals the credit, the first swap succeeds and the queue is left as it was. When `cnt - steals` is the queue length, the queue ends empty |
| Channel.DropPort | src/mpmc/channel.rs:295-316 | Panics exactly when no receiver was left. A non-last drop only decrements. The last drop disconnects the channel. It leaves the queue as it was when the channel was already disconnected or `cnt` equals the receiver's credit, and empties it when `cnt - steals` is the queue length |
| ChannelProtocol.NewEstablishes | src/mpmc/channel.rs:57-68 | A fresh channel satisfies the counter invariant with an idle receiver |
| ChannelProtocol.SendPreserves | src/mpmc/channel.rs:72-164 | `send` keeps the invariant in either receiver phase. It fails exactly when no receiver is left, the channel is disconnected, or the queue is full. It wakes a parked receiver |
| ChannelProtocol.SendNeverDrains | src/mpmc/channel.rs:101-135 | Within one `send`, the preflight check makes the disconnected branch of the counter step unreachable. `sender_drain` is untouched, and `cnt` rises by exactly one |
| ChannelProtocol.LateSenderDrains | src/mpmc/channel.rs:130-156 | A sender whose count step finds the channel already disconnected restores `DISCONNECTED`, empties the queue and leaves the arbiter at 0 |
| ChannelProtocol.TryRecvPreserves | src/mpmc/channel.rs:211-247 | An idle receiver's `try_recv` keeps the invariant, and it reports `Empty` exactly when the channel is live and empty |
| ChannelProtocol.RecvPreserves | src/mpmc/channel.rs:166-209 | An idle receiver's `recv` never panics. It decides to wait exactly when the channel is live and empty, and is then parked with `cnt == -1` and the flag raised. Otherwise it finishes idle, never with `Empty` |
| ChannelProtocol.ResumePreserves | src/mpmc/channel.rs:180-183 | A parked receiver whose flag was cleared finishes idle, with a value or `Disconnected` and never `Empty` |
| ChannelProtocol.ClonePreserves | src/mpmc/channel.rs:262-271 | Cloning either handle keeps the invariant while its count does not overflow |
| ChannelProtocol.DropChanPreserves | src/mpmc/channel.rs:276-288 | Dropping an existing sender never panics and keeps the invariant. The last sender disconnects the channel and leaves no receiver asleep |
| ChannelProtocol.DropPortPreserves | src/mpmc/channel.rs:295-316 | Dropping an existing idle receiver never panics and keeps the invariant. The last receiver disconnects the channel and drains a live queue |
| ChannelProtocol.LastReceiverRacesSender | src/mpmc/channel.rs:302-306 | When the last idle receiver is dropped between a sender's push (channel.rs:105) and its counter step (channel.rs:106-156), the drop disconnects at once and leaves the value queued, and the late counter step restores `DISCONNECTED`, drains the queue and leaves the arbiter at 0 |
| ChannelProtocol.InvariantAtRest | src/mpmc/channel.rs:328-333 | Under the invariant, once no sender and no receiver is left the `Drop` assertions hold |
| ChannelProtocol.Teardown | src/mpmc/channel.rs:362-363 | Dropping the last receiver and the last sender, in either order, succeeds and satisfies the `Drop` assertions |
| ChannelProtocol.SendThenRecv | src/mpmc/channel.rs:344-364 | On a live channel with room, a send followed by the idle receiver's `recv` returns the oldest queued value without waiting, which is the value just sent when the queue was empty. The value sent stays queued behind the rest, and the invariant is kept |
| ChannelProtocol.SendFullScenario | src/mpmc/channel.rs:367-374 | On a capacity-2 channel, two sends succeed, the third returns its value, and teardown satisfies the `Drop` assertions |
| LinkedList.New | src/mpmc/mutex_linked_list.rs:31-41 | A fresh list is one value-less stub that is both head and tail, and it is empty |
| LinkedList.Push | src/mpmc/mutex_linked_list.rs:73-85 | Always returns `Ok`. The new node is linked after the old head and becomes the head, and the value joins the back of the contents |
| LinkedList.PopAssertionsHold | src/mpmc/mutex_linked_list.rs:94-95 | In a valid non-empty list, both `assert!`s of `pop` hold: the stub has no value and its successor has one |
| LinkedList.Pop | src/mpmc/mutex_linked_list.rs:87-104 | `None` comes back, with nothing changed, exactly when the stub has no successor. Otherwise the front value comes back, and the successor becomes the new stub |
| LinkedList.PushPopScenario | src/mpmc/mutex_linked_list.rs:127-134 | A fresh list pops `None`. After pushing 1 and 2, pops return 1 and then 2 |
| Tagging.IsDescriptor | src/sync/utils.rs:11-13 | An address is tagged exactly when it is odd |
| Tagging.SetDescriptor | src/sync/utils.rs:17-20 | Tagging an untagged address yields a tagged one with every other bit unchanged |
| Tagging.UnsetDescriptor | src/sync/utils.rs:24-27 | Untagging a tagged address yields an untagged one with every other bit unchanged |
| Tagging.TagIsIncrement | src/sync/utils.rs:17-27 | Read as numbers, tagging adds one and untagging subtracts one |
| Tagging.SetThenUnset | src/sync/utils.rs:17-27 | Untagging a freshly tagged address gives the original address back |
| Tagging.UnsetThenSet | src/sync/utils.rs:17-27 | Re-tagging an untagged tagged address gives the original back |
| Tagging.DescToT | src/sync/utils.rs:42-44 | Hiding a descriptor address yields a tagged word that differs from it only in the tag |
| Tagging.TToDesc | src/sync/utils.rs:37-39 | Recovering a descriptor address from a tagged word yields an untagged word that differs from it only in the tag |
| Tagging.TransmuteRoundTrip | src/sync/utils.rs:37-44 | Hiding a descriptor and recovering it, or the reverse, gives back the original word |
| Ccas.Help | src/sync/ccas.rs:80-92 | If the cell still holds the descriptor, it gets `new` when the condition reads 0 and `current` otherwise. A cell holding anything else is left alone |
| Ccas.ConditionalCompareAndSwap | src/sync/ccas.rs:50-68 | A cell holding `current` ends holding `new` when the condition is 0 and `current` otherwise. A cell holding another ordinary pointer is unchanged |
| Ccas.HelpSettles | src/sync/ccas.rs:71-74 | Helping a descriptor whose operands are ordinary pointers leaves an ordinary pointer in the cell |
| Ccas.Load | src/sync/ccas.rs:70-78 | The value read is never tagged. An untagged cell is read as it is, and a tagged one is helped first |
| Ccas.CcasKeepsCellUntagged | src/sync/ccas.rs:50-68 | With ordinary operands, a CCAS never leaves a descriptor behind in the cell |
| Ccas.CcasThenLoad | src/sync/ccas.rs:152-180 | A CCAS from the cell's own value, followed by a load, reads `new` when the condition is 0 and the original value otherwise |

## Left out

- Memory orderings, interleavings and CAS retry contention are not modelled. Every call is one atomic step, so the model says nothing about concurrent executions, including the fifty-thread helping test in `src/sync/ccas.rs`.
- The condition variable is not modelled. `recv` stops at the decision to wait (`MustWait`), and `wake_port` only clears the flag. `Resume` is the part of `recv` after the wait.
- Only a single receiver is modelled. `steals` is a plain, non-atomic field of the packet, so several receivers would race on it.
- Cache-line padding, `Box` allocation and freeing, and `ListInner`'s destructor are not modelled. Freed list nodes stay in the arena and are never read again.
- `src/broadcast/mod.rs`, `src/mpmc/mod.rs`, `src/sync/mcas.rs` and `src/lib.rs` are not part of this model. The first wraps `std::sync::mpsc`, which is not shown. The second holds forwarding wrappers over `LockFreeQueue` and a re-export of `MutexLinkedList`. The third is an unfinished descriptor, and the last holds module declarations.
- BoundedQueue.WithCapacity: a request above 2^63 is excluded by a precondition. There `next_power_of_two` overflows a 64-bit `usize`, and such an allocation could not succeed anyway.
- BoundedQueue.Push: the cursors and sequence numbers are unbounded. The `usize` wrap after 2^64 operations, and the `isize` difference the source takes, are not modelled.
- BoundedQueue.Pop: the same unbounded cursors as `Push`.
- Channel.TryRecv: `steals` is an unbounded integer. Its `isize` overflow cannot be reached below `MAX_STEALS`.
- Channel.DropPort: requires that, for the last receiver, `cnt` is `DISCONNECTED`, equals the receiver's credit `steals`, or exceeds it by the queue length. In every other state its compare-and-swap loop, run with no other thread, would spin for ever, because no one else changes `cnt`. `ChannelProtocol.Inv` always provides the third case, and the race in `ChannelProtocol.LastReceiverRacesSender` gives the second.
- Channel.DisconnectPort: the same termination requirement as `DropPort`.
- Ccas.ConditionalCompareAndSwap: requires that the cell does not hold another operation's descriptor. The source then retries for ever without helping, and a sequential caller never meets one.
- Ccas.Load: requires the descriptor behind a tagged cell to be in the given memory map, the analogue of the pointer being live.
- Ccas.Load: also requires `WellFormed`: every descriptor in memory has untagged `current` and `new` operands. A descriptor with a tagged operand would make the source's `load` help once and then treat that operand, an ordinary pointer's word, as a descriptor. The operands are meant to be pointers to `T` values, which are untagged.
- Tagging.SetDescriptor: the `assert!` of `set_descriptor` panics on a tagged address. The model makes an untagged argument a precondition instead of a panic outcome.
- Tagging.UnsetDescriptor: the `assert!` of `unset_descriptor` panics on an untagged address. The model makes a tagged argument a precondition instead of a panic outcome.
- Ccas: the condition word is passed as its current value. The shared `Arc<AtomicUsize>` and its reads at different times are not modelled.
