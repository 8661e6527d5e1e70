# Verification of the media platform's concurrent and bit-level core

This project models the parts of the Rockchip media process platform (and of the
OpenMAX component shipped with it) whose behaviour is hard to see from one
function, and proves what they promise.

* **Cluster scheduler** (`NodeWord`, `Cluster`, `ClusterInv`, `ClusterTheorems`,
  `ClusterWindows`, `ClusterProgress`, `ClusterLiveness`, `ClusterOutcome`, `ClusterChances`,
  `ClusterOrder`). Nodes are triggered, queued, run by workers and detached
  through one state word changed by compare-and-swap. The model is a transition
  system with one action for each access to shared memory; any number of client
  threads, workers, priorities and batch sizes. History values (`place`, `posts`,
  `takes`, `owed`) are carried along and tested by no action.
* **Bit streams** (`Bits`, `Emulation`, `BitWriter`, `BitReader`, `BitStream`). The
  writer and the reader of H.264 style streams: bit packing, Exp-Golomb codes,
  emulation prevention, end of payload.
* **Buffer groups** (`Buffers`, `BufferInv`, `BufferTheorems`, `BufferRuns`,
  `BufferGets`, `BufferService`). The reference-counted allocator. One API call is one step of a
  state function; the class `BufferService.Service` does the same step by step in
  place and is proved to make exactly that step.
* **Slot pool** (`Slots`, `SlotRuns`, `SlotPool`) and the **operation log** of slots and buffers (`LogRing`, `Rings`).
* **Containers**: the circular list (`NodeList`), the semaphore queue over it as a
  transition system (`PullQueue`), the string dictionary (`Dictionary`), the OpenMAX
  port rings with the component's loop (`PortRings`).
* **Arithmetic**: `axb_div_c` and `mpp_log2` (`ScaledDivision`), the 64-bit packer
  with alignment (`BitPut`) and the H.265 decoder's table packed with it (`RpsTable`).

`Common` holds what several of them share. `dafny verify dfyconfig.toml` checks everything.

## What was found

Properties the design suggests and the code does not have. Each has a lemma with a
concrete case, or the exact condition under which the property holds.

* A trigger that lands between the word read after a node's function and the swap
  that idles the node is lost (`TriggerCanBeLost`); a run loses a trigger exactly
  when that happens (`TriggerLostIff`). It stays lost until the node is scheduled
  again (`LostStep`, `LostForGood`), and a detach that lands there waits as long
  (`DetachCanWaitInVain`, `WaitsOn`).
* A detach that lands between that read and the swap of a signalled node leaves a
  worker retrying for ever and the detach waiting for ever (`DetachCanHang`,
  `StuckExactly`, `StuckForever`). With the other case it is all that keeps a detach
  from its post (`DetachOnItsWay`).
* Queued nodes wait for ever when every worker sleeps or hangs like that, and only
  then (`GoesOnIff`, `NoDeadlock`, `QueueCanHang`). Otherwise the calls under way come to
  an end whatever the interleaving (`NoEndlessRun`), with every waiting node started
  (`EveryWaitingStarts`) and every detach posted that no schedule in the idle window has
  kept from it (`EveryDetachPosted`).
* That somebody goes on, or that a detach is on its way, does not mean that the node
  can still be started or posted (`NoStartAhead`, `NoPostAhead`); `StartIff` and
  `PostIff` say when it can.
* Two threads may detach one node at the same time; one of them never returns
  (`TwoDetaches`, `OneDetachWaits`).
* `mpp_writer_put_ue` writes a wrong code for most values from 2^24 - 1 on
  (`LongUeFails`); `LongUeIff` says for which values and positions it is right. From
  2^31 - 1 on its counting loop shifts by 32, and on machines that take shift counts
  modulo 32 it does not end (`CountingEnds`); 2^32 - 1 wraps (`UeWraps`).
* The writer tests the byte count before a byte and not behind it, so a byte and its
  escape can be stored behind the caller's `size` (`OnePast`), exactly when the escaped
  payload is longer, and without an error exactly while only its last byte is
  (`PastLimitIff`). A whole stream one byte too long, or two, is reported as
  stored (`AcceptedIff`, `PastTheEnd`).
* When the data, without the zero bytes at its end, ends in an escape with nothing to
  protect, `mpp_has_more_rbsp_data` answers 1 even behind the payload, unless that escape
  is all that is left; `HasMoreRbspData` states its answer for all data.
* After the group id counter has wrapped, id 0, which the code means to avoid, can be
  given: exactly when the search starts at it or finds everything before it taken
  (`ZeroId`), which runs of calls reach (`ZeroIdHappens`).
* A group put while an unmarked buffer with bytes in it is outstanding stays behind
  for good (`OrphanFate`, `KeptRun`).
* Two allocators (`MPP/mpp/osal/allocator/allocator_std.c:86-96`,
  `MPP/mpp/osal/allocator/allocator_ext_dma.c:111-124`) clear the size of an imported
  buffer when they release it, before the group subtracts it. An orphan that lost bytes so is never destroyed, and every other
  dying one is, with its last put (`DyingStep`, `LeftoverRun`).
* A put that leaves an orphan without bytes puts the group again. With empty buffers
  waiting in it that second put can run into itself and go on with the group it has destroyed
  (`EmptyBufferBreaks`); `BreaksIff` says exactly when, and only imports of size 0 bring it
  about (`NeverBreaks`).
* Behind every put that destroys its group, `mpp_buffer_ref_dec` reads the callback and
  gives back the lock of the destroyed record (`RefDec`); `DestroysIff` says which puts
  those are.
* Past 32 bits the maximum of the totals is the largest wrapped total (`PeakRun`).
* Enqueueing a slot that is already linked counts two queue uses for one link, and
  nothing takes the second one back (`EnqueueExcess`, `ExcessHolds`).
* `mpp_list::del_by_key` never finds a lone element and does not return when the first
  of several elements has another key (`DelByKey`, `SearchEndsIff`).
* `MppQueue::flush` keeps the semaphore posts of the elements it drops, so later pulls
  come back empty without waiting (`EmptyAfterFlush`), exactly when the semaphore
  counts more than the list holds or the flag is set (`EmptyPullIff`). Two flushes can
  both find the flag clear, and both post (`TwoFlushes`).
* `axb_div_c` can return a value of the wrong sign: 1073741823 * 3 / 1 gives
  -1073741827 (`WrongSign`). `SignLost` tells beforehand, from the factors, exactly when
  (`AxbDivC`).
* The packer stores the word behind the caller's as soon as these are full, and not
  before (`PutBits`, `OneBehind`). The table of the H.265 decoder fills its 400 words to
  the last bit (`SliceTable`).
* A whole word put at a word's start is shifted by 64; with shift counts modulo 64 it is
  put twice, so that only 0 can be put so (`PutBits`, `PutTwice`).
* The component returns an output header for every input header, whether or not a frame
  was decoded (`Process`).
* The comment above `dictionary_set` says a key cannot be in the dictionary without a
  value; the code keeps such keys, and so does the model.

## What clients must do

Preconditions beyond the types are the code's own assertions or these rules. A thread is
inside one cluster call at a time; a node is triggered and detached only after its first
attach, and attached again only when its detach has finished. A buffer group is used
until it is put, and a put that `Breaks` is not made. A slot is flagged and enqueued
only by a client that holds it, and a queue-use flag is cleared only by a client that
set one. `mpp_writer_put_ue` gets no number from 2^31 - 1 on but 2^32 - 1, and
`mpp_writer_put_se` the values whose number is below that. The fifo interface of the
list reads only what it wrote. `axb_div_c` is not called with the smallest 32-bit
integer, nor where the quotient is 2^31 with a product of -2^31.

## Model

| member | source | states |
|---|---|---|
| `NodeWord.TestsReadFlags` | MPP/mpp/mpp/base/mpp_cluster.cpp:242-251 | the mask tests on the 32-bit word read exactly the flags of the model |
| `NodeWord.BitsInjective` | MPP/mpp/mpp/base/mpp_cluster.cpp:259-262 | equal words mean equal flags, so a swap that compares words compares flags |
| `NodeWord.SwapsChangeFlags` | MPP/mpp/mpp/base/mpp_cluster.cpp:248-252 | each exclusive-or, or and and of the code changes the flags it names and no other |
| `ClusterInv.NextInv` | MPP/mpp/mpp/base/mpp_cluster.cpp:205-312 | every action of every thread keeps the whole invariant: places, lists, counts, semaphores, wake-ups |
| `ClusterInv.ReachableInv` | MPP/mpp/mpp/base/mpp_cluster.cpp:205-584 | the invariant holds in every state any interleaving can reach |
| `ClusterTheorems.StatesExclusive` | MPP/mpp/mpp/base/mpp_cluster.cpp:236-262 | exactly one of IDLE, WAIT and RUN is set, and the branch that would store 0 is never taken with a word that is still current |
| `ClusterTheorems.LinkedOnce` | MPP/mpp/mpp/base/mpp_cluster.cpp:422-443 | a task is in at most one list, at one place: in a queue only while WAIT, in one worker's list only while RUN |
| `ClusterTheorems.WaitingNodeKept` | MPP/mpp/mpp/base/mpp_cluster.cpp:264-275 | a waiting node is queued or in the hands of one thread about to queue or run it; none is dropped |
| `ClusterOrder.QueueStep` | MPP/mpp/mpp/base/mpp_cluster.cpp:264-275 | whatever happens, a queue stays as it is, or one node joins it at its end, or its first one leaves to the worker inside; the one that joins comes from a call on that queue or is sent back to its own |
| `ClusterOrder.TakenInOrder` | MPP/mpp/mpp/base/mpp_cluster.cpp:422-427 | of two nodes in one queue the one in front is taken first, over any run, whatever is triggered meanwhile |
| `ClusterOrder.MovesUp` | MPP/mpp/mpp/base/mpp_cluster.cpp:422-427 | a queued node moves up by exactly the number of nodes that leave, and by nothing else |
| `ClusterOrder.CallQueue` | MPP/mpp/mpp/base/mpp_cluster.cpp:221-225 | a schedule is for the queue its node has when it begins |
| `ClusterOrder.AttachTo` | MPP/mpp/mpp/base/mpp_cluster.cpp:205-219 | an attach gives the node its queue, idle and valid, and schedules it there |
| `ClusterOrder.WorkerListStep` | MPP/mpp/mpp/base/mpp_cluster.cpp:437-509 | a worker's list grows at its end by the node just taken and is run and emptied from its front |
| `ClusterOrder.BatchesKept` | MPP/mpp/mpp/base/mpp_cluster.cpp:445-450 | in no reachable state does a worker hold more than its batch |
| `ClusterOrder.ScanBounds` | MPP/mpp/mpp/base/mpp_cluster.cpp:407-450 | a scan begins at the highest priority, and ends before a full batch only behind the last queue |
| `ClusterOrder.HigherFirst` | MPP/mpp/mpp/base/mpp_cluster.cpp:407-450 | a scan gets to a lower priority only past queues that it found empty on the way |
| `ClusterOrder.AcceptedTrigger` | MPP/mpp/mpp/base/mpp_cluster.cpp:241-280 | an accepted trigger claims an idle node for its queue, or signals a running one and goes on to wake a worker |
| `ClusterOrder.WakesFirst` | MPP/mpp/mpp/base/mpp_cluster.cpp:567-584 | the wake-up signals the first worker marked idle, and touches no other |
| `ClusterTheorems.RunsOnOneWorker` | MPP/mpp/mpp/base/mpp_cluster.cpp:466-487 | a node's function never runs on two workers at once |
| `ClusterTheorems.AssertionsHold` | MPP/mpp/mpp/base/mpp_cluster.cpp:415-437 | queue counts equal list lengths, and every assertion of the code holds in every reachable state (but the racy pair at 523-524) |
| `ClusterTheorems.NoMissedWakeup` | MPP/mpp/mpp/base/mpp_cluster.cpp:567-584 | when every worker sleeps unsignalled and no wake-up call is under way, every queue is empty |
| `ClusterTheorems.OnlyLocksBlock` | MPP/mpp/mpp/base/mpp_cluster.cpp:542-565 | a worker step is blocked by nothing but a held queue lock or a missing signal |
| `ClusterTheorems.HolderGoesOn` | MPP/mpp/mpp/base/mpp_cluster.cpp:412-447 | whoever holds a queue lock can take its next step |
| `ClusterProgress.NoDeadlock` | MPP/mpp/mpp/base/mpp_cluster.cpp:489-584 | while a node is queued some worker, or the thread waking one, has an enabled step that changes something, unless every worker sleeps or hangs and one of them hangs |
| `ClusterProgress.StepChanges` | MPP/mpp/mpp/base/mpp_cluster.cpp:489-515 | an enabled worker step changes the state exactly when it is not the retry of a swap whose word is gone |
| `ClusterProgress.GoesOnIff` | MPP/mpp/mpp/base/mpp_cluster.cpp:489-584 | in every reachable state somebody goes on if and only if not all workers sleep unsignalled or hang with no wake-up under way |
| `ClusterProgress.QueueCanHang` | MPP/mpp/mpp/base/mpp_cluster.cpp:502-507 | the other case is reachable: one hanging worker, a second node queued behind it for ever, nobody who goes on |
| `ClusterLiveness.StepFalls` | MPP/mpp/mpp/base/mpp_cluster.cpp:205-584 | every step of a worker or of a call under way that changes something makes the work left fall |
| `ClusterLiveness.NoEndlessRun` | MPP/mpp/mpp/base/mpp_cluster.cpp:205-584 | no interleaving goes on for ever: every infinite run keeps beginning calls, waking without a signal, or repeating steps that change nothing |
| `ClusterLiveness.Settles` | MPP/mpp/mpp/base/mpp_cluster.cpp:205-584 | from every state the steps under way can be carried on until none changes anything |
| `ClusterOutcome.SettledIff` | MPP/mpp/mpp/base/mpp_cluster.cpp:205-584 | that is so if and only if every worker sleeps unsignalled or hangs and every call left waits for a post that is not there |
| `ClusterOutcome.SettledMeans` | MPP/mpp/mpp/base/mpp_cluster.cpp:205-584 | settled without a hanging worker: queues are empty, every node rests or is closed, every trigger still owed is lost or came after the post, every invalid node is posted unless its trigger is lost, every waiting detach is behind a lost trigger or a second detach |
| `ClusterOutcome.EveryWaitingStarts` | MPP/mpp/mpp/base/mpp_cluster.cpp:412-487 | whatever the interleaving, when the cluster has settled without a hang every node that waited has been started |
| `ClusterOutcome.EveryDetachPosted` | MPP/mpp/mpp/base/mpp_cluster.cpp:288-309 | and every detach was posted, unless a schedule of its node hit the window of the idle branch |
| `ClusterChances.StartIff` | MPP/mpp/mpp/base/mpp_cluster.cpp:412-487 | some continuation starts a queued node if and only if not every worker hangs |
| `ClusterChances.NoStartAhead` | MPP/mpp/mpp/base/mpp_cluster.cpp:567-584 | a step ahead is no start ahead: a reachable state in which a thread goes on, a node is queued, and no continuation starts it |
| `ClusterChances.PostIff` | MPP/mpp/mpp/base/mpp_cluster.cpp:288-309 | some continuation posts a detach that has cleared the flag if and only if its node is in no hanging worker's hands and not every worker hangs |
| `ClusterChances.NoPostAhead` | MPP/mpp/mpp/base/mpp_cluster.cpp:502-507 | a reachable state in which the node of a detach waits in its queue and no continuation posts it |
| `ClusterChances.OneDetachWaits` | MPP/mpp/mpp/base/mpp_cluster.cpp:288-309 | of two detaches under way on one node, at most one returns, over any run |
| `ClusterChances.TwoDetaches` | MPP/mpp/mpp/base/mpp_cluster.cpp:293-299 | two threads that find the node attached are both let in |
| `ClusterTheorems.PostedOnceAndFree` | MPP/mpp/mpp/base/mpp_cluster.cpp:490-496 | the detach semaphore is posted at most once an attach; then the node is in no list and no worker is on it |
| `ClusterTheorems.NeverStartsAgain` | MPP/mpp/mpp/base/mpp_cluster.cpp:288-309 | after the post no continuation without a new attach runs the node's function again |
| `ClusterWindows.LostExactly` | MPP/mpp/mpp/base/mpp_cluster.cpp:489-527 | a trigger is owed a run on an idle node exactly while the word shows IDLE and SIGNAL together |
| `ClusterProgress.LostStep` | MPP/mpp/mpp/base/mpp_cluster.cpp:205-312 | a lost trigger stays lost under every action but the swap of another schedule of the node, and ends with that one |
| `ClusterProgress.LostForGood` | MPP/mpp/mpp/base/mpp_cluster.cpp:489-527 | over any run without such a schedule the node stays idle and signalled, and at its end no worker runs its function |
| `ClusterWindows.TriggerKept` | MPP/mpp/mpp/base/mpp_cluster.cpp:236-280 | otherwise an accepted trigger keeps the node waiting, or running with SIGNAL, or about to start |
| `ClusterWindows.LostRun` | MPP/mpp/mpp/base/mpp_cluster.cpp:489-527 | over any run from a sound state, a schedule hits the window if and only if a trigger is lost or about to be |
| `ClusterWindows.TriggerLostIff` | MPP/mpp/mpp/base/mpp_cluster.cpp:489-527 | a run loses a trigger if and only if some schedule of it lands between the deciding read and the idling swap |
| `ClusterWindows.TriggerCanBeLost` | MPP/mpp/mpp/base/mpp_cluster.cpp:516-522 | such a run exists: the node is left idle and signalled, with nothing queued |
| `ClusterWindows.StuckExactly` | MPP/mpp/mpp/base/mpp_cluster.cpp:502-507 | a worker starts to retry a swap that cannot succeed exactly when a detach clears VALID between its read and its swap |
| `ClusterWindows.StuckForever` | MPP/mpp/mpp/base/mpp_cluster.cpp:502-507 | from then on that worker never moves and the detach is never posted |
| `ClusterWindows.DetachOnItsWay` | MPP/mpp/mpp/base/mpp_cluster.cpp:297-304 | with its schedule done, a detach not yet posted is on its way to the post if and only if no trigger of the node is lost or about to be and no worker hangs on it |
| `ClusterWindows.DetachCanHang` | MPP/mpp/mpp/base/mpp_cluster.cpp:297-304 | the hanging detach is reachable |
| `ClusterProgress.WaitsOn` | MPP/mpp/mpp/base/mpp_cluster.cpp:297-304 | a detach behind a lost trigger waits over any run in which nobody schedules the node again |
| `ClusterProgress.DetachCanWaitInVain` | MPP/mpp/mpp/base/mpp_cluster.cpp:516-522 | a detach that lands in the window of the idle branch gets there: it waits, and no other call is under way |
| `Emulation.EscapeHarmless` | MPP/mpp/mpp/base/mpp_bitwrite.c:126-158 | behind any two stored zero bytes comes a byte above 3, or an inserted 3 |
| `Emulation.EscapeDue` | MPP/mpp/mpp/base/mpp_bitwrite.c:133-147 | every inserted byte is a 3 behind two zero bytes and in front of a byte below 4 |
| `Emulation.EscapeLength` | MPP/mpp/mpp/base/mpp_bitwrite.c:126-158 | stored bytes are payload bytes plus inserted ones |
| `Emulation.UnescapeEscape` | MPP/mpp/mpp/base/mpp_bitread.c:30-48 | the reader's dropping of escapes undoes the writer's insertion, from any agreeing pair of states, and leaves no dangling escape |
| `Emulation.ZerosBound` | MPP/mpp/mpp/base/mpp_bitwrite.c:127-147 | the zero count the escape test relies on never passes 2 |
| `BitWriter.Writer.constructor` | MPP/mpp/mpp/base/mpp_bitwrite.c:45-64 | a new writer holds no bits; its memory is the caller's bytes and the two behind them |
| `BitWriter.Writer.PastLimitIff` | MPP/mpp/mpp/base/mpp_bitwrite.c:22-30 | bytes are stored behind the caller's if and only if the escaped payload is longer than the size; the status misses it exactly while its last byte was due within; never more than two |
| `BitWriter.OnePast` | MPP/mpp/mpp/base/mpp_bitwrite.c:112-159 | a writer without any room stores one byte and reports success |
| `BitWriter.Writer.StoredPrefix` | MPP/mpp/mpp/base/mpp_bitwrite.c:112-159 | overflow or not, the stored bytes are the first ones of the escaped payload, and all of them without overflow |
| `BitWriter.Writer.StoredHarmless` | MPP/mpp/mpp/base/mpp_bitwrite.c:133-147 | the stored bytes of every writer, overflowed or not, hold no start code |
| `BitWriter.Writer.StoredDue` | MPP/mpp/mpp/base/mpp_bitwrite.c:133-147 | and holds an escape only where one is due |
| `BitWriter.Writer.StoreByte` | MPP/mpp/mpp/base/mpp_bitwrite.c:133-154 | one byte is stored, behind a 3 exactly when two zero bytes were counted and it is below 4 |
| `BitWriter.Writer.PutBits` | MPP/mpp/mpp/base/mpp_bitwrite.c:112-159 | the payload grows by the value's bits (merged, for a value too wide), whole bytes are stored escaped, and the status is raised exactly when a byte was due past the limit |
| `BitWriter.Writer.PutUe` | MPP/mpp/mpp/base/mpp_bitwrite.c:183-212 | for every number the counting loop ends on: below 2^24 - 1 the payload grows by the Exp-Golomb code; above, by what the long branch writes |
| `BitWriter.Writer.PutSe` | MPP/mpp/mpp/base/mpp_bitwrite.c:214-224 | a positive value v is put as the code of 2v - 1, any other as that of -2v, and takes the length of that code |
| `BitWriter.Writer.Trailing` | MPP/mpp/mpp/base/mpp_bitwrite.c:176-181 | stop bit and zeros to the byte; the status tells whether all of it was stored |
| `BitWriter.TrailingShape` | MPP/mpp/mpp/base/mpp_bitwrite.c:176-181 | a one behind the payload, then as few zeros as fill the byte |
| `BitWriter.Writer.BitCount` | MPP/mpp/mpp/base/mpp_bitwrite.c:231-234 | the reported bits are the payload bits plus eight for every inserted byte |
| `BitWriter.ExpGolombSigned` | MPP/mpp/mpp/base/mpp_bitwrite.c:236-249 | the counted length is the length of the code of 2v - 1 for a positive v, and of -2v for any other |
| `BitWriter.CountBits` | MPP/mpp/mpp/base/mpp_bitwrite.c:188-188 | the shifting loop finds the bit length of every value below 2^31 |
| `BitWriter.CountingEnds` | MPP/mpp/mpp/base/mpp_bitwrite.c:188-188 | where shift counts are taken modulo 32 the loop ends if and only if the value is below 2^31 |
| `BitWriter.UeWraps` | MPP/mpp/mpp/base/mpp_bitwrite.c:183-212 | the number 2^32 - 1 wraps to the value 0 and is put as one zero bit |
| `BitWriter.UePutLength` | MPP/mpp/mpp/base/mpp_bitwrite.c:183-212 | right or wrong, the code of a number below 2^31 - 1 takes its length |
| `BitWriter.UePutExact` | MPP/mpp/mpp/base/mpp_bitwrite.c:190-211 | short and middle branches write the code |
| `BitWriter.LongUeIff` | MPP/mpp/mpp/base/mpp_bitwrite.c:202-208 | a long code, of a value from 2^24 and below 2^31, is right if and only if the second copy of the leading part agrees with the low part and is covered by the waiting bits |
| `BitWriter.LongUeFails` | MPP/mpp/mpp/base/mpp_bitwrite.c:202-208 | the value 2^24 is written wrong behind any payload |
| `BitReader.Reader.UpdateCurByte` | MPP/mpp/mpp/base/mpp_bitread.c:25-51 | the next payload byte is loaded past an escape; it fails exactly when none is left |
| `BitReader.Reader.ReadBits` | MPP/mpp/mpp/base/mpp_bitread.c:61-82 | the next bits, first one highest; refused past 31 or past the end, and then nothing but a last part is lost |
| `BitReader.Reader.SkipBits` | MPP/mpp/mpp/base/mpp_bitread.c:113-128 | moves past bits, exactly when there are enough |
| `BitReader.Reader.ReadLongBits` | MPP/mpp/mpp/base/mpp_bitread.c:89-106 | 32 bits come out whole; past 32 the two parts are merged as the code does |
| `BitReader.Reader.ShowBits` | MPP/mpp/mpp/base/mpp_bitread.c:151-162 | what a read would return, with the context unchanged |
| `BitReader.Reader.LeadingZeros` | MPP/mpp/mpp/base/mpp_bitread.c:190-195 | the zeros before the first one are counted; it fails only in front of no code |
| `BitReader.Reader.ReadUe` | MPP/mpp/mpp/base/mpp_bitread.c:184-209 | succeeds exactly when the code of some 32-bit number stands in front, and takes that code and its number |
| `BitReader.Reader.ReadSe` | MPP/mpp/mpp/base/mpp_bitread.c:216-229 | in front of the code of k the value is (k + 1) / 2 for odd k and -(k / 2) for even k; it succeeds exactly in front of a code |
| `BitReader.Reader.HasMoreRbspData` | MPP/mpp/mpp/base/mpp_bitread.c:237-256 | more exactly when a one stands behind the next bit, and its exact answer for data ending in a dangling escape |
| `BitReader.CodesPrefixFree` | MPP/mpp/mpp/base/mpp_bitread.c:184-209 | no two codes stand in front of the same bits, so the number read is the only one possible |
| `BitReader.CodeForm` | MPP/mpp/mpp/base/mpp_bitread.c:184-209 | the code of 2^k - 1 + r, for r below 2^k, is k zeros, a one and the k bits of r, as section 9.1 of ITU-T H.264 defines it |
| `Bits.BitsAt` | MPP/mpp/mpp/base/mpp_bitread.c:61-82 | bit strings start with the highest bit |
| `Bits.WordsAt` | MPP/mpp/mpp/base/mpp_bitread.c:61-82 | or, and and masks work bit by bit |
| `BitStream.RoundTrip` | MPP/mpp/mpp/base/mpp_bitread.c:184-256 | any fields and codes the writer accepts, those of every stream that fits among them, are read back as put, in order; the end is reported behind the last one and nowhere before |
| `BitStream.AcceptedIff` | MPP/mpp/mpp/base/mpp_bitwrite.c:22-30 | the writer accepts exactly the streams that fit, are one byte too long, or two when the last byte is escaped |
| `BitStream.PastTheEnd` | MPP/mpp/mpp/base/mpp_bitwrite.c:22-30 | the empty payload is accepted without any room, and its stop bit stored |
| `BitStream.AskMore` | MPP/mpp/mpp/base/mpp_bitread.c:237-256 | at any point of a stored stream the answer is whether payload bits remain, and nothing is lost by asking |
| `BitStream.GetItems` | MPP/mpp/mpp/base/mpp_bitread.c:61-229 | items are read back in order from any stored stream that starts with them |
| `BitStream.Store` | MPP/mpp/mpp/base/mpp_bitwrite.c:112-224 | the stored bytes are the escaped payload with its trailing bits, whenever the payload is accepted |
| `BitStream.StreamBits` | MPP/mpp/mpp/base/mpp_bitwrite.c:126-181 | the stored bytes read back as exactly payload, stop bit and padding |
| `BitStream.StreamsDiffer` | MPP/mpp/mpp/base/mpp_bitwrite.c:112-181 | different payloads make different streams |
| `BitStream.NoStartCode` | MPP/mpp/mpp/base/mpp_bitwrite.c:133-147 | no stored stream contains 000000, 000001 or 000002, and 000003 only as an inserted escape |
| `BitStream.OnlyDueEscapes` | MPP/mpp/mpp/base/mpp_bitwrite.c:133-147 | a stored stream holds an escape only behind two zero bytes and in front of a byte below 4 |
| `BufferTheorems.IdFresh` | MPP/mpp/mpp/base/mpp_buffer_impl.cpp:835-861 | an id given out is held by no live group |
| `BufferTheorems.FreeExists` | MPP/mpp/mpp/base/mpp_buffer_impl.cpp:850-856 | with fewer groups than ids the wrapping search finds a free one |
| `BufferTheorems.ZeroId` | MPP/mpp/mpp/base/mpp_buffer_impl.cpp:841-856 | id 0 can be given if and only if the counter has wrapped, 0 is free, and the search starts at it or finds every id up to it taken |
| `BufferTheorems.ZeroIdHappens` | MPP/mpp/mpp/base/mpp_buffer_impl.cpp:835-861 | groups that come and go twice around the counter are a run that ends where id 0 is given |
| `BufferTheorems.NextInv` | MPP/mpp/mpp/base/mpp_buffer_impl.cpp:233-711 | every API call keeps lists, counters, use marks, usage and totals in agreement |
| `BufferTheorems.EveryRun` | MPP/mpp/mpp/base/mpp_buffer_impl.cpp:233-711 | the books are right after every run of calls from the start |
| `BufferTheorems.OneList` | MPP/mpp/mpp/base/mpp_buffer_impl.cpp:298-329 | a live buffer's id leads to its own group, orphaned or not; it is on the used list exactly while referenced, else on the unused one, and on no other |
| `BufferTheorems.RefsStep` | MPP/mpp/mpp/base/mpp_buffer_impl.cpp:450-513 | no call frees a referenced buffer but the put of its last reference, and the count is exact |
| `BufferTheorems.ReleaseInv` | MPP/mpp/mpp/base/mpp_buffer_impl.cpp:260-296 | a release that does not break takes one buffer, and the orphan exactly with its last one when all its bytes were given back; the books stay right |
| `BufferTheorems.PutGroupInv` | MPP/mpp/mpp/base/mpp_buffer_impl.cpp:944-1002 | putting a group frees its unused buffers and leaves an orphan exactly when used ones remain |
| `BufferTheorems.ClearGroupInv` | MPP/mpp/mpp/base/mpp_buffer_impl.cpp:611-645 | a clear frees what is unused and marks every other buffer of the group, and only those |
| `BufferTheorems.GetInv` | MPP/mpp/mpp/base/mpp_buffer.cpp:62-95 | a get returns an unmarked buffer large enough, unused before or new; nothing only when none fits and none can be made |
| `BufferGets.FoundExactly` | MPP/mpp/mpp/base/mpp_buffer_impl.cpp:521-554 | the search takes the first unused buffer large enough; in an internal group exactly the smaller ones in front of it are released, or all when none fits; in an external group none is |
| `BufferGets.GetRefusedIff` | MPP/mpp/mpp/base/mpp_buffer.cpp:62-95 | a get comes back without a buffer if and only if the size is 0, or no unused one fits and the group is external, nothing can be allocated, the size is above the limit, or the used buffers alone reach the count limit |
| `BufferGets.SmallOnesMakeRoom` | MPP/mpp/mpp/base/mpp_buffer_impl.cpp:544-545 | at the count limit, unused buffers that are all too small go, and the new one takes their place |
| `BufferGets.NewWithinLimits` | MPP/mpp/mpp/base/mpp_buffer_impl.cpp:354-366 | no call makes a buffer past a count or size limit that is set |
| `BufferGets.ImportRefusedIff` | MPP/mpp/mpp/base/mpp_buffer.cpp:25-60 | an import is refused for no other reason than its kind, an internal group, a limit reached, or the allocator |
| `BufferGets.OrderStep` | MPP/mpp/mpp/base/mpp_buffer_impl.cpp:247-258 | no call changes the order in which unused buffers wait, and one that joins them waits last |
| `BufferInv.SearchInv` | MPP/mpp/mpp/base/mpp_buffer_impl.cpp:521-554 | the search takes the first unused buffer that is large enough, keeps every used one and leaves what it does not free unchanged |
| `BufferInv.DestroyBooks` | MPP/mpp/mpp/base/mpp_buffer_impl.cpp:1004-1035 | a group without buffers has both counters at zero, as the code asserts, and is destroyed with the books right |
| `BufferInv.UsageCovers` | MPP/mpp/mpp/base/mpp_buffer_impl.cpp:283-284 | the usage an orphan is tested by covers every live buffer of the group and the bytes lost |
| `BufferRuns.HeldRun` | MPP/mpp/mpp/base/mpp_buffer_impl.cpp:450-513 | over any run that puts no last reference a held buffer stays, on its group's used list, with the balance of the calls as its count |
| `BufferRuns.NeverReturned` | MPP/mpp/mpp/base/mpp_buffer_impl.cpp:611-645 | after a clear, however long ago, a get never returns a buffer made before it |
| `BufferRuns.OrphanFate` | MPP/mpp/mpp/base/mpp_buffer_impl.cpp:965-997 | a group put with outstanding buffers is dying if and only if it is a misc group or all of them were marked, and kept if and only if it is none and an unmarked one has bytes |
| `BufferRuns.DyingStep` | MPP/mpp/mpp/base/mpp_buffer_impl.cpp:487-508 | a dying orphan stays so until the put of its last buffer; with it the orphan goes if and only if all its bytes were given back, and otherwise stays for good |
| `BufferTheorems.DestroysIff` | MPP/mpp/mpp/base/mpp_buffer_impl.cpp:497-508 | a put destroys the buffer's group if and only if it is the last put to an orphan whose bytes have all come back |
| `BufferRuns.DyingRun` | MPP/mpp/mpp/base/mpp_buffer_impl.cpp:283-287 | until that put it is alive with all its buffers held, over any run |
| `BufferRuns.KeptRun` | MPP/mpp/mpp/base/mpp_buffer_impl.cpp:499-502 | an orphan with bytes in an unmarked buffer is never reclaimed, over any run |
| `BufferRuns.LeftoverRun` | MPP/mpp/mpp/base/mpp_buffer_impl.cpp:260-287 | an orphan without buffers whose allocator cleared the size before it was subtracted stays over any run |
| `BufferRuns.EmptyBufferBreaks` | MPP/mpp/mpp/base/mpp_buffer_impl.cpp:956-998 | a legal run with one imported buffer of size 0 after which a put runs the destruction of the group into itself |
| `BufferRuns.BreaksIff` | MPP/mpp/mpp/base/mpp_buffer_impl.cpp:283-287 | a put does so if and only if it releases the last bytes of an orphan while two empty buffers wait there, or one and no other buffer is held |
| `BufferRuns.NeverBreaks` | MPP/mpp/mpp/base/mpp_buffer_impl.cpp:956-998 | over any run whose imports are not empty no put does so |
| `BufferRuns.ClearThenPut` | MPP/mpp/mpp/base/mpp_buffer_impl.cpp:611-645 | cleared, and put before anything else is acquired, a group is gone or dying |
| `BufferRuns.TotalsStep` | MPP/mpp/mpp/base/mpp_buffer_impl.cpp:695-711 | while the sums fit 32 bits the total is exact and the maximum follows it |
| `BufferRuns.TotalsRun` | MPP/mpp/mpp/base/mpp_buffer_impl.cpp:695-711 | over a run whose sums fit 32 bits the total is exact and the maximum is the largest total passed |
| `BufferRuns.PeakRun` | MPP/mpp/mpp/base/mpp_buffer_impl.cpp:695-711 | over every run the total is the sum wrapped at 32 bits, and the maximum the largest such total at an addition |
| `BufferService.Service.NextFree` | MPP/mpp/mpp/base/mpp_buffer_impl.cpp:850-856 | the search loop ends, at the first free id counting around |
| `BufferService.Service.GetGroupId` | MPP/mpp/mpp/base/mpp_buffer_impl.cpp:835-861 | the counter until it wraps, then a free id |
| `BufferService.Service.GroupGet` | MPP/mpp/mpp/base/mpp_buffer_impl.cpp:863-930 | a new, empty group of the given mode, kind and marks under an id no live group has |
| `BufferService.Service.PutBuffer` | MPP/mpp/mpp/base/mpp_buffer_impl.cpp:233-296 | in place: reuse, or release and, for an orphan left without bytes, the group put that follows |
| `BufferService.Service.PutGroupNow` | MPP/mpp/mpp/base/mpp_buffer_impl.cpp:956-998 | in place: release of the unused list, destruction or orphaning |
| `BufferService.Service.GroupPut` | MPP/mpp/mpp/base/mpp_buffer.cpp:292-300 | the step of a group put, keeping the books |
| `BufferService.Service.GroupClear` | MPP/mpp/mpp/base/mpp_buffer_impl.cpp:620-641 | the step of a clear, keeping the books |
| `BufferService.Service.LimitConfig` | MPP/mpp/mpp/base/mpp_buffer.cpp:366-378 | size and count limit are the given ones, and the books stay right, whatever the group already holds |
| `BufferService.Service.CreateBuffer` | MPP/mpp/mpp/base/mpp_buffer_impl.cpp:354-433 | refused exactly at a limit or without memory, else a new buffer of that size at the end of the right list |
| `BufferService.Service.Import` | MPP/mpp/mpp/base/mpp_buffer.cpp:25-60 | refused for another kind or an internal group, else created, empty or not |
| `BufferService.Service.GetUnused` | MPP/mpp/mpp/base/mpp_buffer_impl.cpp:515-558 | the search loop makes the search that `FoundExactly` describes, in place |
| `BufferService.Service.Get` | MPP/mpp/mpp/base/mpp_buffer.cpp:62-95 | the step of a get that `GetInv` and `GetRefusedIff` describe; the buffer returned is large enough, unmarked and held once |
| `BufferService.Service.RefInc` | MPP/mpp/mpp/base/mpp_buffer_impl.cpp:298-329 | the step of a reference, taking an unused buffer into use |
| `BufferService.Service.RefDec` | MPP/mpp/mpp/base/mpp_buffer_impl.cpp:461-513 | the step of a put that does not break; an error exactly when there is no reference; and whether the callback and the lock it then uses are those of a destroyed group |
| `Slots.EnqueueOk` | MPP/mpp/mpp/base/mpp_buf_slot.cpp:831-848 | enqueueing keeps slots in at most one queue, every use count at its flags, its link and its enqueues while linked, and the order of every queue |
| `Slots.EnqueuedInOrder` | MPP/mpp/mpp/base/mpp_buf_slot.cpp:831-848 | whatever is enqueued, linked or not, each queue holds what entered it after what left it, in order |
| `Slots.DequeueOk` | MPP/mpp/mpp/base/mpp_buf_slot.cpp:850-874 | dequeueing unlinks the head, whose use count is never zero, so the error branch is dead |
| `Slots.ClrFlagOk` | MPP/mpp/mpp/base/mpp_buf_slot.cpp:542-565 | a slot released by a clear is in no queue and flagged by nobody |
| `Slots.EnqueueExcess` | MPP/mpp/mpp/base/mpp_buf_slot.cpp:831-848 | enqueueing a linked slot leaves one use nobody will clear, and only that does |
| `Slots.DequeueExcess` | MPP/mpp/mpp/base/mpp_buf_slot.cpp:850-874 | a dequeue takes back the use its link counted, and no excess |
| `Slots.FlagExcess` | MPP/mpp/mpp/base/mpp_buf_slot.cpp:797-829 | setting and clearing flags never changes the excess of any slot |
| `Slots.ExcessHolds` | MPP/mpp/mpp/base/mpp_buf_slot.cpp:546-551 | such a slot is never released |
| `SlotPool.Pool.constructor` | MPP/mpp/mpp/base/mpp_buf_slot.cpp:671-699 | a new pool has clean slots, empty queues and no references |
| `SlotPool.Pool.GetUnused` | MPP/mpp/mpp/base/mpp_buf_slot.cpp:769-795 | the first slot not in use, clean, or none when the count says all are used |
| `SlotPool.Pool.SetFlag` | MPP/mpp/mpp/base/mpp_buf_slot.cpp:797-809 | one use set, and readiness as the use says: gone with a hardware output, there with the codec's mark, else as before; everything else as before |
| `SlotPool.Pool.ClrFlag` | MPP/mpp/mpp/base/mpp_buf_slot.cpp:811-829 | one use cleared, and readiness as the use says; the slot is released exactly when it is then ready and without a use, with its buffer reference, and then no queue has it |
| `SlotRuns.ReleasedIff` | MPP/mpp/mpp/base/mpp_buf_slot.cpp:440-490 | a slot that was taken is released by exactly the clear behind which the last mark says ready and every use is answered, over any history |
| `SlotRuns.PacketReleased` | MPP/mpp/mpp/codec/mpp_dec.cpp:887-888 | made ready, set and cleared for hardware input, a packet slot is released |
| `SlotRuns.SetWrites` | MPP/mpp/mpp/base/mpp_buf_slot.cpp:463-466 | a slot set to hardware output is being written, used and not ready |
| `SlotRuns.NotHandedOut` | MPP/mpp/mpp/base/mpp_buf_slot.cpp:850-874 | over any run no dequeue hands out a slot set to hardware output, until that is cleared, the codec marks it ready, or it gets default information |
| `SlotPool.Pool.CheckUnused` | MPP/mpp/mpp/base/mpp_buf_slot.cpp:542-565 | release of frame, buffer and slot under exactly the code's test |
| `SlotPool.Pool.Enqueue` | MPP/mpp/mpp/base/mpp_buf_slot.cpp:831-848 | the slot leaves the queue it is in and goes to the end of the given one; a pending entry is withdrawn |
| `SlotPool.Pool.Dequeue` | MPP/mpp/mpp/base/mpp_buf_slot.cpp:850-874 | the head leaves exactly when it is ready; what entered a queue and was not withdrawn is always what left it and what it holds, in order |
| `SlotPool.Pool.SetFrame` | MPP/mpp/mpp/base/mpp_buf_slot.cpp:896-925 | the first frame makes the slot's copy, later ones keep it |
| `SlotPool.Pool.SetBuffer` | MPP/mpp/mpp/base/mpp_buf_slot.cpp:944-956 | the old reference is put and one to the new buffer taken: the pool holds one reference a slot |
| `SlotPool.Pool.SetEos` | MPP/mpp/mpp/base/mpp_buf_slot.cpp:890-895 | the end mark is recorded, used or not, and every count and queue stays right |
| `SlotPool.Pool.DefaultInfo` | MPP/mpp/mpp/base/mpp_buf_slot.cpp:1031-1058 | a slot being filled gets a frame and is ready |
| `SlotPool.Pool.UnusedCount` | MPP/mpp/mpp/base/mpp_buf_slot.cpp:1083-1094 | the answer is the number of slots not in use |
| `LogRing.Ring.Write` | MPP/mpp/mpp/base/mpp_buf_slot.cpp:351-373 | the ring holds the newest entries |
| `LogRing.NewestAre` | MPP/mpp/mpp/base/mpp_buf_slot.cpp:351-373 | the newest entries are the last ones, as many as there is room for |
| `LogRing.Ring.Dump` | MPP/mpp/mpp/base/mpp_buf_slot.cpp:375-389 | all kept entries come out oldest first, and read meets write as the code asserts |
| `NodeList.List.Insert` | MPP/mpp/osal/mpp_list.cpp:65-81 | four pointer writes put a node into the ring at its place and keep next and prev inverse |
| `NodeList.List.Remove` | MPP/mpp/osal/mpp_list.cpp:130-140 | unlinking keeps the ring of the others and closes the node on itself |
| `NodeList.List.AddAtHead` | MPP/mpp/osal/mpp_list.cpp:83-97 | the element comes first; unchanged on failure |
| `NodeList.List.AddAtTail` | MPP/mpp/osal/mpp_list.cpp:99-113 | the element comes last; unchanged on failure |
| `NodeList.List.DelAtHead` | MPP/mpp/osal/mpp_list.cpp:148-157 | the first element leaves, at most its size is copied; an error exactly when empty |
| `NodeList.CopiedCells` | MPP/mpp/osal/mpp_list.cpp:115-128 | a read copies from the start, never more than asked for nor than there is |
| `NodeList.List.DelAtTail` | MPP/mpp/osal/mpp_list.cpp:159-168 | the last element leaves |
| `NodeList.List.FifoWr` | MPP/mpp/osal/mpp_list.cpp:185-199 | the element is appended with its size in front |
| `NodeList.List.FifoRd` | MPP/mpp/osal/mpp_list.cpp:214-226 | the first element comes out with the size it was written with |
| `NodeList.List.Flush` | MPP/mpp/osal/mpp_list.cpp:284-299 | every element is handed to the destructor once, in head order |
| `NodeList.List.DelByKey` | MPP/mpp/osal/mpp_list.cpp:258-273 | for any number of turns of its loop: whether it has ended by then, and with what; the first of several elements goes, a lone one never |
| `NodeList.SearchEndsIff` | MPP/mpp/osal/mpp_list.cpp:264-270 | the search ends if and only if the list has at most one element or its first one has the key |
| `PullQueue.NextInv` | MPP/mpp/osal/mpp_queue.cpp:31-64 | every access to the semaphore, the flag and the list keeps posts, threads on their way and elements in balance |
| `PullQueue.ListCovered` | MPP/mpp/osal/mpp_queue.cpp:31-54 | semaphore, pulls past their wait and pushes before their post cover the list at every step |
| `PullQueue.PullGoesOn` | MPP/mpp/osal/mpp_queue.cpp:42-54 | no pull stays blocked while an element is queued and nobody else is about to take or post one |
| `PullQueue.InOrder` | MPP/mpp/osal/mpp_queue.cpp:31-64 | elements leave in push order, pulled or flushed |
| `PullQueue.FlushPostsFirst` | MPP/mpp/osal/mpp_queue.cpp:56-64 | no flush drops elements before one has posted |
| `PullQueue.NoEmptyPull` | MPP/mpp/osal/mpp_queue.cpp:42-54 | without flushes and failed pushes no pull is ever empty: one past its wait has an element |
| `PullQueue.EmptyPullIff` | MPP/mpp/osal/mpp_queue.cpp:42-64 | in every reachable state with all threads idle, pulls alone can make one come back empty if and only if the flag is set or the semaphore counts more than the list; the difference is flushes that posted, elements they dropped, failed pushes and pulls the flag let pass, less the empty pulls |
| `PullQueue.PullsInARow` | MPP/mpp/osal/mpp_queue.cpp:42-54 | pulls in a row come back empty exactly as often as they outnumber the elements |
| `PullQueue.TwoFlushes` | MPP/mpp/osal/mpp_queue.cpp:56-64 | two flushes that both find the flag clear both post |
| `PullQueue.EmptyAfterFlush` | MPP/mpp/osal/mpp_queue.cpp:56-64 | after a push, a flush and a new push, the second pull comes back empty, with the flag clear |
| `Dictionary.ComputeHash` | MPP/mpp/utils/dictionary.c:118-137 | the loop computes the hash the slots are compared by |
| `Dictionary.KnownHash` | MPP/mpp/utils/dictionary.c:118-137 | the hash of the one-letter key a is 0xca2e9442, the published value of this hash |
| `Dictionary.XorAt` | MPP/mpp/utils/dictionary.c:118-137 | its exclusive or works bit by bit |
| `Dictionary.KeyCount` | MPP/mpp/utils/dictionary.c:255-301 | the count of occupied slots is the number of keys |
| `Dictionary.EmptySlot` | MPP/mpp/utils/dictionary.c:289-294 | with fewer keys than slots one slot is empty |
| `Dictionary.Dict.constructor` | MPP/mpp/utils/dictionary.c:150-166 | an empty map of at least the smallest size |
| `Dictionary.Dict.Find` | MPP/mpp/utils/dictionary.c:264-280 | the slot of a key, or proof that no slot has it |
| `Dictionary.Dict.Get` | MPP/mpp/utils/dictionary.c:209-227 | the map's value, or the default exactly when the key is absent |
| `Dictionary.Dict.Grow` | MPP/mpp/utils/dictionary.c:68-101 | twice the slots and the same map; unchanged on failure |
| `Dictionary.Dict.FreeSlot` | MPP/mpp/utils/dictionary.c:292-294 | the wrapping search ends at an empty slot |
| `Dictionary.Dict.Set` | MPP/mpp/utils/dictionary.c:255-301 | the map updated at one key; fails only without a key or without memory to grow, and then changes nothing |
| `Dictionary.Dict.Unset` | MPP/mpp/utils/dictionary.c:314-349 | the map without the key |
| `PortRings.BufferList.SetEntry` | Documentions/4.OpenMAX/OMX_CONF_MyComponent_Alt.c:260-268 | a header joins at the write position unless the list is full; write is read moved by the size, around the end |
| `PortRings.BufferList.GetEntry` | Documentions/4.OpenMAX/OMX_CONF_MyComponent_Alt.c:279-285 | the oldest header leaves |
| `PortRings.BufferList.FlushEntries` | Documentions/4.OpenMAX/OMX_CONF_MyComponent_Alt.c:295-304 | every header goes back once, oldest first |
| `PortRings.Component.Transition` | Documentions/4.OpenMAX/OMX_CONF_MyComponent_Alt.c:1192-1322 | the step of the state table; leaving Pause or Executing for Idle, and Pause for Executing, returns every header, and no other transition any |
| `PortRings.TransitionsExactly` | Documentions/4.OpenMAX/OMX_CONF_MyComponent_Alt.c:1192-1322 | the state changes exactly along the transitions of the OpenMAX standard, those to Loaded and Idle only with the ports as they must be |
| `PortRings.InvalidStays` | Documentions/4.OpenMAX/OMX_CONF_MyComponent_Alt.c:1192-1322 | an invalid component stays invalid over all commands |
| `PortRings.Component.PortCommand` | Documentions/4.OpenMAX/OMX_CONF_MyComponent_Alt.c:1323-1446 | flush and stop return every header of their ports, oldest first; stop disables and restart enables them |
| `PortRings.Component.Execute` | Documentions/4.OpenMAX/OMX_CONF_MyComponent_Alt.c:1191-1461 | a command makes the step of the state table and accepts its own header exactly when there is room, and no other |
| `PortRings.Component.Process` | Documentions/4.OpenMAX/OMX_CONF_MyComponent_Alt.c:1469-1524 | in executing state with both ports enabled the oldest header of each port is returned, decoded or not |
| `PortRings.Component.Turn` | Documentions/4.OpenMAX/OMX_CONF_MyComponent_Alt.c:1178-1525 | one turn of the loop: the command, then the buffers, on the state both leave |
| `PortRings.Component.ComponentThread` | Documentions/4.OpenMAX/OMX_CONF_MyComponent_Alt.c:1178-1525 | for any commands up to the first stop: the headers accepted on a port are those of the commands that found room, in order; each was returned, in order, or is still queued behind |
| `ScaledDivision.TestIsExact` | MPP/mpp/osal/mpp_common.cpp:68-69 | the wrapped test holds exactly when the product fits 32 bits |
| `ScaledDivision.ScaledClose` | MPP/mpp/osal/mpp_common.cpp:104-106 | the computed magnitude is not above a*b/c and below it by less than b/2^shift + 1 |
| `ScaledDivision.ProductFits` | MPP/mpp/osal/mpp_common.cpp:104-106 | the product in the long way stays below 2^32 |
| `ScaledDivision.SaturatesHigh` | MPP/mpp/osal/mpp_common.cpp:101-102 | saturation happens only when the magnitude of a*b/c is above 2^30 |
| `ScaledDivision.LosesBits` | MPP/mpp/osal/mpp_common.cpp:93-94 | shifting up and down again changes the value exactly when bits were lost |
| `ScaledDivision.Normalised` | MPP/mpp/osal/mpp_common.cpp:93-107 | both shift loops and the three operations behind them |
| `ScaledDivision.AxbDivC` | MPP/mpp/osal/mpp_common.cpp:58-108 | exact while the product fits; else saturated, 2^32 short, or within the bound; of the wrong sign if and only if the product does not fit, the guard holds, and the larger factor over c times the smaller one is 2^31 or more |
| `ScaledDivision.SignLostIff` | MPP/mpp/osal/mpp_common.cpp:101-107 | where the product does not fit, the sign is wrong if and only if the tests a caller can make beforehand say so |
| `ScaledDivision.WrongSign` | MPP/mpp/osal/mpp_common.cpp:105-106 | one such case: 1073741823 * 3 / 1 comes out as -1073741827 |
| `ScaledDivision.Log2` | MPP/mpp/osal/mpp_common.cpp:30-44 | 2^n <= v < 2^(n+1) for every v but 0, which gives 0 |
| `BitPut.Packer.PutBits` | MPP/mpp/mpp/base/mpp_bitput.c:33-52 | the number in the words grows by the value's low bits at the position, which moves by their count; earlier and later words stay, the one behind the caller's until these are full; past the limit nothing happens; the state stays right unless a whole word other than 0 is put at a word's start |
| `BitPut.Packer.constructor` | MPP/mpp/mpp/base/mpp_bitput.c:21-31 | an empty packer over any number of caller's words and the one behind them, which is not written |
| `BitPut.OneBehind` | MPP/mpp/mpp/base/mpp_bitput.c:47-51 | two puts of 32 bits fill a packer of one word and write the word behind it |
| `BitPut.PutTwice` | MPP/mpp/mpp/base/mpp_bitput.c:46-51 | with shift counts modulo 64 a whole word put at a word's start is put in two places |
| `BitPut.Packer.PutAlign` | MPP/mpp/mpp/base/mpp_bitput.c:54-75 | the position ends at the next multiple of the block, or where steps of eight bits first reach the end of the words; the bits in between are all the flag's |
| `BitPut.Packer.Offset` | MPP/mpp/mpp/base/mpp_bitput.c:58-59 | the masks compute the position within the block, for powers of two up to 2048 |
| `RpsTable.SliceTable` | MPP/mpp/mpp/hal/rkdec/h265d/hal_h265d_com.c:313-361 | every field of the table at its place in the number, behind each other; the 400 words are full to the last bit and the word behind them is written |
| `RpsTable.LongTermAt` | MPP/mpp/mpp/hal/rkdec/h265d/hal_h265d_com.c:323-327 | long-term picture k is at bit 32 * k |
| `RpsTable.CountsAt` | MPP/mpp/mpp/hal/rkdec/h265d/hal_h265d_com.c:329-333 | the two counts of set i are at bit 1024 + 384 * i |
| `RpsTable.PicAt` | MPP/mpp/mpp/hal/rkdec/h265d/hal_h265d_com.c:334-350 | picture j of set i is at bit 1032 + 384 * i + 17 * j, those before the current one first, and empty behind the last |
| `RpsTable.FieldAt` | MPP/mpp/mpp/hal/rkdec/h265d/hal_h265d_com.c:323-361 | each field can be read back from its place, whatever stands around it |

## Left out

- Device and system work: ioctls, display and camera access, codecs, allocator back ends, timers, tracing, environment variables, log text and file dumps.
- The task ports, the decoder configuration trie, the capability tables and the text converters.
- Cluster: creation and stop of worker threads, the server that shares clusters between clients, and time stamps; the racy pair of assertions at lines 523-524 is not a property.
- Cluster: lock sections of the queue and the wake-up loop are single actions where no other thread can see inside them; spurious wake-ups are modelled. `ClusterLiveness` bounds runs without them.
- ClusterTheorems.AssertionsHold: says nothing about the assertion pair behind the idling swap, which another thread can invalidate before it is tested.
- BitWriter.Writer.constructor: the memory behind the caller's buffer is part of the writer, so what else would live there is not modelled.
- BitWriter.CountBits: values from 2^31 on, where the code shifts a 32-bit value by 32, which C leaves undefined.
- Bit writer: the raw puts and the two raw align functions, which do not track zero bytes; negative lengths and values.
- BitReader.Reader.ReadLongBits: past 32 bits it only states how the two parts are merged, which is what the code does, since they overlap there.
- Bit reader: lengths below zero and the long skip.
- Buffer groups: groups and buffers are records named by id and serial number in two maps of the service object, so pointer aliasing and the reuse of freed memory are not captured; the hash chains behind the id search and the two lists of groups are left out.
- Buffer groups: the table of misc groups, forced clean-up at exit, callbacks, logs, the mapping of memory, index and offset fields, and interleavings inside one call. Of the allocators only whether a release clears the size is modelled.
- BufferService.Service.RefDec: a put that `Breaks`, where `put_group` runs into itself, has no next state; exactly which ones do is proved. What the use of a destroyed group's callback and lock does, behind other puts, is not modelled.
- BufferRuns.OrphanFate: an orphan whose unmarked outstanding buffers are all empty is neither dying nor kept; its end depends on the order of the puts.
- BufferService.Service.GroupGet: fewer than 2^32 live groups, without which the id search would not end.
- Buffer sizes and usage are unbounded, where the code has the width of a pointer.
- Slots: growth after the first setup, ready with a changed count, reset, the frame description and its alignment rules; a pool without a free slot aborts in the code and answers None here.
- Slots: buffers and frames are names; destroying a frame and putting a buffer are foreign calls, counted in `held`.
- NodeList.List.DelByKey: the loop is given a number of turns, since it may not end.
- List: the key interface but for deletion, the condition signal at the end of a flush, and byte layout: a size written in front of an element is one cell.
- Queue: the list insertion of a push and the clearing of a flush are one step each, as if they held the lock, which they do not take.
- Dictionary: failing copies of strings; characters are unsigned.
- PortRings: allocation and freeing of list entries, marks, decoding, event callbacks, pipes and timeouts; whether ports become populated in time is a parameter of the command.
- ScaledDivision.AxbDivC: the smallest 32-bit integer as an argument, whose negation overflows.
- BitPut.Packer.PutBits: C leaves a shift by 64 undefined; the count is taken modulo 64 here. More than 64 bits are not put.
- BitPut.Packer.PutAlign: blocks that are no power of two, or larger than 2048 bits; no caller has one.
- BitPut.Packer.constructor: the memory behind the caller's words is part of the packer, so what else would live there is not modelled.
- RpsTable.SliceTable: values are as converted to 64 bits, a set has at most fifteen pictures, and the copying of the table and the call without new sets are left out.
- The ring of delayed frees, the ini file parser and the memory pools.
