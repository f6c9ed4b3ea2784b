# KeyCipher: verified model

KeyCipher turns keystrokes into ROT13-encrypted messages inside the kernel,
queues them, sends them to a peer over TLS, queues them again on the peer and
decrypts them when they are read. This project models that path in Dafny and
proves what it guarantees, and where it does not.

| file | contents |
|---|---|
| `Messages.dfy`, `Ring.dfy`, `Text.dfy`, `Selection.dfy` | shared entities, ring index arithmetic, C string routines, sequences with elements left out |
| `BoundedQueue.dfy` | the specification of a FIFO: a bounded queue with atomic effects |
| `FifoBuffer.dfy` | the FIFO as a class, for one caller at a time |
| `FifoProtocol.dfy`, `FifoTheorems.dfy`, `FifoProgress.dfy`, `FifoFlush.dfy` | the FIFO as a transition system over any number of threads and any capacity: invariant, refinement, progress, flush |
| `Cipher.dfy`, `TypingStack.dfy`, `LineEditor.dfy` | ROT13 in place, the typing stack, the key handler against a plain line editor |
| `Delivery.dfy`, `Recovery.dfy`, `Retry.dfy`, `SendOrder.dfy`, `Broadcast.dfy` | sender, connection keeper and request handlers with all failures; the peer's status after each access and the way back; what becomes of a call answered 429; the order in which calls are stored; several peers in one thread |
| `Framing.dfy`, `Chunking.dfy`, `Headers.dfy` | the request reader, its independence of how TLS cuts the stream, and the header round trip |
| `InboxMirror.dfy`, `MirrorRace.dfy`, `Handlers.dfy`, `Drain.dfy`, `Reply.dfy`, `Records.dfy` | the daemon's inbox copy with whole operations and at its accesses, the read handlers in place and on the concurrent FIFO, the reply text, the encrypted-record file |
| `EndToEnd.dfy`, `Composition.dfy` | keys to text read at the peer, over the whole of `Delivery`; the same with both queues as concurrent FIFOs |

## How it is modelled

- A thread of the FIFO advances by one access to shared state per step: `down`,
  `mutex_lock`, the slot copy, the index, `count`, `mutex_unlock`, `up`, and for
  a flush each of its five assignments. Semaphores are counters and the mutex
  is its holder. A `down` that finds no permit puts its thread to sleep; a sleeper
  may be interrupted at any time. A `sema_init` strands whoever sleeps on its
  semaphore: no later `up` wakes him, and the wait list counts as torn.
- The drift functions `FreeDrift` and `UsedDrift` measure how far the permits are
  from what they should be. They are zero in every correct state, every ordinary
  step keeps them, and a flush leaves in them exactly the permits it caught.
- In `Delivery`, every write and read of the connection, every device write and
  every reconnect may fail or be delayed. A handler serves one request and closes.
  client_connect is one step: the moments between its replacing peer->ssl and the
  end of the handshake are not told apart.
- In `InboxMirror` an add and a pop are one step each. direct.c locks nothing, so
  `MirrorRace` takes them apart, with the test and the index of an add as two loads:
  runs in which no add overlaps a pop or another add are runs of `InboxMirror`,
  others can lose a message, and two adds can together index slot 64
  (`MirrorRace.OverrunReachableIff`); a run ends there. Pops run in the one API thread and never overlap each other.
- In `EndToEnd`, message n taken from the outbox is call n of client_send_message.
  The status test of client_broadcast and the one on entry are one test there:
  either of them failing loses the message without a trace.
- In `Framing`, `Wire` holds a stream and the sizes successive `SSL_read` calls can
  deliver; the theorems are for all sizes.
- Clock, MAC address and signals are fields of the events that carry them. Key
  codes and `EV_KEY` are those of the Linux input headers, which the handler uses
  by name.

## Where the code and its documentation differ

The model follows the code.

- kernel/input_intercept.c:23 says `fifo_write` encrypts; the key is encrypted at
  line 112 before it is pushed.
- userspace/network/client.h promises that a call blocks on 429 until delivery, and
  the send loop says the same. The server closes after its answer, so a retry on the
  same connection always fails (`Retry.BlockedCallFails`, `Retry.RetryFailsRun`); it
  can succeed exactly when the keeper has put an unused connection in place
  (`Retry.SucceedsWithoutConnectIff`). Every call after a successful one fails
  (`Delivery.NextCallIsLost`, `EndToEnd.LineAfterSuccessIsNeverRead`).
- client.h says that a blocked peer does not hold up the others; client_broadcast
  sends to them one after another in one thread (`Broadcast.LaterPeersWait`).
- client.h returns -1 on error, but the message may have been stored all the same:
  `SendOrder.TwoStoredInTurn`. `EndToEnd.ReadIsTypedLessLost` counts by stores.
- kernel/keycipher.c:149 calls the flush part of READ ALL; the READ ALL handler
  never issues it, and `FifoFlush.FlushCorrectIffNothingCaught` gives the condition
  under which issuing it is safe.
- server.c searches the whole header buffer for header names, body bytes included;
  `Chunking.FieldIndependentIff` says when that matters.

## Model

| member | source | states |
|---|---|---|
| FifoProtocol.PermitsConserved | keystroke-cipher-server/kernel/fifo_buffer.c:20-61 | every access of every thread except the three overwriting ones of a flush keeps both permit accounts exactly as they were |
| FifoProtocol.KeepsStructure | keystroke-cipher-server/kernel/fifo_buffer.c:25-33 | at most one thread is inside a critical section and tail, head and count keep their relation, with its exact offset at each intermediate point, across every step, flushes included |
| FifoProtocol.TallyPositive | keystroke-cipher-server/kernel/fifo_buffer.c:22-35 | a permit account counts a thread exactly when some thread is at one of its program points |
| FifoTheorems.RunsKeepStructure | keystroke-cipher-server/kernel/fifo_buffer.c:20-77 | mutual exclusion and the ring relation hold in every run of any number of threads, whatever flushes catch |
| FifoTheorems.RunsKeepInv | keystroke-cipher-server/kernel/fifo_buffer.c:20-77 | the full invariant, permits included, holds in every run whose flushes catch no permit and nobody asleep |
| FifoTheorems.ReachableWithoutFlush | keystroke-cipher-server/kernel/fifo_buffer.c:79-89 | in every state a flush-free run reaches, an unlocked read of count lies in 0..N |
| FifoTheorems.PermitConservation | keystroke-cipher-server/kernel/fifo_buffer.c:22-58 | free, used and held permits always total N, and count is used plus readers not yet decremented plus writers not yet signalled |
| FifoTheorems.HolderHasRoom | keystroke-cipher-server/kernel/fifo_buffer.c:25-57 | a lock-holding reader sees count >= 1, a lock-holding writer sees count <= N - 1 |
| FifoTheorems.AgainMeansFull | keystroke-cipher-server/kernel/keycipher.c:91-98 | -EAGAIN changes nothing and is answered only when counted messages, claiming writers and signalling readers fill all N slots |
| FifoTheorems.TryWriteAnswersAtOnce | keystroke-cipher-server/kernel/keycipher.c:91-94 | a non-blocking write can always take its first access, which gives the state back exactly when no permit is free and takes one otherwise |
| FifoTheorems.TryWriteNeverSleeps | keystroke-cipher-server/kernel/keycipher.c:91-107 | until its thread calls again, whatever the others do, a non-blocking write is never on a wait list |
| FifoTheorems.SleeperCanLeave | keystroke-cipher-server/kernel/fifo_buffer.c:22-23 | a sleeper can be interrupted at any time, and leaves without having changed a field |
| FifoTheorems.StoreMissesLiveSlots | keystroke-cipher-server/kernel/fifo_buffer.c:27-30 | a store never hits a slot that holds a message not yet read |
| FifoTheorems.Simulates | keystroke-cipher-server/kernel/fifo_buffer.c:20-77 | each access is the step of the atomic queue that its label names: writers take effect at count++, readers at the move of head, flushes at the reset of head |
| FifoTheorems.RefinesAtomicQueue | keystroke-cipher-server/kernel/fifo_buffer.c:20-77 | every run of interleaved writers, readers and clean flushes is accepted by the atomic bounded queue, with the same calls and the same returned messages |
| FifoTheorems.WrittenIsReadThenLive | keystroke-cipher-server/kernel/fifo_buffer.c:20-61 | messages written, in lock order, equal messages read followed by the live ring contents |
| FifoTheorems.CallsFromInit | keystroke-cipher-server/kernel/fifo_buffer.c:20-77 | in every run from fifo_init whose flushes are clean, each thread's answered calls had exactly one effect each and answered with it, and at most N messages are live |
| BoundedQueue.FirstInFirstOut | keystroke-cipher-server/kernel/fifo_buffer.c:20-61 | along any accepted run without a flush, what was queued and put in comes out in order or is still queued |
| BoundedQueue.OneEffectPerAnswer | keystroke-cipher-server/kernel/fifo_buffer.c:20-61 | in any accepted run each thread's answered calls had exactly one effect each and answered with it; interrupted and -EAGAIN calls had none |
| BoundedQueue.CapacityRespected | keystroke-cipher-server/kernel/fifo_buffer.c:14-15 | no accepted run ever holds more than the capacity |
| FifoProgress.RunsWithoutCallsEnd | keystroke-cipher-server/kernel/fifo_buffer.c:20-61 | operations under way finish within a bounded number of accesses, in any order of scheduling |
| FifoProgress.NoDeadlock | keystroke-cipher-server/kernel/fifo_buffer.c:20-61 | when no thread can move, either all are outside, or only writers wait on a full ring, or only readers wait on an empty one |
| FifoProgress.ReachesRest | keystroke-cipher-server/kernel/fifo_buffer.c:20-61 | every flush-free state can be driven to such a state by finishing the operations under way |
| FifoFlush.WriteAlone | keystroke-cipher-server/kernel/fifo_buffer.c:20-39 | the seven accesses of an undisturbed fifo_write add up to the sequential operation |
| FifoFlush.TryWriteAlone | keystroke-cipher-server/kernel/keycipher.c:91-107 | an undisturbed non-blocking write adds up to the sequential operation when a permit is free, and to nothing at all when none is |
| FifoFlush.ReadAlone | keystroke-cipher-server/kernel/fifo_buffer.c:42-61 | the same for fifo_read |
| FifoFlush.FlushAlone | keystroke-cipher-server/kernel/fifo_buffer.c:63-77 | the same for fifo_flush |
| FifoFlush.FlushCorrectIffNothingCaught | keystroke-cipher-server/kernel/fifo_buffer.c:63-77 | for every interleaving, a flush restores the invariant if and only if neither sema_init runs while a permit of its kind is in flight or a thread sleeps on its semaphore; the surplus is exactly the permits caught, the stranded are exactly the sleepers not signalled since |
| FifoFlush.FlushAloneExact | keystroke-cipher-server/kernel/keycipher.c:148-151 | an undisturbed flush restores the invariant if and only if no thread holds a permit and no thread sleeps in down |
| FifoFlush.DamagePersists | keystroke-cipher-server/kernel/fifo_buffer.c:63-77 | a surplus left by a flush never disappears without another flush |
| FifoFlush.StrandedSleepsOn | keystroke-cipher-server/kernel/fifo_buffer.c:71-73 | a thread asleep when its semaphore is reset sleeps on through everything the others write or read, until a signal |
| FifoFlush.CaughtReaderUnderflows | keystroke-cipher-server/kernel/fifo_buffer.c:47-58 | a reader caught between its down and the lock takes count to -1 |
| FifoFlush.CaughtWriterOvercommits | keystroke-cipher-server/kernel/fifo_buffer.c:22-35 | a writer caught between its down and the lock leaves N + 1 permits in every later flush-free state |
| FifoFlush.UnderflowRun | keystroke-cipher-server/kernel/fifo_buffer.c:42-77 | a run from fifo_init that reaches count == -1 |
| FifoFlush.OvercommitRun | keystroke-cipher-server/kernel/fifo_buffer.c:20-77 | a run from fifo_init that reaches N + 1 permits |
| FifoFlush.LostWakeUpRun | keystroke-cipher-server/kernel/fifo_buffer.c:42-77 | a run from fifo_init in which a reader sleeps, a flush strands it, a message is written, and nobody can move while the ring holds it |
| FifoBuffer.StoredAppends | keystroke-cipher-server/kernel/fifo_buffer.c:27-31 | a write appends to the queue for every head position, wrap-around included |
| FifoBuffer.RemovedIsOldest | keystroke-cipher-server/kernel/fifo_buffer.c:52-55 | a read takes the oldest message and leaves the rest in order |
| FifoBuffer.Fifo.constructor | keystroke-cipher-server/kernel/fifo_buffer.c:7-18 | an empty queue with all permits free |
| FifoBuffer.Fifo.Write | keystroke-cipher-server/kernel/keycipher.c:91-107 | appends when there is room; otherwise -EAGAIN, interruption or sleep, with nothing changed |
| FifoBuffer.Fifo.Read | keystroke-cipher-server/kernel/fifo_buffer.c:42-61 | removes and returns the oldest message; otherwise interruption or sleep, with nothing changed |
| FifoBuffer.Fifo.Flush | keystroke-cipher-server/kernel/fifo_buffer.c:63-77 | empties the queue and resets every field |
| FifoBuffer.Fifo.Stats | keystroke-cipher-server/kernel/keycipher.c:152-157 | the used figure is the queue length and used plus free is the capacity |
| Cipher.Rot13IsHalfTurn | keystroke-cipher-server/kernel/cipher.c:19-25 | the byte map is the one that moves letters half an alphabet within their case and nothing else; it undoes itself |
| Cipher.Rot13Bijective | keystroke-cipher-server/kernel/cipher.c:19-25 | the byte map is a bijection |
| Cipher.RotatedTwice | keystroke-cipher-server/kernel/cipher.c:32-35 | two passes over any prefix restore the whole buffer |
| Cipher.Encrypt | keystroke-cipher-server/kernel/cipher.c:14-27 | the in-place loop turns every letter of the first len bytes by half the alphabet, within its case, and changes no other byte; a negative len changes nothing |
| Cipher.EncryptThenDecrypt | keystroke-cipher-server/kernel/cipher.c:14-35 | encrypting then decrypting in place gives the buffer back |
| TypingStack.Stack.Push | keystroke-cipher-server/kernel/typing_stack.c:39-49 | appends, or -1 with nothing changed when 256 characters are held |
| TypingStack.Stack.Pop | keystroke-cipher-server/kernel/typing_stack.c:51-62 | removes and returns the last character, or -1 on an empty stack |
| TypingStack.Stack.Clear | keystroke-cipher-server/kernel/typing_stack.c:76-82 | the stack is empty although its bytes stay |
| LineEditor.Handler.OnEvent | keystroke-cipher-server/kernel/input_intercept.c:79-115 | the handler, in place, does what the event function says to the stack array, top and the outbox |
| LineEditor.HandleShows | keystroke-cipher-server/kernel/input_intercept.c:79-115 | each event keeps the stack equal to the turned line of a plain line editor |
| LineEditor.EditorSimulation | keystroke-cipher-server/kernel/input_intercept.c:79-115 | for every event sequence and any stale bytes, the stack is the reference line encrypted and the outbox is the sealed lines in order |
| LineEditor.CommittedEncrypts | keystroke-cipher-server/kernel/input_intercept.c:91-115 | for every event sequence the stack holds the line with each byte turned, and every committed message has its line's clock, author and length, each byte turned, and zeros behind |
| LineEditor.KeysAreMapped | keystroke-cipher-server/kernel/input_intercept.c:54-66 | each key code gives the character the source's table names for it, and every other code none |
| LineEditor.KeyEffects | keystroke-cipher-server/kernel/input_intercept.c:79-88 | releases, repeats, unmapped keys, keys past 256 characters and a backspace on an empty line change nothing; backspace drops the last character |
| LineEditor.CharacterAppends | keystroke-cipher-server/kernel/input_intercept.c:107-113 | a mapped key appends its character to a line with room |
| LineEditor.EnterSends | keystroke-cipher-server/kernel/input_intercept.c:90-105 | Enter sends the line with its clock and author, unless its write is interrupted, and begins a new one |
| LineEditor.LinesFit | keystroke-cipher-server/kernel/typing_stack.c:44-46 | no line ever exceeds 256 characters |
| LineEditor.CommitsIgnoreHistory | keystroke-cipher-server/kernel/input_intercept.c:91-102 | committed messages depend only on the keys since the last Enter, have 0 <= len <= 256 and zeros from len on |
| LineEditor.SealOpens | keystroke-cipher-server/kernel/keycipher.c:128-133 | decrypting a committed message gives the typed line |
| Delivery.RunsKeepInv | keystroke-cipher-server/userspace/network/client.c:76-142 | the invariant of sender, connection keeper and handlers holds in every run |
| Delivery.AtMostOnce | keystroke-cipher-server/userspace/network/client.c:101-141 | no call of client_send_message is stored twice, whatever fails and however often 429 is answered |
| Delivery.ReturnZeroMeansStored | keystroke-cipher-server/userspace/network/server.c:290-319 | a call that returns 0 has its message in the inbox |
| Delivery.RetryOnlyWhenNotStored | keystroke-cipher-server/userspace/network/client.c:130-134 | while a call sleeps after 429 or resends, no handler has stored or can still store its message |
| Delivery.NextCallIsLost | keystroke-cipher-server/userspace/network/server.c:321-323 | the call after a successful one always returns -1 and is never stored, because the server closes after each answer and the keeper only polls the status |
| Delivery.SuccessLeavesClosed | keystroke-cipher-server/userspace/network/client.c:170-187 | a successful call leaves a closed connection in peer->ssl that the keeper has no reason to replace |
| Recovery.FailedAccessGoesOffline | keystroke-cipher-server/userspace/network/client.c:102-121 | a failed access ends the call with -1 and leaves the peer OFFLINE |
| Recovery.AnswerDecides | keystroke-cipher-server/userspace/network/client.c:123-141 | 429 and only 429 keeps the call, which sleeps with the peer BLOCKED; 200 returns 0 and leaves it CONNECTED, 503 returns -1 and leaves it OFFLINE, any other code returns -1 and leaves the status alone |
| Recovery.EndedCallGoesOffline | keystroke-cipher-server/userspace/network/client.c:101-141 | a call that ends otherwise than by 0, by an unknown code or at its status test leaves the peer OFFLINE |
| Recovery.BeginDecides | keystroke-cipher-server/userspace/network/client.c:78-79 | a call starts exactly when the peer is CONNECTED |
| Recovery.ConnectDecides | keystroke-cipher-server/userspace/network/client.c:20-64 | a connect leaves CONNECTED with a new connection, or OFFLINE and another try |
| Recovery.KeeperWaits | keystroke-cipher-server/userspace/network/client.c:174-187 | the keeper leaves its loop exactly when the status is not CONNECTED and never connects from inside it |
| Recovery.DeviceDecides | keystroke-cipher-server/userspace/network/server.c:289-319 | 200 for a store, 429 for a refused device write, 503 without a device, 400 for a bad request |
| Recovery.HandlerEnds | keystroke-cipher-server/userspace/network/server.c:311-324 | a handler that answers leaves its own code, one that fails leaves a dead connection, and neither touches what was stored |
| Recovery.EveryFailureCanHappen | keystroke-cipher-server/userspace/network/client.c:101-121 | each access, connect, device write and answer may succeed or fail wherever it can happen |
| Recovery.RecoversUnlessConnected | keystroke-cipher-server/userspace/network/client.c:170-187 | from every reachable state between calls with the peer not CONNECTED, the keeper can reconnect and the next call be stored and return 0 |
| Recovery.FailedCallRecovers | keystroke-cipher-server/userspace/network/client.c:101-187 | the same after every call that ended on a failed access, in every reachable state |
| Recovery.NothingUntilNextCall | keystroke-cipher-server/userspace/network/client.c:174-183 | after a call that returned 0 the keeper can neither leave its loop nor connect |
| Delivery.RetryThenSuccessThenLoss | keystroke-cipher-server/userspace/network/client.c:101-141 | a run in which a 429 is retried to success after a reconnect and the next call is lost |
| Retry.BlockedCallFails | keystroke-cipher-server/userspace/network/client.c:130-134 | from every state asleep after a 429, as long as the keeper makes no new connection, the message is never stored and the call returns -1 if it returns |
| Retry.UsedConnectionFails | keystroke-cipher-server/userspace/network/client.c:101-116 | the same for every call that has yet to write its request on a used-up connection |
| Retry.UnusedConnectionCanSucceed | keystroke-cipher-server/userspace/network/client.c:101-122 | on an unused connection some continuation without a new one returns 0 |
| Retry.SucceedsWithoutConnectIff | keystroke-cipher-server/userspace/network/client.c:101-134 | such a call can still succeed without a new connection if and only if the handler of the one in peer->ssl is still reading |
| Retry.RetryFailsRun | keystroke-cipher-server/userspace/network/client.c:130-134 | a run in which a call is answered 429, wakes, and returns -1 with nothing stored |
| SendOrder.TidyStepIff | keystroke-cipher-server/userspace/network/client.c:101-116 | the only step that can spoil the order of the stores is a request put while a handler still holds an older one, and that step always does |
| SendOrder.StoredInOrder | keystroke-cipher-server/userspace/network/client.c:101-141 | if no request is put while an older one is pending, the inbox receives the messages strictly in the order of the calls |
| SendOrder.UntidyCanReorder | keystroke-cipher-server/userspace/network/server.c:290-302 | from any other state the handlers alone can put the inbox out of order |
| SendOrder.LateStoreRun | keystroke-cipher-server/userspace/network/server.c:290-302 | a run that stores call 1 before call 0: the first reply is lost, the second call succeeds, then the first handler acts |
| SendOrder.TwoStoredInTurn | keystroke-cipher-server/userspace/network/client.c:118-122 | a run in which two successive calls are stored in order although the first returned -1 |
| Broadcast.PeerIsADeliveryRun | keystroke-cipher-server/userspace/network/client.c:153-161 | what each peer of a broadcast sees is a run of Delivery, so its theorems hold for every peer |
| Broadcast.LaterPeersWait | keystroke-cipher-server/userspace/network/client.c:153-161 | while a peer is in its call, asleep after a 429 included, no request with the message has been put to any peer behind it and none has stored it |
| Broadcast.HeldUpRun | keystroke-cipher-server/userspace/network/client.c:153-161 | a run in which the first peer sleeps after a 429 and the second, freshly connected, has been sent nothing |
| Text.FindIsFirst | keystroke-cipher-server/userspace/network/server.c:32-34 | the search returns the first match or reports that there is none |
| Text.AtoiOfDecimal | keystroke-cipher-server/userspace/network/client.c:94-98 | printing a number and converting it back gives the number, up to INT_MAX |
| Text.AtoiReads | keystroke-cipher-server/userspace/network/server.c:224-224 | blanks, an optional sign, a number up to INT_MAX and anything behind it convert to that number with its sign |
| Framing.ParseHeader | keystroke-cipher-server/userspace/network/server.c:32-47 | the pointer walk finds the first key, skips spaces and copies the line's value, cut to the output size, or leaves the output alone |
| Framing.FieldMeans | keystroke-cipher-server/userspace/network/server.c:32-47 | after the first place of the key, any number of spaces are skipped and the value runs to the end of the line or of the text, or as far as it fits |
| Framing.AbsentHeaders | keystroke-cipher-server/userspace/network/server.c:191-193 | an absent header leaves the sender unknown, the chatroom flag off, the length 0 |
| Framing.BadLengthIsBadRequest | keystroke-cipher-server/userspace/network/server.c:226-235 | a request is answered 400 exactly when its length is absent or not positive |
| Framing.Wire.Read | keystroke-cipher-server/userspace/network/server.c:208-215 | one SSL_read: any positive amount up to the request, or the end |
| Framing.FillHeader | keystroke-cipher-server/userspace/network/server.c:205-218 | the first loop ends with the blank line in the buffer, with a full buffer, or with a dry connection |
| Framing.FillBody | keystroke-cipher-server/userspace/network/server.c:238-264 | early bytes and the second loop together give exactly the declared bytes after the blank line |
| Framing.ReadRequest | keystroke-cipher-server/userspace/network/server.c:205-264 | for every cutting of the stream the handler ends as the stream alone explains, and closes only on a dry connection |
| Framing.FieldExtends | keystroke-cipher-server/userspace/network/server.c:32-47 | a header inside the block reads the same whatever bytes follow |
| Chunking.StopsAfterBlock | keystroke-cipher-server/userspace/network/server.c:207-218 | the first loop can stop exactly when the whole header block has arrived |
| Chunking.BodyIndependentOfStop | keystroke-cipher-server/userspace/network/server.c:220-264 | wherever the first loop stops, the body is the declared one, and headers of the block read the same |
| Chunking.ReadFramed | keystroke-cipher-server/userspace/network/server.c:205-264 | running both loops on any cutting of a framed request returns exactly its body |
| Chunking.FieldIndependentIff | keystroke-cipher-server/userspace/network/server.c:220-222 | a header's reading is independent of the cutting if and only if the key is in the header block or nowhere in the fullest buffer |
| Chunking.SenderDependsOnCutting | keystroke-cipher-server/userspace/network/server.c:220-220 | a concrete stream whose sender header is found or not depending on the cutting |
| Headers.BlankLineEndsBlock | keystroke-cipher-server/userspace/network/client.c:90-99 | the printed block contains no blank line before its end |
| Headers.BlockIsShort | keystroke-cipher-server/userspace/network/client.c:89-99 | the printed headers always fit their 512 bytes, so snprintf does not cut them |
| Headers.BlockText | keystroke-cipher-server/userspace/network/client.c:89-99 | the printed block is the request line, host, type, length, chatroom and sender lines in that order |
| Headers.HeaderRoundTrip | keystroke-cipher-server/userspace/network/client.c:88-99 | parsing the printed headers returns the same length, chatroom flag and sender for every length up to INT_MAX and every dotted quad |
| Headers.SendAndRead | keystroke-cipher-server/userspace/network/server.c:205-264 | a request as the client writes it is received whole, with its sender and flag, for every cutting of the stream |
| InboxMirror.Inbox.Add | keystroke-cipher-server/userspace/messaging/direct.c:23-27 | appends unless 64 messages are held |
| InboxMirror.Inbox.PopFront | keystroke-cipher-server/userspace/messaging/direct.c:29-36 | the shift loop drops exactly the first message, or returns -1 on an empty array |
| InboxMirror.LengthsConserved | keystroke-cipher-server/userspace/messaging/direct.c:23-36 | for any number of handlers and reads whose adds and pops do not overlap, the lengths of mirror and FIFO differ only by work under way, missed pops and dropped adds |
| InboxMirror.MirrorTracksFifo | keystroke-cipher-server/userspace/network/server.c:301-306 | with one handler at a time and adds and pops that do not overlap, mirror and pending adds hold the FIFO contents in order at every step unless a pop missed or an add was dropped |
| InboxMirror.MirrorAgreesUnlessMissed | keystroke-cipher-server/userspace/api/handlers.c:156-167 | under the same conditions, at every quiet moment the mirror equals the FIFO if nothing missed or dropped, and a miss without a drop, or a drop without a miss, always shows |
| InboxMirror.ViewsAreSuffixes | keystroke-cipher-server/userspace/messaging/direct.c:23-36 | for any number of handlers and readers whose adds and pops do not overlap, the FIFO is the device writes from the number of reads on and the mirror the accepted adds from the number of effective pops on |
| InboxMirror.MirrorAgreesIffSuffixesDo | keystroke-cipher-server/userspace/api/handlers.c:156-167 | for any number of handlers whose adds and pops do not overlap, at every quiet moment the mirror agrees if and only if those two suffixes do |
| InboxMirror.MirrorAgreesIff | keystroke-cipher-server/userspace/api/handlers.c:156-167 | with one handler at a time, adds and pops that do not overlap and distinct messages, it agrees if and only if misses equal drops and no message still in the device was dropped |
| InboxMirror.SerialJobsAgree | keystroke-cipher-server/userspace/network/server.c:301-306 | deliveries and reads that do not overlap keep the mirror equal to the FIFO and drop nothing |
| InboxMirror.DivergentRun | keystroke-cipher-server/userspace/api/handlers.c:156-167 | a read between the device write and the add leaves a message in the mirror for good |
| InboxMirror.DroppedRun | keystroke-cipher-server/userspace/messaging/direct.c:25-25 | on a full inbox, a delivery between a device read and its pop is dropped from the mirror |
| InboxMirror.DroppedRunFromEmpty | keystroke-cipher-server/userspace/messaging/direct.c:25-25 | the same run from the empty inbox |
| MirrorRace.RunsStayInRange | keystroke-cipher-server/userspace/messaging/direct.c:23-36 | in every interleaving, up to the first store outside the array if there is one, the count stays in 0..64 and every index of a pop inside the array |
| MirrorRace.TestsApartStayInside | keystroke-cipher-server/userspace/messaging/direct.c:25-26 | in runs in which no add makes its test while another is past its own, no add leaves the array, however the pops overlap |
| MirrorRace.OverrunReachableIff | keystroke-cipher-server/userspace/messaging/direct.c:25-26 | from every state with nobody inside, the waiting adds and pops can be scheduled so that an add indexes past the array if and only if two or more adds wait, count plus adds exceed 64, and there is room or a pop is due |
| MirrorRace.OverrunRun | keystroke-cipher-server/userspace/messaging/direct.c:25-26 | a run from the empty inbox that gets there: 63 deliveries, then two handlers around an API read |
| MirrorRace.ApartReduces | keystroke-cipher-server/userspace/messaging/direct.c:23-36 | every run in which no add overlaps a pop or another add is a run of the model with whole adds and pops, whatever else falls between their accesses |
| MirrorRace.ApartAgreesIff | keystroke-cipher-server/userspace/api/handlers.c:156-167 | in such runs, with one handler at a time, the array agrees with the device under exactly the condition of InboxMirror.MirrorAgreesIff |
| MirrorRace.BalanceMoves | keystroke-cipher-server/userspace/messaging/direct.c:23-36 | the length law is broken by exactly one kind of access: the store of a count loaded before another store |
| MirrorRace.OverlapCanSpoil | keystroke-cipher-server/userspace/network/server.c:166-168 | wherever a run without overlap has an add with room and another operation unfinished, they can be scheduled to lose an add; at a quiet moment without misses and drops array and device then differ |
| MirrorRace.AddInsidePopRun | keystroke-cipher-server/userspace/messaging/direct.c:29-36 | a run with one handler and one reader: an add between shift and decrement leaves the read message in the mirror and not the new one, with nothing missed or dropped |
| MirrorRace.TwoAddsRun | keystroke-cipher-server/userspace/messaging/direct.c:23-27 | a run in which two adds load the same count: the device holds both messages, the mirror one |
| Handlers.InRead | keystroke-cipher-server/kernel/keycipher.c:115-134 | returns the oldest message with its first len bytes turned back and all else as it was, or waits, leaving the queue unchanged |
| Handlers.EmittedWholeIff | keystroke-cipher-server/userspace/api/handlers.c:15-22 | a line is emitted with its author and clock, and whole if and only if it has fewer than 256 characters; at 256 its text is emitted empty |
| Handlers.ReadNext | keystroke-cipher-server/userspace/api/handlers.c:206-215 | in place, one call at a time: one round answers the oldest message, with its author, clock and decrypted text, after whatever deliveries came first, or ends by a signal when there is none |
| Handlers.ReadAll | keystroke-cipher-server/userspace/api/handlers.c:180-215 | in place, one call at a time, for any count k and any deliveries between the reads: the oldest messages in order, each with its author, clock and decrypted text, the rest left, the mirror equal; short of k only when the inbox ran dry |
| Drain.CountIsLive | keystroke-cipher-server/kernel/fifo_buffer.c:84-84 | the count read without the lock is the number of live messages, writers between count++ and up included |
| Drain.DrainsOldest | keystroke-cipher-server/userspace/api/handlers.c:180-215 | from a count of k, in every interleaving with writers, the first k reads are the k oldest messages in order, and after them exactly the later messages are left |
| Drain.NeverBlocksForever | keystroke-cipher-server/userspace/api/handlers.c:206-208 | before its k answers the handler is never inside a read when nobody can move, although it may sleep for a message counted but not signalled |
| Drain.EmitsOldest | keystroke-cipher-server/userspace/api/handlers.c:206-215 | the entries of the reply are the k oldest messages in order, each with its author, clock and decrypted text |
| Reply.Build | keystroke-cipher-server/userspace/api/handlers.c:202-218 | the strcat calls stay inside the buffer if and only if the whole reply is shorter than it, and then leave exactly that reply |
| Reply.ReplyLength | keystroke-cipher-server/userspace/api/handlers.c:202-218 | the reply is as long as its entries together plus one per entry and one, or two for none |
| Reply.FieldsUnderTheirNames | keystroke-cipher-server/userspace/api/handlers.c:15-22 | in each entry author, timestamp, data and len stand behind their own names, in that order |
| Reply.NumbersReadBack | keystroke-cipher-server/userspace/api/handlers.c:15-22 | timestamp and len are printed as decimals that read back, with a minus for a negative timestamp |
| Reply.ArraysOfTexts | keystroke-cipher-server/userspace/api/handlers.c:202-218 | none, one and two entries are put in brackets with a comma between |
| Reply.EntryNotCut | keystroke-cipher-server/userspace/api/handlers.c:15-22 | an entry never exceeds 384 characters, so snprintf into 512 does not cut it |
| Reply.PieceIsCut | keystroke-cipher-server/userspace/api/handlers.c:15-22 | an entry is copied whole, or its first 511 characters when it has more |
| Reply.TwentyOneFit | keystroke-cipher-server/userspace/api/handlers.c:202-218 | twenty-one messages always fit json[8192] |
| Reply.TwentySixLongLinesOverrun | keystroke-cipher-server/userspace/api/handlers.c:202-218 | twenty-six lines of 255 characters from a dotted-quad sender never do, although the FIFO holds 64 |
| Reply.OverrunExample | keystroke-cipher-server/userspace/api/handlers.c:202-218 | twenty-six concrete messages whose reply does not fit |
| Records.PairsByIndex | keystroke-cipher-server/userspace/inbox_terminal.c:85-97 | in every interleaving of any number of handlers with the terminal, the n-th pair shown is the n-th record and the n-th accepted message |
| Records.PairsAlignedIff | keystroke-cipher-server/userspace/inbox_terminal.c:85-115 | the first n + 1 pairs each set a message beside its own record if and only if none of the first n + 1 records was passed by a later one while they were accepted |
| Records.PassedMeans | keystroke-cipher-server/userspace/network/server.c:279-302 | a record is passed by a later one exactly when its message was refused, is still to be written, or was accepted after it |
| Records.AlignedPairTurns | keystroke-cipher-server/userspace/inbox_terminal.c:102-115 | in an aligned pair of a message of fewer than 256 characters the record starts with its encrypted text, which turns into the plaintext; behind it, and for 256 characters from the start, the record is zero |
| Records.RecordHoldsText | keystroke-cipher-server/userspace/network/server.c:282-285 | a record holds the text of a message of fewer than 256 characters and zeros behind it, and only zeros for 256 |
| Records.AlignedLineShows | keystroke-cipher-server/userspace/inbox_terminal.c:102-115 | an aligned pair of a committed line shows the line and, beside it, the line with each byte turned; nothing of a line of 256 characters |
| Records.CrossingRun | keystroke-cipher-server/userspace/network/server.c:166-168 | two handlers that cross between record and device write show both pairs wrong with nothing refused |
| Records.SerialIsInTurn | keystroke-cipher-server/userspace/network/server.c:279-302 | with one handler at a time the n-th device write is for the n-th record |
| Records.SourceIsShifted | keystroke-cipher-server/userspace/network/server.c:279-302 | then an accepted message is as many places behind its record as attempts were refused before it |
| Records.PairAlignedIff | keystroke-cipher-server/userspace/inbox_terminal.c:85-115 | with one handler at a time, pair n is aligned if and only if none of the first n + 1 attempts was refused |
| Records.NoRefusalAligns | keystroke-cipher-server/userspace/inbox_terminal.c:102-115 | with one handler at a time and no refusal, every record shown starts with the encrypted text and turns into the plaintext beside it |
| Records.OneRefusalShifts | keystroke-cipher-server/userspace/network/server.c:279-302 | with one handler at a time, one refused attempt shifts every later pair by one |
| EndToEnd.SendsAreADeliveryRun | keystroke-cipher-server/userspace/messaging/direct.c:61-84 | the client, connections and handlers of every run of the whole path make a run of Delivery, so its theorems hold of it |
| EndToEnd.OutboxIsTyped | keystroke-cipher-server/kernel/input_intercept.c:79-115 | everything ever written to the outbox, decrypted, is what the reference editor commits |
| EndToEnd.ReadingsAreStoredLines | keystroke-cipher-server/kernel/keycipher.c:115-134 | in every run, whatever fails and however late handlers store, the n-th reading is the line of the n-th store, unaltered, and no line is read twice |
| EndToEnd.ReadingsCarryLines | keystroke-cipher-server/kernel/keycipher.c:115-134 | that reading has the text of the line, its length and the clock of its Enter |
| EndToEnd.StoreReplacesAuthor | keystroke-cipher-server/userspace/network/server.c:273-302 | a store appends the taken message with the author replaced and everything else as it was |
| EndToEnd.LineAfterSuccessIsNeverRead | keystroke-cipher-server/userspace/network/server.c:321-323 | the line taken after a call that returned 0 never reaches the reader |
| EndToEnd.ReadIsTypedLessLost | keystroke-cipher-server/userspace/messaging/direct.c:61-84 | read and under way are, in order, the committed lines less exactly those whose call ended without a store, when no request is put while an older one is pending |
| EndToEnd.TypedIsEnteredLessInterrupted | keystroke-cipher-server/kernel/input_intercept.c:91-102 | the committed lines are the lines entered less exactly those whose fifo_write was interrupted |
| EndToEnd.EnteredIsPressed | keystroke-cipher-server/kernel/input_intercept.c:90-105 | one line is entered for every press of Enter |
| EndToEnd.ReadWithinTyped | keystroke-cipher-server/userspace/messaging/direct.c:61-84 | both losses together: entered, less interrupted, less unstored |
| EndToEnd.ReadEqualsTyped | keystroke-cipher-server/userspace/messaging/direct.c:61-84 | what was read and is under way equals what was entered if and only if no write was interrupted and no call ended unstored |
| EndToEnd.DeliveredWhenIdle | keystroke-cipher-server/kernel/keycipher.c:115-134 | when all queues are empty the reader has exactly the committed lines whose calls were stored |
| EndToEnd.ReturnDropsAtMostOne | keystroke-cipher-server/userspace/network/client.c:101-141 | a call that ends takes away its own message if that was not stored, and nothing otherwise |
| EndToEnd.OneLineArrives | keystroke-cipher-server/userspace/messaging/direct.c:61-84 | a run from two key presses to the peer's reader: A and Enter arrive as an a with the clock of the Enter, stored as n on the way |
| Composition.RunsStayLinked | keystroke-cipher-server/kernel/keycipher.c:55-134 | every run of the path on two concurrent FIFOs, access by access, is a run of the path on atomic queues, and the live rings are those queues at every moment |
| Composition.StepsHaveEffects | keystroke-cipher-server/kernel/keycipher.c:55-134 | every step the path can take on atomic queues has an effect on one FIFO that its contents allow, or concerns neither |
| Composition.ReadIsTypedLessLost | keystroke-cipher-server/kernel/keycipher.c:55-134 | the end-to-end result with the live rings of the concurrent FIFOs in place of the queues |

## Left out

- `FifoFlush.StrandedSleepsOn`: a permit given back while threads sleep is taken by whichever of them, or of newcomers, runs first; the order of the wait list is not modelled, nor what a signal to a stranded thread does to a torn list, which can lose threads that fell asleep later or find some that were lost.
- `EndToEnd.ReadIsTypedLessLost`: is for one peer; the author of a message is not compared, since the server overwrites it.
- `MirrorRace.ApartReduces`: accesses are taken in the order of the program, and the copy of a message, which is several hundred bytes, as one of them; overlapping copies can also leave a message mixed from two. What follows a store outside the array is not modelled.
- `InboxMirror.MirrorAgreesIff`: only the API thread reads the inbox device; inbox_terminal reads it too, without touching the mirror.
- `Records.PairsByIndex`: the file starts empty, the terminal is the sole reader of the device, and its count and reads succeed; a failed count lets it read the file before the record is there.
- `Handlers.ReadAll`: runs on the sequential FIFO with whole deliveries between two reads; `Drain` states the same for writers at any point of their calls. Messages have 0 <= len <= 256; a peer-supplied length outside that range is not modelled.
- `Delivery.AtMostOnce`: client_send_message is modelled as steps on values, not as a class, because its accesses interleave with the other threads.
- `Reply.Build`: what the program does after a strcat past the end of its buffer is undefined and not modelled.
- `Framing.ReadRequest`: allocation failure of the body buffer is not modelled.
- `Headers.HeaderRoundTrip`: `%zu` and `atoi` are modelled up to INT_MAX, beyond which the C result is undefined; the model's conversion wraps.
- -EINVAL and -EFAULT of the device calls: message structures are passed whole.
- TLS, sockets, device registration, `/proc` formatting and module start and exit: only their success or failure is visible.
- The chatroom device, its buffer and its API: the device is never registered and the handlers are stubs.
- The outbox log of direct_send_loop: its waiting flag is cleared whatever the outcome, so it states nothing about delivery.
- `total_*` counters, typing_stack_peek and typing_stack_drain: unused on the path from key to reader.
- The web front end, JSON escaping, terminal drawing, and peers.conf parsing.
