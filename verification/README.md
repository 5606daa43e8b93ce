# A Dafny model of the relay and of the event-loop core it stands on

The repository is a small DNS relay built on a vendored copy of libuv. This project models the
logic of both and proves what it is for. `dafny verify dfyconfig.toml` checks everything.

| files | what they model |
|---|---|
| `rb_shape`, `rb_links`, `rb_fixup`, `rb_tree` | the intrusive red-black tree: pointer assignments in loops, against a ghost tree |
| `heap`, `timer` | the pointer-linked binary heap, and the timers kept in it |
| `utf8`, `punycode`, `idna` | the UTF-8 decoder and the Punycode encoder, with 32-bit arithmetic, against the decoder of RFC 3492 |
| `threadpool`, `threadpool_inv`, `threadpool_steps`, `threadpool_runs`, `threadpool_live` | the worker pool as a state machine: any number of workers, loops and requests |
| `async`, `barrier` | the cross-thread wakeup and the counting barrier as state machines |
| `inet4`, `inet6_grammar`, `inet6`, `inet6_text` | the text forms of IP addresses, against the grammar of section 2.2 of RFC 4291 |
| `queue`, `watcher_pass`, `watcher` | the circular lists, and the passes over prepare, check and idle handles |
| `dns_names`, `dns_message`, `dns_codec` | the DNS wire format with compression pointers (RFC 1035, section 4.1) |
| `hash_table`, `hash_remove`, `ipv4_cache` | the chained hash table, its removal as intended and as written, and the sweep of the IPv4 cache |
| `resolver`, `cname_links`, `learning` | answers from the caches in two passes, when CNAME links stay free of cycles, and what a reply puts into the caches |
| `relay_runs`, `relay` | the client table over whole runs, the two socket callbacks, and what holds over all their histories |
| `bytes`, `sequences` | octets and words; sequences without repetitions |

How the model is made:

- Code that assigns through pointers is a class with the same fields. A ghost map from nodes to
  their fields (`links`, `cells`) goes along with every assignment, so that a data structure is a
  pure predicate on that map, and a step of the code is a lemma about two maps.
- A loop over a buffer is a method with that loop. Its contract names a function on sequences, and
  lemmas relate that function to an independent one: a decoder, a grammar, a map, a chain.
- Threads are state machines. A step is what a thread does between two operations on locks or
  atomic variables; any enabled step of any thread may come next; `Run` is the set of all runs.
  Atomic operations are sequentially consistent.
- Time, datagrams, the hash function, callbacks and the order of the heap are parameters; the keys
  of the red-black tree are integers in their usual order. What a callback of a watcher starts and
  stops is an arbitrary function of its number in the pass.

Where the code is not what its surroundings suggest:

- The test for a blocked name, `src/socket.c:326`, assigns: it stores in `manual` whether the first
  address is 0, for exactly the entries that a look-up comes to (`Resolver.LookedExact`). So a blocked
  name that was asked for never leaves the cache again, in any history (`Relay.AskedStaysBlocked`).
- The continuation test of the UTF-8 decoder, `libuv/src/idna.c:72`, is an exclusive or. Some
  ill-formed text is accepted (`Utf8.IllFormedAccepted`). What is accepted is well-formed exactly when
  the octets that its lead octet announces are left and are continuation octets
  (`Utf8.AcceptedWellFormed`).
- The middle alternative of the test for an embedded IPv4 address, `libuv/src/inet.c:125`, never
  decides: a run of seven words at the start covers word 6, which is then skipped
  (`Inet6Text.EmbeddedTest`).
- The feature string tells a message apart from all requests of at most one question exactly if it has
  at most one question itself (`RelayRuns.FeatureExact`); a collision is `RelayRuns.TwoQuestionsCollide`.
- A question of a type other than A, CNAME and AAAA counts as cached, and is answered with no
  records (`src/socket.c:301-393`). `Relay.ForwardedIff` says exactly when a request is forwarded, and
  `Relay.OnlyMissesForwarded` that no other request ever is.
- `hash_table_remove`, `src/hash_table.c:165-217`, follows a null pointer for an absent key in a bucket
  that is not empty (`HashRemove.AbsentKeyFaults`), and frees a node that it has just linked in when
  the key is at the head of a chain of three or more (`HashRemove.HeadOfThreeFreed`). It does what is
  intended exactly in the case of `HashRemove.SafeToRemove` (`HashRemove.RemoveAsWritten`): the key
  is bound or its bucket is empty, and it is not at the head of a bucket of three entries or more.
  `HashTable.Table.Remove` is the intended removal, and the sweep of the cache and the client table
  rest on it.
- A reply may make the CNAME links cyclic (`Learning.CyclicReply`), and then looking up a name of the
  cycle does not end. `Learning.LearnedAcyclic` says exactly when a reply keeps the links acyclic.
- `hash_table_remove` never lowers `count`, so `count` is an upper bound of the bindings.

## Model

| member | source | states |
|---|---|---|
| RbTree.Head.RotateLeft | libuv/include/uv/tree.h:342-360 | the assignments make exactly the left rotation of the links; the root moves only if the node was the root |
| RbTree.Head.RotateRight | libuv/include/uv/tree.h:362-380 | the mirror image |
| RbLinks.HereRotate | libuv/include/uv/tree.h:342-380 | the rotated links hold the rotated tree at the same place, with all parent pointers right |
| RbShape.RotKeeps | libuv/include/uv/tree.h:342-380 | a rotation keeps the in-order sequence and the nodes |
| RbFixup.UncleRed | libuv/include/uv/tree.h:413-421 | recolouring with a red uncle moves the red-red fault two levels up and keeps everything else |
| RbFixup.UncleBlackInner | libuv/include/uv/tree.h:422-427 | the first rotation with a black uncle turns an inner grandchild into an outer one |
| RbFixup.UncleBlackOuter | libuv/include/uv/tree.h:428-429 | the second rotation with a black uncle ends the fault |
| RbTree.Head.InsertColor | libuv/include/uv/tree.h:406-449 | from any tree with one red-red fault at the new node, the loop ends in a red-black tree with the same order |
| RbTree.Head.Insert | libuv/include/uv/tree.h:598-627 | a new key is added at its place in the order and nothing else changes; an equal key leaves every field alone and its node is returned |
| RbFixup.SiblingRed | libuv/include/uv/tree.h:458-464 | a red sibling is turned into a black one without changing the deficit |
| RbFixup.NephewsBlack | libuv/include/uv/tree.h:465-471 | with black nephews the deficit of one black moves one level up |
| RbFixup.FarNephewBlack | libuv/include/uv/tree.h:473-483 | a red near nephew is turned into a red far one |
| RbFixup.FarNephewRed | libuv/include/uv/tree.h:483-489 | with a red far nephew the deficit is repaired |
| RbTree.Head.RemoveColor | libuv/include/uv/tree.h:451-528 | from any tree that is one black short at one place, the loop ends in a red-black tree with the same order |
| RbTree.Head.RemoveInner | libuv/include/uv/tree.h:539-578 | a node with two children is replaced by its successor, which takes over its place and colour |
| RbTree.Head.Remove | libuv/include/uv/tree.h:530-595 | exactly the given node leaves the tree, in its place in the order; colours, heights, order and parent links hold again |
| RbTree.Head.Find | libuv/include/uv/tree.h:629-645 | a node with the key, or null only if there is none |
| RbTree.Head.NFind | libuv/include/uv/tree.h:647-666 | the node with the least key that is not smaller, or null only if all keys are smaller |
| RbTree.Head.Next | libuv/include/uv/tree.h:668-688 | the node that follows in key order, or null after the last |
| RbTree.Head.Min | libuv/include/uv/tree.h:711-724 | the first node in key order |
| RbTree.Head.Foreach | libuv/include/uv/tree.h:738-741 | following Next from the minimum visits every node once, in ascending order |
| RbShape.HeightBound | libuv/include/uv/tree.h:55-61 | the height is at most 2 lg (n + 1), as 2 to the height is at most (n + 1) squared |
| BinaryHeap.PathTo | libuv/src/heap-inl.h:119-124 | following the collected bits from the root leads to exactly the slot with the given number |
| BinaryHeap.SwapTree | libuv/src/heap-inl.h:72-104 | the assignments of a swap exchange two neighbouring slots and keep the complete tree with all links right |
| BinaryHeap.Heap.Swap | libuv/src/heap-inl.h:72-104 | parent and child change places in the linked tree; no data changes |
| BinaryHeap.UpStep | libuv/src/heap-inl.h:143-147 | a swap on the way up keeps heap order except at the node that rises |
| BinaryHeap.DownStep | libuv/src/heap-inl.h:220-229 | a swap with the least child keeps heap order except below the node that sinks |
| BinaryHeap.Heap.Locate | libuv/src/heap-inl.h:126-136 | the walk finds the pointer of the next or last slot and the parent of that slot |
| BinaryHeap.InsertTree | libuv/src/heap-inl.h:138-141 | hanging the node in the next slot keeps the tree complete |
| BinaryHeap.UnlinkTree | libuv/src/heap-inl.h:181-185 | taking the last slot away keeps the tree complete |
| BinaryHeap.ReplaceTree | libuv/src/heap-inl.h:195-214 | the last node takes the place and all links of the removed one |
| BinaryHeap.Heap.SiftUp | libuv/src/heap-inl.h:143-147 | heap order is restored from below; the nodes stay the same |
| BinaryHeap.Heap.SiftDown | libuv/src/heap-inl.h:216-229 | heap order is restored from above up to the node itself; the nodes stay the same |
| BinaryHeap.Heap.Insert | libuv/src/heap-inl.h:106-148 | for any strict total order: complete tree, consistent links and heap order are kept, and exactly the node is added |
| BinaryHeap.Heap.Remove | libuv/src/heap-inl.h:150-237 | the same for removing any node: exactly that node is gone |
| BinaryHeap.Heap.Dequeue | libuv/src/heap-inl.h:239-241 | exactly the least node is gone |
| BinaryHeap.RootLeast | libuv/src/heap-inl.h:67-69 | no node is less than the root |
| BinaryHeap.Heap.MinIsLeast | libuv/src/heap-inl.h:67-69 | the minimum is null only for the empty heap, and no node is less |
| Timers.LessIsStrict | libuv/src/timer.c:38-55 | the order by timeout and then start_id is a strict weak order |
| Timers.Loop.WrapDetected | libuv/src/timer.c:79-81 | the test for wrap-around of 64-bit time clamps exactly the sums that do not fit |
| Timers.Loop.Start | libuv/src/timer.c:67-95 | refusals change nothing; otherwise the handle is active, alone has new data, and is in the heap |
| Timers.Loop.Stop | libuv/src/timer.c:98-108 | exactly the handle leaves the heap |
| Timers.Loop.Again | libuv/src/timer.c:111-121 | EINVAL without a callback, else 0; a repeating timer is restarted with its repeat value, or only stopped if it is closing; otherwise nothing changes |
| Timers.Loop.NextTimeout | libuv/src/timer.c:142-160 | the least time until any active timer is due, clamped to INT_MAX, and -1 without timers |
| Timers.Loop.RunTimers | libuv/src/timer.c:163-180 | ends; fires exactly the timers due at entry, each once, in heap order; repeating ones are back strictly after loop time, the others are stopped |
| Timers.DoneStep | libuv/src/timer.c:167-178 | firing the least due timer extends the order of firing, and fewer timers are due |
| Utf8.Decode1Slow | libuv/src/idna.c:26-90 | the fall-through cases compute the value and the next position of the decoder function |
| Utf8.Decode1 | libuv/src/idna.c:92-103 | the same with the ASCII case |
| Utf8.DecodeEncode | libuv/src/idna.c:26-103 | every scalar value encoded as in section 3 of RFC 3629 is decoded to itself, in any surroundings |
| Utf8.DecodeEncodeAll | libuv/src/idna.c:130-140 | so is every text |
| Utf8.AcceptedWellFormed | libuv/src/idna.c:72-73 | what is accepted is the encoding of its value if and only if as many octets are left as the lead octet announces and those behind it are continuation octets |
| Utf8.IllFormedAccepted | libuv/src/idna.c:72-73 | an ill-formed sequence that is accepted |
| Punycode.VarIntRoundTrip | libuv/src/idna.c:214-240 | a variable-length integer is read back, whatever follows it |
| Punycode.RoundsInStep | libuv/src/idna.c:180-265 | from any state where encoder and decoder agree, what the encoder writes makes the decoder insert the remaining code points at their places |
| Punycode.RoundTrip | libuv/src/idna.c:150-265 | the decoder of section 6.2 of RFC 3492 gives back every sequence of code points that the encoder does not refuse |
| Idna.Count | libuv/src/idna.c:123-140 | ASCII and other characters are counted, and a decoding error is found if there is one |
| Idna.WriteAscii | libuv/src/idna.c:150-165 | exactly the ASCII characters are written, as far as there is room |
| Idna.FindNext | libuv/src/idna.c:181-191 | the least code point not yet handled |
| Idna.WriteInt | libuv/src/idna.c:214-240 | exactly the digits of the integer are written; every index into the alphabet is below 36 |
| Idna.AdaptBias | libuv/src/idna.c:242-258 | the bias of section 6.1 of RFC 3492, with no wrap-around in 32 bits |
| Idna.EmitChar | libuv/src/idna.c:214-260 | one code point: its integer is written, the bias adapted, the counters moved |
| Idna.SweepLoop | libuv/src/idna.c:202-261 | the sweep over the text in 32 bits is the sweep over unbounded numbers, and reports overflow exactly when that one overflows |
| Idna.EncodeLoop | libuv/src/idna.c:175-265 | all rounds, with the overflow test before the multiplication |
| Idna.ToAsciiLabel | libuv/src/idna.c:105-268 | for every label and buffer: the code of the first error, or as much of the label's text as there is room for, and nothing outside |
| Idna.LabelDecodes | libuv/src/idna.c:105-268 | for a well-formed label with a non-ASCII character, the text is "xn--" and a text that decodes to the label |
| Idna.NameLabels | libuv/src/idna.c:270-315 | the pass that cuts at the four dots yields the joined texts of exactly the labels between dots |
| Idna.ToAscii | libuv/src/idna.c:270-315 | for every name and buffer: the error, or the text and a NUL as far as there is room, and how much was written |
| Idna.Idempotent | libuv/src/idna.c:270-315 | a converted name is ASCII and is converted to itself |
| PoolRuns.StepKeeps | libuv/src/threadpool.c:57-345 | every step of every thread keeps the pool's invariant |
| PoolRuns.RunInv | libuv/src/threadpool.c:57-345 | it holds in every reachable state |
| PoolRuns.ExactlyOnePlace | libuv/src/threadpool.c:57-160 | every request is in exactly one of the work queue, slow queue, one worker's hands, cancel's hands, the loop's queue, its local list, or delivered, and once there |
| PoolRuns.DoneOnce | libuv/src/threadpool.c:281-345 | work runs at most once; done is called at most once: with ECANCELED only if the work never ran and a cancel succeeded, with 0 only if it ran once |
| PoolRuns.Throttled | libuv/src/threadpool.c:45-139 | slow_io_work_running counts the workers on slow work and never exceeds (nthreads + 1) / 2 |
| PoolRuns.SlowAnnounced | libuv/src/threadpool.c:142-160 | run_slow_work_message is queued at most once, and whenever slow work waits |
| PoolRuns.NoLostWakeup | libuv/src/threadpool.c:63-160 | if all live workers sleep unsignalled, no work is queued, also while exit_message is passed on |
| PoolRuns.LockOrder | libuv/src/threadpool.c:281-305 | locks are held by one thread, and a thread that holds one waits only for a later one |
| PoolLiveness.RestIsDone | libuv/src/threadpool.c:57-190 | where no step is left, every request is delivered, or all workers have exited |
| PoolLiveness.StepDecreases | libuv/src/threadpool.c:57-345 | every step the pool takes on its own lowers a measure |
| PoolLiveness.Bounded | libuv/src/threadpool.c:57-345 | so a run without new requests has a bounded number of steps |
| PoolLiveness.EverythingIsDone | libuv/src/threadpool.c:57-345 | and ends with every request delivered, or with the pool cleaned up |
| AsyncWakeup.RunInv | libuv/src/unix/async.c:46-178 | the invariant holds in every reachable state of any number of senders and handles |
| AsyncWakeup.NoSendLost | libuv/src/unix/async.c:65-178 | for an open handle, a send that is not served means pending, and an unread wakeup, a sender about to write, or a sweep yet to visit it |
| AsyncWakeup.OneVisitForEachWin | libuv/src/unix/async.c:65-178 | sends that set pending and visits that find it set alternate: sends coalesce and none is counted twice |
| AsyncWakeup.AllAnswered | libuv/src/unix/async.c:132-178 | when all is quiet every send has been answered |
| AsyncWakeup.NoWriteAfterClose | libuv/src/unix/async.c:92-130 | once the spin of a closing handle is over, no sender, however far along, ever writes for it |
| Barrier.RunInv | libuv/src/thread-common.c:38-120 | the barrier's invariant holds in every reachable state |
| Barrier.Rounds | libuv/src/thread-common.c:85-120 | in and out are never both non-zero; nobody leaves a round before threshold threads entered, exactly threshold leave, exactly one gets 1 |
| Barrier.OnlyTooFewSleep | libuv/src/thread-common.c:85-120 | if all threads inside sleep, they are too few for a round, and none waits for the round before |
| Barrier.RecheckEnabled | libuv/src/thread-common.c:109-111 | a woken thread of a complete round finds its wait over |
| Inet4.Complete4 | libuv/src/inet.c:48-59 | every dotted text is read as its octets |
| Inet4.Accepts4 | libuv/src/inet.c:175-211 | exactly the texts that the printer makes are accepted, each as its octets: the two are inverses |
| Inet4.Pton4 | libuv/src/inet.c:175-211 | the loop accepts exactly the dotted texts, with leading zeros, large octets and wrong counts refused |
| Inet4.Ntop4 | libuv/src/inet.c:48-59 | the dotted text and a NUL, or no space and nothing written |
| Inet6Grammar.Complete6 | libuv/src/inet.c:214-298 | every literal of the grammar is read as its value |
| Inet6Grammar.Accepts6 | libuv/src/inet.c:214-298 | exactly the literals are accepted, each as its value |
| Inet6Grammar.AcceptedLength | libuv/src/inet.c:155-166 | no accepted text is longer than 45 characters |
| Inet6.ShiftTail | libuv/src/inet.c:278-293 | the shift by hand in one buffer moves the octets behind the gap to the end and leaves zeros, also when they overlap |
| Inet6.Pton6 | libuv/src/inet.c:214-298 | the loop accepts exactly the literals and returns their values |
| Inet6.InetPton6 | libuv/src/inet.c:153-167 | the text before a '%' is read; the size of the copy turns no address away |
| Inet6Text.HexTextValue | libuv/src/inet.c:133 | the hexadecimal digits of a word have its value |
| Inet6Text.FindBest | libuv/src/inet.c:83-106 | the leftmost longest run of two zero words or more, or none |
| Inet6Text.BestRunUnique | libuv/src/inet.c:83-106 | there is only one such run |
| Inet6Text.PrintedValue | libuv/src/inet.c:111-138 | the literal with any zero run left out stands for the address, with an embedded IPv4 address or not |
| Inet6Text.EmbeddedTest | libuv/src/inet.c:123-126 | outside the run, word 6 passes the test exactly if an IPv4 address is embedded there; a run of seven words at the start has word 6 inside, so its alternative never decides |
| Inet6Text.Format | libuv/src/inet.c:111-138 | what the loop writes is that literal's text, within the buffer |
| Inet6Text.RoundTrip6 | libuv/src/inet.c:62-143 | reading the printed text gives back the address, for all 128-bit addresses |
| Inet6Text.CanonicalUnique | libuv/src/inet.c:62-143 | each address has one printed text |
| Inet6Text.Ntop6 | libuv/src/inet.c:62-143 | that text and a NUL are stored if they fit, else no space; it reads as the address |
| LoopWatcher.Loop.QueueAdd | libuv/src/queue.h:52-59 | concatenation: the second list behind the first, also when one is empty |
| LoopWatcher.Loop.QueueSplit | libuv/src/queue.h:61-70 | cut: the list up to a node, and the rest under a new header |
| LoopWatcher.Loop.QueueMove | libuv/src/queue.h:72-81 | transfer: the whole list under a new header, the old one empty |
| LoopWatcher.Loop.QueueInsertHead | libuv/src/queue.h:83-90 | the node is first |
| LoopWatcher.Loop.QueueInsertTail | libuv/src/queue.h:92-99 | the node is last |
| LoopWatcher.Loop.QueueRemove | libuv/src/queue.h:101-106 | exactly the node is gone |
| Queue.AddSome | libuv/src/queue.h:52-59 | the four assignments link the two circles into one |
| Queue.SplitRing | libuv/src/queue.h:61-70 | the six assignments make two circles of one |
| LoopWatcher.Loop.Start | libuv/src/unix/loop-watcher.c:32-39 | an active handle or a missing callback changes nothing; otherwise the handle is first on the list |
| LoopWatcher.Loop.Stop | libuv/src/unix/loop-watcher.c:41-46 | the handle leaves whichever list it is on, the loop's or that of the pass |
| LoopWatcher.Loop.Run | libuv/src/unix/loop-watcher.c:48-60 | a pass ends, and its calls and the list it leaves are those of Drain, for all callbacks |
| WatcherPass.EveryHandleOnce | libuv/src/unix/loop-watcher.c:48-60 | every handle active at the start is called exactly once with no stop before it, or was stopped before its turn and is not called |
| WatcherPass.NoneStartedInPass | libuv/src/unix/loop-watcher.c:48-60 | no other handle is called |
| WatcherPass.CallsInOrder | libuv/src/unix/loop-watcher.c:48-60 | calls come in list order |
| WatcherPass.QuietPass | libuv/src/unix/loop-watcher.c:48-60 | callbacks that do nothing leave the list as it was |
| DnsNames.JoinSplit | src/string_t.c:75-107 | joining the parts gives back the string, and no part has a separator |
| DnsNames.SplitJoin | src/string_t.c:75-107 | splitting joined parts gives back the parts |
| DnsNames.StringSplit | src/string_t.c:75-107 | the loop yields those parts |
| DnsNames.NameToMessage | src/message.c:768-790 | the labels behind their lengths and a zero octet |
| DnsNames.CopyLabel | src/message.c:455-465 | a label and a dot |
| DnsNames.CreateName | src/message.c:442-473 | with nested calls for pointers: the expanded name, and the cursor on the last octet of the name at its own place |
| DnsNames.NameRoundTrip | src/message.c:768-790 | a written name is read back, in any surroundings |
| DnsNames.CompressedName | src/message.c:442-473 | labels and a pointer read as the labels and what stands at the target |
| DnsNames.BackwardTerminates | src/message.c:442-473 | if pointers point before their own segment, reading ends with the labels of the segment and of what its pointer leads to, in order, and with the cursor on the last octet of the name at its own place |
| DnsNames.EnoughHops | src/message.c:442-473 | no name that is read at all needs more hops than there are octets |
| DnsMessage.EncodedLength | src/message.c:97-114 | the length of a message is the sum of its parts |
| DnsMessage.FlagsRoundTrip | src/message.c:793-847 | flags with Z = 0 are read back |
| DnsMessage.RecordRoundTrip | src/message.c:881-970 | a record is read back with the length that was sent |
| DnsMessage.CompressedRecord | src/message.c:310-420 | a record whose owner or CNAME target is compressed is read like the one written out, but for the length field |
| DnsMessage.RoundTrip | src/message.c:97-142 | every one-question message with any number of A, CNAME and AAAA answers is decoded to itself, up to the recomputed RDLENGTH of CNAME |
| DnsCodec.Dec2bin | src/message.c:716-736 | the binary digits, the highest first |
| DnsCodec.Char2bit | src/message.c:495-515 | the bits of an octet, the highest first |
| DnsCodec.EncodeFlags | src/message.c:793-835 | the two octets of the flags |
| DnsCodec.DecodeFlags | src/message.c:240-262 | the fields of the two octets |
| DnsCodec.EncodeHeader | src/message.c:793-847 | the twelve octets of the header |
| DnsCodec.EncodeQuestions | src/message.c:850-879 | the question behind what is there |
| DnsCodec.EncodeAnswers | src/message.c:881-970 | all answers behind what is there |
| DnsCodec.MessageToBuf | src/message.c:97-114 | the buffer begins with the encoded message |
| DnsCodec.DecodeQueries | src/message.c:264-308 | the questions of the wire, and where they end |
| DnsCodec.DecodeRecords | src/message.c:310-420 | the records of the wire, and where they end |
| DnsCodec.BufToMessage | src/message.c:116-142 | the message of the wire |
| HashTable.StringEqual | src/string_t.c:42-66 | equality of strings |
| HashTable.AddRepresents | src/hash_table.c:33-63 | appending to the chain of its hash binds a new key |
| HashTable.CutRepresents | src/hash_table.c:165-217 | cutting one entry out of a chain removes its key |
| HashTable.Table.constructor | src/hash_table.c:11-25 | the empty map |
| HashTable.Table.AddNode | src/hash_table.c:33-63 | the map with one more key, and count raised |
| HashTable.Table.Get | src/hash_table.c:146-163 | lookup in the map |
| HashTable.Table.CopyChain | src/hash_table.c:82-100 | a chain is copied to its new places |
| HashTable.Table.Resize | src/hash_table.c:69-106 | a larger table with the same map |
| HashTable.Table.Put | src/hash_table.c:108-144 | update of the map; every key stays once in the chain of its hash, and bindings stay within count and threshold |
| HashTable.Table.Remove | src/hash_table.c:165-217 | the intended removal: from the map, count stays; the code does this exactly in the case of HashRemove.SafeToRemove |
| HashRemove.SoundIff | src/hash_table.c:165-217 | the walk as written follows no null pointer and frees no node that stays linked if and only if the key is bound or its bucket empty, and it is not at the head of three entries or more |
| HashRemove.AbsentKeyFaults | src/hash_table.c:174-216 | an input that follows a null pointer |
| HashRemove.HeadOfThreeFreed | src/hash_table.c:190-200 | an input after which a freed node is linked |
| HashRemove.RemoveAsWritten | src/hash_table.c:165-217 | the assignments as written: when they fault, that the binding is gone otherwise, and exactly when no freed node stays linked |
| Ipv4Cache.CachePut | src/ipv4_cache.c:19-62 | the entry is replaced unless it is kept by hand |
| Ipv4Cache.CollectChain | src/ipv4_cache.c:82-107 | the expired keys of one chain are added, each once, within the array |
| Ipv4Cache.RoomLeft | src/ipv4_cache.c:79-104 | while an expired key is left, the array of size count has room |
| Ipv4Cache.CacheClear | src/ipv4_cache.c:75-113 | exactly the entries kept by hand or not expired are left; this rests on the intended removal, so for the code on HashRemove.SafeToRemove at each key that is removed |
| Resolver.TerminatesIff | src/socket.c:311-316 | the walk over CNAME links ends if and only if the links do not lead back to a name |
| Resolver.ChainUnique | src/socket.c:311-316 | there is one chain from a name |
| Resolver.Caches.CountChain | src/socket.c:308-316 | the links are counted and their end is found |
| Resolver.Caches.CountQuestion | src/socket.c:301-393 | hit, blocked and the number of answers of one question, and the flag that is assigned |
| Resolver.Caches.CountPass | src/socket.c:295-394 | all questions are hits, a name is blocked, and how many answers there are |
| Resolver.Caches.FillChain | src/socket.c:424-434 | a record for each link |
| Resolver.Caches.FillQuestion | src/socket.c:418-508 | the answers to one question |
| Resolver.Caches.FillPass | src/socket.c:416-510 | exactly the records that were counted and have room are written |
| Resolver.AnswerShape | src/socket.c:418-508 | for A, AAAA and CNAME questions: the first owner is the name asked for, each next one the target before it, then all addresses of the last in order, IPv4 or IPv6, or none |
| Resolver.LookedExact | src/socket.c:306-330 | a look-up leaves every entry as it was, but sets the flag to whether the name is blocked, for exactly the names at the end of an A question all of whose predecessors hit |
| Resolver.SweptIff | src/socket.c:326-330 | an entry survives the next sweep if and only if it has not expired, or is blocked and was asked for, or was not asked for and is kept by hand |
| Resolver.Caches.Resolve | src/socket.c:286-512 | the reply from the caches, name error for a blocked name, or none |
| RelayRuns.FeatureString | src/message.c:739-766 | the array is filled exactly with name, class and type of each question and the id |
| RelayRuns.FeatureInjective | src/message.c:739-766 | for messages of at most one question, equal strings if and only if equal id and question |
| RelayRuns.MergedCollides | src/message.c:739-766 | every message with questions has the string of a message with one question |
| RelayRuns.FeatureExact | src/message.c:739-766 | a message shares its string with no other request of at most one question if and only if it has at most one question |
| RelayRuns.TwoQuestionsCollide | src/message.c:739-766 | a collision |
| RelayRuns.NextKeeps | src/socket.c:49-90 | every input keeps the client table equal to the pending requests of the history; like the rows below, for a table with the intended removal |
| RelayRuns.EveryRun | src/socket.c:49-284 | this holds after every run of requests and replies |
| RelayRuns.SentAnswersNewest | src/socket.c:49-75 | every datagram to a client matches id, name, type and class of a request of that client, the newest such request, and is the only one for it |
| RelayRuns.RepliesBounded | src/socket.c:49-75 | replies never outnumber requests, for a key and altogether |
| RelayRuns.LocalGoesBack | src/socket.c:280-290 | a reply from the caches goes to the asking client, and its entry is used up |
| CnameLinks.LinkAcyclic | src/socket.c:205-218 | a link from a name without one keeps the links acyclic if and only if its target does not lead back to its owner |
| CnameLinks.AddedAcyclic | src/socket.c:162-253 | after all links of a reply are put in, the links are acyclic if and only if those it leaves alone are, and each of its own, the last of each owner, closes no cycle |
| Learning.LearnedAnswer4 | src/socket.c:162-253 | a reply of links and IPv4 addresses that was learned is given again from the caches with the same records |
| Learning.LearnedAnswer6 | src/socket.c:162-253 | the same for IPv6 addresses |
| Learning.LearnedAcyclic | src/socket.c:162-253 | exactly when learning a reply leaves the links acyclic |
| Learning.CyclicReply | src/socket.c:162-253 | a reply, learned into empty caches, after which the walk from its names does not end |
| Relay.ServerRuns | src/socket.c:49-290 | every history of requests, replies and sweeps is a run of the client table on valid inputs: a local reply repeats the request |
| Relay.ServerAnswersNewest | src/socket.c:49-75 | so in every history each datagram to a client answers the newest request like it, once |
| Relay.ForwardedIff | src/socket.c:295-415 | a one-question request is forwarded if and only if its type is A, CNAME or AAAA and the entry at the end of its links, or the link, is missing |
| Relay.OnlyMissesForwarded | src/socket.c:295-415 | in every history, whatever was forwarded was such a request |
| Relay.BlockedForever | src/socket.c:326-330 | in every history a blocked entry with its flag set never leaves the cache, and never changes |
| Relay.AskedStaysBlocked | src/socket.c:326-330 | so a blocked name that was asked for stays, through all look-ups, replies and sweeps |
| Relay.FlaggedAreBlocked | src/socket.c:326-330 | from empty caches only blocked names ever have the flag |
| Relay.AlwaysWalkable | src/socket.c:308-316 | in every history whose replies close no cycle, every request can be looked up |
| Relay.RelayedReply | src/socket.c:49-75 | a reply that is decoded, cleared, encoded and decoded by the client has the same id, questions, answers (up to the length of CNAME data) and feature string |
| Relay.Server.Learn | src/socket.c:162-253 | all links, the addresses with the last owner, and nothing else go into the caches |
| Relay.Server.SendResponse | src/socket.c:49-75 | a step of the run: sent to the table's client, whose entry goes; the table is one with the intended removal |
| Relay.Server.BindSocketRead | src/socket.c:260-517 | the step of the history that a request makes, with the reply of the caches if they have one |
| Relay.Server.QuerySocketRead | src/socket.c:143-258 | the step of the history that a reply makes: the caches learn, then it is sent on |

## Left out

- Sockets, epoll and the other back ends, file system calls, configuration, logging and printing: their effects are not in these files.
- malloc and free: objects are allocated and never reused; leaks and out-of-memory results are not modelled.
- SPLAY macros, RB_PREV, RB_MAX, RB_FOREACH variants: mirror images of what is modelled.
- uv_timer_set_repeat, uv_timer_get_repeat: one field is assigned or read.
- Timers.Loop.RunTimers: callbacks that start or stop timers are not modelled, and the 64-bit start counter wraps, so timers with equal timeouts are in start order only as far as the counter has not wrapped between them.
- BinaryHeap.Heap.Remove: the branch that finds a removed node in the place of the last one is shown to be dead where the code would set the minimum to null; what remains is modelled.
- Idna.ToAsciiLabel: labels longer than INT_MAX octets are not modelled, since the returned number of characters would not fit.
- Thread pool, wakeup and barrier: weak memory ordering, failing thread creation and the fork handlers; spurious wakeups are steps of the barrier but do not count as progress of the pool.
- ThreadPool.TryCancel: cancelling is modelled for the thread of the request's own loop and before its done callback, as the documentation of uv_cancel demands.
- uv_barrier_destroy: it waits until a round has emptied; no thread may use the barrier then.
- Inet6.InetPton6: the dispatch on the address family is left out.
- LoopWatcher.Loop.Run: handles that a callback initialises during the pass are taken to be initialised before it; a callback does not run the pass itself.
- HashTable.Table.Remove: the removal as intended; the code does otherwise where HashRemove.SafeToRemove fails, and HashRemove.RemoveAsWritten says what.
- Ipv4Cache.CacheClear: rests on the intended removal; what a sweep does after a node that is linked has been freed is not modelled.
- RelayRuns.NextKeeps: rests on the intended removal too; the client table is a map here.
- HashTable.Table.Put: `int` overflow of count and capacity and rounding of the float threshold are not modelled.
- Murmur3: an arbitrary function that is not negative.
- Ipv4Cache.CachePut: the fields of an old entry are assigned in place in the source, and the entry is replaced by a put here.
- The IPv6 and CNAME caches in hash tables: they repeat the IPv4 shape; the resolver takes all three as maps.
- DnsNames.NameToMessage: names with empty labels, such as the root, or with labels that look like pointers are not sent.
- DnsCodec.EncodeFlags: Z is 0, as both senders set it (src/socket.c:64, src/socket.c:82).
- DnsCodec.EncodeHeader: the same, and one question.
- DnsCodec.EncodeQuestions: one question; the cursor of the code is only right for one.
- DnsCodec.EncodeAnswers: records of the types A, CNAME and AAAA; the code leaves the length of others out.
- DnsCodec.MessageToBuf: messages of one question that fit into the buffer of 1500 octets.
- RelayRuns.EveryRun: runs of messages of at most one question, which is where the feature string tells requests apart.
- DnsMessage.RoundTrip: for CNAME answers the length field comes back as the length on the wire, which is what the code sends.
- DnsNames.CreateName: defined where the code stays within the octets of the message and its arrays of 512 characters.
- DnsCodec.DecodeRecords: defined where no owner name has a zero octet in a label, since the code copies such a name up to that octet only.
- Resolver.Caches.Resolve: defined where the links from the names asked for end, since the code does not end otherwise; the number of answers is not cut to 16 bits.
- Relay.Server.BindSocketRead: the same; Relay.AlwaysWalkable says what keeps it defined.
- Time to live of answers is the constant 120 of the source; the clock is a parameter.
