# Verified model of the xty library

This project models the data structures and protocols of the xty messaging library in
Dafny and proves what they promise. It follows the source file by file:

- **Red-black tree, iterator, map** (`Items`, `RbShape`, `RbColor`, `RbTree`, `RbIterator`,
  `RbMap`). Nodes are heap objects with owner links and one shared sentinel, and every
  method writes the links the source writes, in the same order. A ghost tree and a ghost
  path to a place in it (a zipper) say which picture the heap makes; `RbColor` proves the
  repair cases on pictures, `RbTree` that the pointer writes draw them. `Valid` is kept by
  every operation, so it holds after any sequence of them.
- **Queues** (`RingQueue`, `ThreadQueue`, `ProcessQueue`, with `Counting` and `Threads`).
  The sentinel ring is a class refined to a sequence. `PushMsg` and `PopMsg` are step
  systems of any number of threads, with both locks, the event count read and written in
  separate steps, signals after the unlock, and spurious wakeups; what callers pass and
  get back is recorded apart from what goes through the queue.
- **Messages** (`Bytes`, `Codec`, `Entities`, `EntityRuns`, `Slots`, `Session`,
  `SessionRest`, `SessionRuns`). `Codec` specifies the format and proves its laws; `Entities` is the
  in-place encoder, decoder and entity array, proved against it, and `EntityRuns` their
  whole histories; `Session` runs receivers and clients over the array and the queue, with
  addresses that may be used again as soon as they are free, for every set of packets that
  peers may send; `SessionRest` says what it has done when it comes to rest, and that it
  does; `SessionRuns` says which packets do harm.
- **Pool allocator** (`PoolLayout`, `Pool`). Addresses are numbers; where `posix_memalign`
  and `malloc` put their blocks is a parameter of each call, so the results hold for every
  placement. Teardown records what is given back, and every read of a node or header
  requires that its memory is still there.
- **Configuration scanner** (`ConfLines`, `ConfParse`, `ConfScanner`, `ConfText`). A
  line-by-line reading of the text, and the one-pass scanner with its flags, proved equal;
  `ConfText` says character by character which lines store what.

The two symmetric halves of the rotations' callers, of the fix-ups and of the iterator are
one method each with a direction parameter.

Where the code turned out not to do what one might expect, the model keeps the code and
says exactly when it does:

- The process queue tests its event count outside the lock. No run goes wrong if and only
  if at most one thread pops (`ProcessQueue.WorksIffOneReader`); `ProcessQueue.DoublePop`
  is a run of two readers that does.
- `RecvMsg` casts what it pops to a data message and uses the result unchecked. Packets of
  the other four types are let pass and queued, so a client can meet a null pointer
  (`SessionRuns.DullEncoding`). It never does if and only if nothing that the decoder may
  find for a packet let pass decodes to another message (`SessionRuns.NeverIff`,
  `SessionRuns.CausesIff`).
- A decode that throws leaves its entity occupied for good (`Session.LostForGood`,
  `Session.DeafForGood`; the input is `SessionRuns.BareRegistration`). No entity is ever lost
  if and only if everything that the decoder may find for packets let pass can be decoded
  (`SessionRuns.NeverIff`, `SessionRuns.CausesIff`, `Session.EntitiesComeBack`).
- The receiver narrows the length field to `int` before it compares, so a packet may be far
  shorter than it says, and the decoder is then told of an end outside its buffer. It is
  never told so if and only if no packet let pass has a length field of 2^32 or more
  (`SessionRuns.NeverIff`, `SessionRuns.PassesIff`). Decoding goes on all the same, over the
  zeros in the buffer and whatever lies behind it: `SessionRuns.NarrowedLength` then makes a
  null pointer, `SessionRuns.OverlongRegistration` loses an entity, and
  `SessionRuns.OverlongData` is delivered.
- The configuration scanner stops at a NUL and at nothing else. It stays inside its buffer
  if and only if there is a NUL in it or a line fails (`ConfScanner.Parser.ParseConfFile`;
  the input is `ConfScanner.FullOfComment`).
- A name and a value behind the last newline of a configuration file are accepted and not
  stored (`ConfText.LastLineStoresNothing`).
- Comments in src/xty_pool.cpp and src/xty_pool.h speak of 4-byte alignment; the code
  aligns to `sizeof(unsigned long)`, 8 here.
- The receiver accepts packets in which bytes follow the message (`SessionRuns.TrailingByte`):
  `Codec.DecodedIsEncoding` says when what was read is an encoding.
- After a deletion that needs no repair the sentinel's owner link stays where the
  transplant put it. `Valid` says nothing of that one link: no operation of the tree reads
  it before it is written again; only `++` and `--` at `End()` would.

## Model

| member | source | states |
|---|---|---|
| RbShape.RotInverse | src/xty_rbtree.h:299-327 | A rotation one way undoes the rotation the other way, colours included. |
| RbShape.RotInOrder | src/xty_rbtree.h:299-327 | A rotation keeps the in-order sequence of entries. |
| RbShape.PlugInOrder | src/xty_rbtree.h:413-426 | What is before a place, at it and behind it, put together, is the whole in-order sequence. |
| RbShape.Hooked | src/xty_rbtree.h:145-165 | If only the link a path ends in has changed, the path is as before with the new subtree in its hole. |
| RbShape.Grafted | src/xty_rbtree.h:145-165 | If only the owner link of a subtree's root has changed, the subtree is whole under its new owner. |
| RbShape.Rotated | src/xty_rbtree.h:329-392 | After the pointer writes of a rotation the heap is linked both ways as the rotated tree, around the same path. |
| RbShape.Removed | src/xty_rbtree.h:145-165 | After a transplant the heap is linked as the tree without the node, wherever in the tree it was. |
| RbShape.Inherited | src/xty_rbtree.h:735-742 | After the successor has taken over the links and colour, the heap is linked as the tree with the successor in the old place. |
| RbShape.Attached | src/xty_rbtree.h:428-444 | After the pointer writes of an insertion the heap is linked as the tree with a new red leaf. |
| RbShape.RootIsTop | src/xty_rbtree.h:848 | The node is the root exactly when no path is left above it, which is what the loop test stands for. |
| RbShape.Detached | src/xty_rbtree.h:722-733 | The successor has left its place below the node, and the rest of the right subtree is linked as before. |
| RbShape.HeirView | src/xty_rbtree.h:704-743 | Replacing a node by its successor removes exactly that node's entry from the sequence. |
| RbShape.SuccessorInOrder | src/xty_rbtree.h:707 | The leftmost node of the right subtree holds the first entry of that subtree. |
| RbShape.SearchDown | src/xty_rbtree.h:1057-1070 | Going to the side the comparison names keeps the key between what is left of the place and what is right of it. |
| RbShape.NotThere | src/xty_rbtree.h:1057-1072 | A key that belongs into an empty place is nowhere in the tree. |
| RbShape.ArrivalView | src/xty_rbtree.h:413-444 | A new node enters the sorted sequence at the one position that keeps it sorted. |
| RbShape.DepartureView | src/xty_rbtree.h:678-743 | Taking a node out takes one entry out and keeps the sequence sorted. |
| RbShape.NextIsBelow | src/xty_rbtree.h:1131-1138 | With a subtree on that side, the next entry in order is the nearest node of that subtree. |
| RbShape.NextIsAbove | src/xty_rbtree.h:1142-1151 | Climbing from that side passes only earlier entries; the next one is the first owner reached from the other side, or the end. |
| RbShape.PostOrderOnce | src/xty_rbtree.h:168-181 | The recursive walk of `Clear` names every node of the tree once. |
| RbColor.GoodMeaning | src/xty_rbtree.h:454-506 | The recursive colour condition holds exactly when every way from the root to an empty place has the same number of black nodes and no red node with a red child. |
| RbColor.PlugGood | src/xty_rbtree.h:508-584 | A good subtree in a good path gives a good tree, provided no red node gets a red child. |
| RbColor.UnplugGood | src/xty_rbtree.h:840-954 | Any subtree of a red-black tree is good, and so is the path to it. |
| RbColor.GrandparentIsReal | src/xty_rbtree.h:516-517 | Where the one red pair is, the owner of the red owner is a real black node. |
| RbColor.RedUncle | src/xty_rbtree.h:524-532 | Case 1 of the insert repair moves the one red pair two levels up and breaks nothing else. |
| RbColor.InnerChild | src/xty_rbtree.h:536-541 | Case 2 keeps the one red pair and makes the child an outer one. |
| RbColor.OuterChild | src/xty_rbtree.h:543-546 | Case 3 ends with no red pair at the node, all black counts kept. |
| RbColor.RootTurnsBlack | src/xty_rbtree.h:582-583 | Blackening the root at the end leaves a red-black tree. |
| RbColor.SiblingIsReal | src/xty_rbtree.h:852-862 | While one black node is missing, the sibling is a real node, even if the node itself is the sentinel. |
| RbColor.RedSibling | src/xty_rbtree.h:854-862 | Case 1 of the delete repair keeps "one black missing here", with a black sibling and a red owner. |
| RbColor.BlackSibling | src/xty_rbtree.h:864-871 | Case 2 moves the missing black node one level up. |
| RbColor.RedNear | src/xty_rbtree.h:875-883 | Case 3 keeps the missing black node where it is and gives the sibling a red far child. |
| RbColor.RedFar | src/xty_rbtree.h:885-894 | Case 4 supplies the missing black node; only the root is left to blacken. |
| RbColor.BlackIsBack | src/xty_rbtree.h:948-949 | At the root or at a red node, the final painting leaves a red-black tree. |
| RbColor.SuccessorGood | src/xty_rbtree.h:704-743 | After case 3 of the deletion the tree is red-black if the successor was red, and lacks one black at the repair place if it was black. |
| RbColor.TakeOutGood | src/xty_rbtree.h:682-702 | The same for a node with at most one child. |
| RbColor.RedBlackHeight | src/xty_rbtree.h:1048-1073 | A red-black tree of n entries and height h has 2^h <= (n + 1)^2. |
| RbTrees.RbTree.LeftRotate | src/xty_rbtree.h:329-360 | Changes exactly the six links of a left rotation and the root pointer, and nothing of the sentinel. |
| RbTrees.RbTree.RightRotate | src/xty_rbtree.h:362-392 | Changes exactly the six links of a right rotation and the root pointer, and nothing of the sentinel. |
| RbTrees.RbTree.TurnLeft | src/xty_rbtree.h:329-360 | At any place of a linked tree, the rotation gives the linked tree rotated at that place. |
| RbTrees.RbTree.TurnRight | src/xty_rbtree.h:362-392 | The mirror image. |
| RbTrees.RbTree.TransPlant | src/xty_rbtree.h:145-165 | Hangs a node where another hangs; sets its owner link even if it is the sentinel; writes no other link. |
| RbTrees.RbTree.Outermost | src/xty_rbtree.h:129-143 | `LeftMost` and `RightMost`: the end of the straight path to one side, without a child there. |
| RbTrees.RbTree.RaiseOwner | src/xty_rbtree.h:534-547 | Cases 2 and 3 of the insert repair in place, either side: the loop ends, the heap still pictures the tree. |
| RbTrees.RbTree.PaintFamily | src/xty_rbtree.h:524-532 | Case 1 of the insert repair in place. |
| RbTrees.RbTree.InsertFixUp | src/xty_rbtree.h:508-584 | From a tree with at most one red pair at the given node, terminates with a red-black tree of the same nodes and entries in the same order. |
| RbTrees.RbTree.RaiseSibling | src/xty_rbtree.h:854-862 | Case 1 of the delete repair in place; rereads the sibling through the owner link, the sentinel's included. |
| RbTrees.RbTree.RaiseNephew | src/xty_rbtree.h:873-895 | Cases 3 and 4 in place: ends at the root with nothing missing but the final painting. |
| RbTrees.RbTree.DeleteFixRound | src/xty_rbtree.h:850-945 | One round of the loop, either side: one black is missing before and after, and the bound on the rounds left falls. |
| RbTrees.RbTree.DeleteFixUp | src/xty_rbtree.h:840-954 | From a tree with one black missing at the given node, terminates with a red-black tree of the same nodes and entries; the sentinel is restored altogether. |
| RbTrees.RbTree.TakeOut | src/xty_rbtree.h:682-702 | Cases 1 and 2 of the deletion in place. |
| RbTrees.RbTree.FreeSuccessor | src/xty_rbtree.h:704-733 | Finds the successor and frees it from its place, adjacent to the node or not; says where the repair has to start. |
| RbTrees.RbTree.PutSuccessor | src/xty_rbtree.h:704-743 | Case 3 of the deletion in place, colours included. |
| RbTrees.RbTree.Search | src/xty_rbtree.h:1048-1073 | Returns the node of the key, or null exactly when no entry has the key; visits no more nodes than the tree is high. |
| RbTrees.RbTree.Attach | src/xty_rbtree.h:428-444 | Links the new node into its empty place as a red leaf. |
| RbTrees.RbTree.Insert | src/xty_rbtree.h:394-452 | Keeps all of `Valid`. A key that is there changes nothing and its node is returned; otherwise exactly one new entry appears, in its sorted position, and all other entries stay. |
| RbTrees.RbTree.DeleteNode | src/xty_rbtree.h:678-763 | Takes exactly the node's entry out of the sequence and keeps all of `Valid`: search order, colours, both link directions, node count. |
| RbTrees.RbTree.Delete | src/xty_rbtree.h:662-763 | An absent key changes nothing at all; a present one loses exactly its entry; `Valid` holds after. |
| RbTrees.RbTree.ClearAux | src/xty_rbtree.h:167-181 | Destroys the nodes of a subtree in post-order. |
| RbTrees.RbTree.Clear | src/xty_rbtree.h:194-209 | Destroys every node exactly once and leaves a valid empty tree. |
| RbTrees.ValidHeight | src/xty_rbtree.h:1048-1073 | Every valid tree has 2^height <= (m_NodeCount + 1)^2. |
| RbIterators.RbIterator.Step | src/xty_rbtree.h:1125-1183 | From entry i, `++` stands at entry i + 1 and `--` at entry i - 1, or at the sentinel outside the ends; both climbing loops terminate. |
| RbIterators.RbIterator.Climb | src/xty_rbtree.h:1140-1152 | The climbing half: finds the neighbour by owner links alone. |
| RbIterators.RbIterator.Descend | src/xty_rbtree.h:1131-1138 | The descending half. |
| RbIterators.RbIterator.Increment | src/xty_rbtree.h:1125-1153 | `++` goes from entry i to entry i + 1. |
| RbIterators.RbIterator.Decrement | src/xty_rbtree.h:1155-1183 | `--` goes from entry i to entry i - 1. |
| RbIterators.RbIterator.First | src/xty_rbtree.h:1234-1244 | `Begin` stands at the first entry and `ReverseBegin` at the last, or at the sentinel of an empty tree. |
| RbIterators.Traverse | src/xty_msg_server_send_job.cpp:33 | The client loop from `Begin` by `++`, or from `ReverseBegin` by `--`, until `End` sees exactly the stored items, one by one from one side to the other, after m_NodeCount steps. |
| RbIterators.WalkOrdered | src/xty_msg_server_send_job.cpp:33 | Such a walk is strictly increasing (or decreasing) and misses no entry. |
| RbIterators.ThereAndBack | src/xty_rbtree.h:1193-1221 | `--` undoes `++` at every entry but the last. |
| RbMaps.MapAfterInsert | src/xty_map.h:186-192 | Inserting a key is, on the finite map, adding it only if it is new. |
| RbMaps.MapAfterDelete | src/xty_map.h:253-258 | Deleting a key is, on the finite map, removing it. |
| RbMaps.RbMap.Insert | src/xty_map.h:186-192 | Key insert keeps an existing value, and gives a new key the default one. |
| RbMaps.RbMap.InsertPair | src/xty_map.h:194-212 | Node insert stores the given value whether the key was there or not. |
| RbMaps.RbMap.Search | src/xty_map.h:214-220 | Finds a node exactly for the keys of the map, with the map's value. |
| RbMaps.RbMap.SearchPair | src/xty_map.h:222-251 | Finds a node exactly when key and value both match. |
| RbMaps.RbMap.Delete | src/xty_map.h:253-258 | Removes the key and nothing else. |
| RbMaps.RbMap.DeletePair | src/xty_map.h:260-275 | Removes the key exactly when its value matches too. |
| RbMaps.RbMap.Index | src/xty_map.h:277-294 | `operator []` adds a default entry exactly when the key is absent, and returns the place of the key's value. |
| RbMaps.RbMap.Clear | src/xty_map.h:302-306 | Leaves the empty map. |
| RingQueues.RingQueue.EnQueue | src/xty_queue.h:163-178 | Appends; the ring stays doubly linked both ways and the count right. |
| RingQueues.RingQueue.DeQueue | src/xty_queue.h:180-205 | Takes the first element, or reports an empty queue and changes nothing. |
| RingQueues.RingQueue.Clear | src/xty_queue.h:57-78 | Destroys each data node once, front to back, and leaves the empty ring. |
| RbMaps.Do | src/xty_map.h:186-306 | Each of the operations, seen from outside: what it does to the finite map, what it answers, and that nodes it adds are new. |
| RbMaps.RunAll | src/xty_map.h:186-306 | Every sequence of operations on a new map answers as a finite map would, call by call, and ends with the finite map's entries in a tree of logarithmic height. |
| RingQueues.RingQueue.Search | src/xty_queue.h:230-252 | Returns the first node that holds the value, or null when none does. |
| RingQueues.RunAll | src/xty_queue.h:57-205 | Every sequence of operations on a new queue leaves and brings what it would with a sequence. |
| RingQueues.FirstInFirstOut | src/xty_queue.h:163-205 | Without a `Clear`, what has been taken out and what is still inside are what was put in, in the same order. |
| ThreadQueue.InvHolds | src/xty_msg_queue.cpp:28-50 | In every reachable state of any number of threads: locks are held by whom the sections say, counts balance, no wakeup is lost, messages are in order. |
| ThreadQueue.FirstInFirstOut | src/xty_msg_queue.cpp:28-50 | Queue length = events + producers between enqueue and count-up + consumers between count-down and dequeue; `DeQueue` never meets an empty queue; what was popped is a prefix of what was pushed. |
| ThreadQueue.MutualExclusion | src/xty_msg_queue.cpp:28-50 | At most one thread is in each of the two critical sections. |
| ThreadQueue.SleepOnlyWhenEmpty | src/xty_event.cpp:4-34 | With nothing else going on, a consumer sleeps only beside an empty queue, although the signal comes after the unlock and wakeups may be spurious. |
| ThreadQueue.SomebodyCanStep | src/xty_event.cpp:4-34 | No deadlock: while any thread is busy, some busy thread can take a step. |
| ThreadQueue.NobodyIsForgotten | src/xty_msg_queue.cpp:28-50 | While a message is queued and a consumer sleeps, some busy thread can take a step. |
| ThreadQueue.QuietRunsEnd | src/xty_msg_queue.cpp:28-50 | Without new calls and spurious wakeups every run ends: its length is bounded by what the threads had left to do. |
| ThreadQueue.ComesToRest | src/xty_msg_queue.cpp:28-50 | From every reachable state such steps lead to rest, where whoever sleeps does so beside an empty queue and all calls that can be served have been. |
| ThreadQueue.CallsAreServed | src/xty_msg_queue.cpp:28-50 | At every moment the messages that callers of `PushMsg` have passed are those put into the queue and those on their way, one by one; the messages taken out are those given back to callers of `PopMsg` and those on their way; and every call of `PopMsg` has given back a message or is under way. |
| ThreadQueue.RestServesAll | src/xty_msg_queue.cpp:28-50 | At rest, exactly the messages that callers passed are in the queue or have been given back, the earliest put in are those given back, and there are as many of these as there were calls for, or as there were messages. |
| ThreadQueue.AnyCall | src/xty_msg_queue.cpp:28-50 | An idle thread can call `PushMsg` with any message, and `PopMsg`, in any state. |
| ThreadQueue.AnyWaiter | src/xty_event.cpp:23-27 | A sleeping thread can wake without a signal, in any state. |
| ThreadQueue.ActWakes | src/xty_event.cpp:4-34 | No single act lets the events outgrow the signals to come and the consumers awake while somebody sleeps. |
| ProcessQueue.FirstInFirstOut | src/xty_msg_queue.cpp:62-84 | With one reader the process queue balances, never takes from an empty queue and never counts below zero. |
| ProcessQueue.SleepOnlyWhenEmpty | src/xty_event.cpp:36-66 | With one reader, nobody sleeps past an event. |
| ProcessQueue.EventsAreSignalled | src/xty_event.cpp:51-57 | With one reader, when it is about to wait, the events are at most the semaphore value plus the ups to come. |
| ProcessQueue.SemaphoreIsEarned | src/xty_event.cpp:36-49 | With any number of readers: locks are held by whom the sections say, and the semaphore with the ups to come never exceeds the number of messages pushed. |
| ProcessQueue.CallsAreServed | src/xty_msg_queue.cpp:62-84 | With one reader, what callers passed and got back is accounted for message by message, as for the thread queue. |
| ProcessQueue.RestServesAll | src/xty_msg_queue.cpp:62-84 | With one reader at rest, the messages passed are in the queue or have been given back, and as many have been given back as there were calls for, or messages. |
| ProcessQueue.SomebodyCanStep | src/xty_event.cpp:36-66 | No deadlock, with any number of readers: while any thread is busy, some busy thread can take a step. |
| ProcessQueue.QuietRunsEnd | src/xty_event.cpp:51-66 | Without new calls every run ends, with any number of readers: a reader goes round its waiting loop at most once for each up of the semaphore. |
| ProcessQueue.ComesToRest | src/xty_msg_queue.cpp:62-84 | From every reachable state such steps lead to rest, where with one reader all calls that can be served have been. |
| ProcessQueue.AnyCall | src/xty_msg_queue.cpp:62-84 | An idle thread can call `PushMsg` with any message, and a reader `PopMsg`, in any state. |
| ProcessQueue.DoublePop | src/xty_event.cpp:51-66 | With two readers there is a run in which both see the one event and the second count-down wraps. |
| ProcessQueue.WorksIffOneReader | src/xty_event.cpp:36-66 | No run of the process queue fails if and only if at most one thread ever pops. |
| Bytes.ReadBack | src/xty_msg.cpp:4-22 | A number below 256^w survives being copied to w bytes and back. |
| Bytes.WriteBack | src/xty_msg.cpp:4-22 | w bytes survive being read as a number and written again. |
| Bytes.ByteAt | src/xty_msg.cpp:4-12 | Byte i of a number written is its digit of weight 256^i: the least significant byte comes first. |
| Codec.Encode | src/xty_msg.cpp:56-137 | The bytes of a message are as many as its computed length says, for all five types. |
| Codec.TypeOnWire | src/xty_msg.h:4-13 | The first four bytes of an encoding are 0, 1, 2, 3 or 4 and three zeros for dull, quit, registration, deregistration and data messages. |
| Codec.FieldsOnWire | src/xty_msg.cpp:56-137 | Behind the type stand the length of the whole in eight bytes, and then name, IP and port of a registration or deregistration, or IP, name and content of a data message, each behind its own length in eight bytes. |
| Codec.RoundTrip | src/xty_msg.cpp:56-137 | Decoding an encoding followed by any bytes gives the fields back, the length filled in, and stops right behind it. |
| Codec.PrefixFree | src/xty_msg.cpp:56-137 | Encodings are uniquely decodable and none is a proper prefix of another. |
| Codec.DecodeExtends | src/xty_msg.cpp:14-54 | A successful decode does not depend on what follows the point where it stops. |
| Codec.DecodeStops | src/xty_msg.h:278-284 | A successful decode stops inside the buffer, after exactly the computed length of what it returns. |
| Codec.Truncated | src/xty_msg.cpp:14-54 | Every cut encoding is refused, whatever the length of the cut, by the decoder for its type. |
| Codec.DecodedIsEncoding | src/xty_msg.cpp:56-137 | The bytes a decode has read are the encoding of its result if and only if the length they carry is that of the result. |
| Codec.DecodesIff | src/xty_msg.cpp:56-137 | Decoding gives a message and stops at a place if and only if the bytes up to there are that message on the wire: its type, any number as its length, and its strings, each behind its length. |
| Entities.SerializeEntity.Prepare | src/xty_msg_serialization.h:64-73 | Zeroes the buffer and sets the iterator back. |
| Entities.SerializeEntity.PutNat | src/xty_msg.cpp:4-12 | Appends the bytes of a fixed-width field, or writes nothing when they would pass the end. |
| Entities.SerializeEntity.PutStr | src/xty_msg.cpp:24-37 | Appends length and content of a string, or writes nothing when they would pass the end. |
| Entities.SerializeEntity.SerializeMsg | src/xty_msg.cpp:56-137 | Writes the encoding of the message exactly if it fits the buffer. |
| Entities.SerializeEntity.Serialize | src/xty_msg_serialization.cpp:17-29 | Throws exactly when the computed length exceeds 4096; otherwise the length reported equals the message's, so the check in src/xty_session_send_job.cpp:33 never fires, and the buffer is the encoding and zeros. |
| Entities.DeSerializeEntity.GetNat | src/xty_msg.cpp:14-22 | Reads a fixed-width field, or throws when it would pass the end; the iterator moves exactly on success. |
| Entities.DeSerializeEntity.GetStr | src/xty_msg.cpp:39-54 | Reads a length-prefixed string, or throws when the length or the content would pass the end. |
| Entities.DeSerializeEntity.Prepare | src/xty_msg_serialization.h:100-150 | Deletes the message of the last use and holds a new blank one of the type the buffer starts with. |
| Entities.DeSerializeEntity.FillIn | src/xty_msg.cpp:63-137 | The in-place decoder computes what the specification of the format says, or throws exactly when that is out of range. |
| Entities.DeSerializeEntity.DeSerialize | src/xty_msg_serialization.cpp:46-55 | The two together; the new message is held whether or not decoding throws. |
| Entities.MsgDeSerializer.SearchAvailableEntity | src/xty_msg_serialization.h:234-243 | Returns the first entity that is not occupied. |
| Entities.MsgDeSerializer.AcquireEntity | src/xty_msg_serialization.cpp:151-165 | Occupies the first free entity and changes nothing else; waits when there is none. |
| Entities.MsgDeSerializer.ReleaseEntity | src/xty_msg_serialization.cpp:167-184 | Frees the first entity that holds the given message and changes nothing else. |
| Entities.MsgDeSerializer.DeSerialize | src/xty_msg_serialization.cpp:186-195 | Decodes into the first free entity; deletes what that one held and no other message; entities keep holding distinct live messages. |
| EntityRuns.OutstandingIsHeld | src/xty_msg_serialization.cpp:151-184 | A message that has been returned and not released lies in an occupied entity, after any calls. |
| EntityRuns.RunAll | src/xty_msg_serialization.cpp:151-195 | Every sequence of decodes and releases on a new array, with only what is outstanding released, answers as the array of held and occupied says, and leaves every outstanding message alive with its decoded value. |
| Slots.ReleaseUndoesAcquire | src/xty_msg_serialization.cpp:151-184 | Releasing the message just decoded frees the entity just acquired, and gives the array back but for what that entity holds. |
| Session.InvHolds | src/xty_session_recv_job.cpp:36-66 | In every run of any number of receivers and clients, and whatever peers send, every message on its way has one live, occupied entity of its own behind it, and carries what was decoded for its packet. |
| Session.QueuedMessagesAreSafe | src/xty_session_recv_job.cpp:53-59 | No message is deleted twice or used after deletion; queued messages are alive, in distinct occupied entities. |
| Session.OneHolderEach | src/xty_msg_serialization.cpp:151-165 | No entity is handed out twice before its release. |
| Session.PrepareDeletesNothingInUse | src/xty_msg_serialization.h:100-108 | What `Prepare` deletes is neither queued nor in any other thread's hands. |
| SessionRest.AliveIsHeld | src/xty_msg_serialization.h:100-108 | `Prepare` deletes what it has to: the messages alive are exactly those that entities hold, so there are never more than entities, however many packets have come in. |
| Session.SightOfPacket | src/xty_msg_serialization.h:110-112 | What the decoder finds is the packet, if that is as long as it says; and if the packet can be decoded, what lies behind it makes no difference to the result. |
| Session.DeliveredAsDecoded | src/xty_session.cpp:246-258 | What a client gets for the k-th message popped is a data message, and is what was decoded for the k-th packet, however often entities were reused; if the packet itself can be decoded, it is that, whatever lies behind the packet in memory. |
| Session.DeliveredAsSent | src/xty_session.cpp:246-258 | If the packet behind what a client gets is the encoding of a message, that is a data message and the client gets it. |
| Session.EncodingIsGood | src/xty_session_recv_job.cpp:36-51 | Every encoding that fits the buffers passes the receiver's checks and decodes. |
| Session.EntitiesComeBack | src/xty_msg_serialization.cpp:167-184 | At rest, every packet that arrived has been decoded, and exactly one entity is occupied for each decode that has thrown: all are free if and only if none has. |
| Session.EntitiesComeBackIff | src/xty_msg_serialization.cpp:167-184 | When every packet that arrived was as long as it said, all entities are free at rest if and only if each of these packets can be decoded. |
| Session.LostForGood | src/xty_session_recv_job.cpp:53-64 | An entity into which decoding has thrown stays occupied in every later state. |
| Session.DeafForGood | src/xty_session_recv_job.cpp:53-64 | With one entity, as a session has, no message is ever accepted after that. |
| Session.SleepOnlyWhenTaken | src/xty_msg_serialization.cpp:157-158 | A thread waits for an entity, with no signal to come and nobody awake, only while every entity is occupied. |
| SessionRest.EverythingIsDelivered | src/xty_session_recv_job.cpp:53-59 | At rest, every packet that arrived has been decoded once, everything that decoded to a message has been queued once, and clients have got exactly the messages queued, each once. |
| SessionRest.EveryBusyThreadCanStep | src/xty_msg_serialization.cpp:151-195 | No deadlock: a thread that neither idles, sleeps nor stands at a null pointer can take a step, given an address for each entity. |
| SessionRest.QuietRunsEnd | src/xty_msg_serialization.cpp:151-195 | Without new calls and spurious wakeups every run ends. |
| SessionRest.ComesToRest | src/xty_msg_serialization.cpp:151-195 | From every reachable state such steps lead to rest, and whoever still waits then waits because all entities are occupied. |
| SessionRest.AnyCall | src/xty_session_recv_job.cpp:29-51 | An idle thread can receive any packet that peers send and that is let pass, in any state. |
| SessionRest.AnyPop | src/xty_session.cpp:246-249 | An idle thread can take the first message off a queue that is not empty, in any reachable state. |
| SessionRuns.NeverIff | src/xty_session_recv_job.cpp:36-66 | In no run a client uses a null pointer, the decoder is told of an end that is not the end of the packet, or an entity is lost, if and only if peers send no packet that causes that: one for which what the decoder may find decodes to another message than a data message, one let pass that is not as long as it says, one for which what may be found does not decode. (Or there is no thread or no entity at all.) |
| SessionRuns.EveryFlawExplained | src/xty_session_recv_job.cpp:36-66 | Whenever one of the three has happened, some packet that peers send causes it. |
| SessionRuns.OverrunIff | src/xty_session_recv_job.cpp:44-47 | A packet causes a wrong end exactly if it is let pass and its length field is not its length. |
| SessionRuns.CausesIff | src/xty_session_recv_job.cpp:36-66 | A packet as long as it says causes a lost entity exactly if it cannot be decoded, a null pointer exactly if it decodes to no data message, and never a wrong end. |
| SessionRuns.CausesIfDecodes | src/xty_session_recv_job.cpp:36-66 | A packet let pass that can be decoded causes no lost entity, whatever its length field, and a null pointer exactly if it decodes to no data message. |
| SessionRuns.DoNullUse | src/xty_session.cpp:249-252 | A run, for any packet let pass and anything behind it in memory that together decode to no data message, in which the client uses the null pointer the cast gives. |
| SessionRuns.DoLoss | src/xty_session_recv_job.cpp:53-64 | A run, for any packet let pass and anything behind it that together cannot be decoded, that ends at rest with an entity lost. |
| SessionRuns.DoOverrun | src/xty_session_recv_job.cpp:44-47 | A run, for any packet let pass with a length field that is not its length, in which the decoder is told of an end outside what was received. |
| SessionRuns.DullEncoding | src/xty_session.cpp:249-252 | The 12-byte encoding of a message without fields is let pass and decoded, and is no data message. |
| SessionRuns.BareRegistration | src/xty_session_recv_job.cpp:36-51 | Twelve bytes of type registration are let pass, and decoding them throws. |
| SessionRuns.NarrowedLength | src/xty_session_recv_job.cpp:44-47 | Twelve bytes with length field 2^32 + 12 are let pass, because the comparison narrows to `int`. They are decoded to no data message, so they cause a wrong end and a null pointer. |
| SessionRuns.OverlongRegistration | src/xty_session_recv_job.cpp:44-64 | Twenty bytes with length field 2^32 + 20 and a first name longer still are let pass; decoding them throws, whatever lies behind them. |
| SessionRuns.OverlongData | src/xty_session_recv_job.cpp:44-59 | Thirty-six bytes with length field 2^32 + 36 are let pass and decode to a data message, whatever lies behind them; they cause neither of the other two. |
| SessionRuns.TrailingByte | src/xty_session_recv_job.cpp:44-51 | Thirteen bytes can be as long as they say and decode to a message of twelve. |
| SessionRuns.PassesIff | src/xty_session_recv_job.cpp:44-47 | What is let pass is as long as it says if and only if its length field is below 2^32. |
| PoolLayout.Aligned | src/xty_pool.h:50-56 | The aligned pointer is the least multiple of 8 not below the start of the free space. |
| PoolLayout.RoomIsRoom | src/xty_pool.cpp:186-191 | The aligned start never passes the end of a node of 16384 bytes, so the unsigned comparison says whether the block fits. |
| PoolLayout.AllocationSound | src/xty_pool.cpp:169-223 | Every small allocation keeps all blocks 8-aligned, inside their nodes, past the headers, and in order within each node. |
| PoolLayout.NothingWasted | src/xty_pool.cpp:175-222 | A block starts less than eight bytes behind what its node had taken before, the next can start right behind it, no other node changes, and a node is added only when none has room. |
| PoolLayout.FirstBlocks | src/xty_pool.cpp:55-63 | The first block of the pool lies 64 bytes behind its start, that of any later node 32 bytes behind the start of the node. |
| PoolLayout.BlocksApart | src/xty_pool.cpp:169-223 | No two blocks ever share a byte. |
| PoolLayout.EveryHistory | src/xty_pool.cpp:169-246 | Over every sequence of requests and every placement of nodes, every block is as large as asked for (16 bytes of header for requests above 4032), at a multiple of 8, between the header and the end of its node of 16384 bytes, and no two share a byte. |
| Pool.Pool.FindNode | src/xty_pool.cpp:183-195 | Finds the first node with enough room; if there is none, the last node. |
| Pool.Pool.AddNode | src/xty_pool.cpp:197-209 | Links a new node behind the last one. |
| Pool.Pool.AllocateSmall | src/xty_pool.cpp:175-222 | First fit: takes the aligned start of the first node with room, or of a new one, and moves only that node's start. |
| Pool.Pool.DoPoolAllocate | src/xty_pool.cpp:169-223 | Small and large requests together; the mutual recursion ends after one turn. |
| Pool.Pool.DoPoolAllocateLarge | src/xty_pool.cpp:225-246 | The header is a small block, the payload goes to the front of the large list, the rest stays. |
| Pool.Pool.FreeLarges | src/xty_pool.cpp:18-33 | Frees each large payload once, newest first, reading headers only in nodes not yet freed. |
| Pool.Pool.MemoryCleanUp | src/xty_pool.cpp:83-123 | After any history, gives back the large payloads, the other nodes and the pool, in that order, and reads no node or header after it has been freed. |
| Pool.Pool.EachReleasedOnce | src/xty_pool.cpp:83-123 | In that sequence every payload and every node occurs, and none twice. |
| Pool.RunAll | src/xty_pool.cpp:83-246 | Every sequence of requests to a new pool, then its teardown: each request gets its block or its payload, the large payloads come back newest first, then the nodes, then the pool, and nothing twice. |
| ConfLines.ParseAppend | src/xty_conf_parse.cpp:120-153 | A text of whole lines is read independently of what follows it; a failure hides the rest. |
| ConfLines.FailureStops | src/xty_conf_parse.cpp:144-150 | When a line fails, the list holds exactly the parameters of the lines before it. |
| ConfLines.CommentsIgnored | src/xty_conf_parse.cpp:122-126 | What follows a `#` makes no difference to its line. |
| ConfLines.PrintParse | src/xty_conf_parse.cpp:99-199 | Printing a list of legal parameters and reading the text gives the list back. |
| ConfText.LineIff | src/xty_conf_parse.cpp:69-199 | A line stores a parameter if and only if it consists of one of the four names and a value made of letters, digits, `_` and `.`, with blanks or tabs between and around them and perhaps a comment; it stores nothing and is accepted if and only if it is blank but for a comment; every other line fails. |
| ConfText.FourNames | src/xty_conf_parse.cpp:60-67 | The four names, each with any value, and the type that is stored for it. |
| ConfText.OtherNameFails | src/xty_conf_parse.cpp:80-84 | A line with any other first word fails. |
| ConfText.OtherCharFails | src/xty_conf_parse.cpp:174-179 | A line with any other character before a `#` fails. |
| ConfText.LastLineStoresNothing | src/xty_conf_parse.cpp:188-199 | What follows the last newline stores nothing, even a name with a value. |
| ConfParse.WordsMore | src/xty_conf_parse.cpp:158-186 | How one more character changes the words of a line, in all cases. |
| ConfParse.BadCharFails | src/xty_conf_parse.cpp:174-179 | A character that is neither blank nor text, outside a comment, fails its line whatever follows. |
| ConfScanner.WithinLine | src/xty_conf_parse.cpp:120-186 | The scanner's flags, token and word list stand for the line read so far, after every character. |
| ConfScanner.NextLine | src/xty_conf_parse.cpp:128-153 | At a newline the scanner does with its words what the line-by-line reading does with the line. |
| ConfScanner.Parser.ParseOneLine | src/xty_conf_parse.cpp:69-97 | Stores a parameter exactly for two words with a known name. |
| ConfScanner.Parser.ParseConfFile | src/xty_conf_parse.cpp:99-199 | The one-pass scanner returns and stores what the line-by-line reading of its text says, for every buffer; it leaves the buffer if and only if that holds no NUL and no line in it fails. |
| ConfScanner.FullOfComment | src/xty_conf_parse.cpp:105-126 | A buffer of any size filled with a comment is such a one. |

## Left out

- Keys: a real number stands for any key whose `<`, `>` and `==` agree on one total order; every countable order embeds in the reals.
- Iterators at the sentinel: nothing is said of `++` or `--` at `End()`, where the code follows the sentinel's owner link; the null-pointer checks of the iterator constructors are left out.
- `xtyMapIterator` only forwards to the tree iterator.
- `m_NodeCount` and `m_Events` are unbounded here; wrap-around upwards after 2^32 is not modelled. Wrap-around of the event count below zero is.
- ThreadQueue.FirstInFirstOut: `EnQueue` and `DeQueue` are one step each, justified by the lock around them and by `RingQueues`; the error exits of lock, wait and signal are left out.
- Session.InvHolds: a critical section of the entity array is one step, and so are `Prepare`, the decoding of a packet, pushing, popping and copying a message; what `ThreadQueue` proves stands behind the push and the pop.
- Session.DeliveredAsDecoded: type fields without a message are a precondition, as in the code. A thread about to use a null pointer takes no further step in the model; what it would do is undefined. Behind the buffer memory is taken to be readable, with any content that does not change during one decode; failed allocation of a long string is left out, and so are packets with a length field of 2^63 or more.
- SessionRuns.NeverIff: a string length with which the code's pointer sum would wrap around is out of range here, like every other that passes the end.
- The sending side of a session (copy, push, pop, serialize, send, release, delete) and `xtyMsgSerializer` with its array, which is the same scan over buffers instead of messages.
- Codec.RoundTrip: byte order and lengths below 2^64 are those of the host; pointer wrap-around is excluded.
- Messages are values inside a message object; `Clone` and the assignment operators are value copies.
- Pool.Pool.MemoryCleanUp: the calls of `Create` and `Destroy` under the singleton lock, `exit` on failed allocation, and the destructors without effect are left out. Sizes of headers are those of a 64-bit host.
- ConfScanner.Parser.ParseConfFile: opening and reading the file is left out; a file shorter than the buffer leaves a NUL behind its text. What a scan that leaves the buffer reads there is not modelled. Warnings to the console are left out.
- Sockets, epoll, signals, processes, logging, `Visit` and `Dump` members, `xtyArray`, numeric and string helpers.
- `src/xty_shared_pool.cpp`, the same allocator over shared memory.
- The server's client table, message routing and registration.
