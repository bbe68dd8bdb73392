# Models of a study repository's protocols and data structures, with proofs

The repository is a collection of self-contained C++ pieces. This project models the ones with real
state and branching, and proves what each of them promises, over all inputs and all runs. Where the
source changes things in place, the model is a class or a method with loops, proved against a
function on values; the theorems are about these functions. Protocols between threads are state
machines whose runs are all interleavings of their steps, and the objects of the source take exactly
these steps. `dafny verify dfyconfig.toml` checks everything.

| files | what they model |
|---|---|
| `Wire`, `Framing`, `Session` | the length-prefixed frames of `asio/Async`, and `HandleRead`, which puts them together again from chunks cut anywhere |
| `SendQueue` | the send queue with one write under way, with the lock held while the write is issued (`asio/Async`) and released before (`asio/Coroutine`) |
| `LogicQueue`, `Pipeline`, `EndToEnd` | the worker behind the message queue, several sessions that feed it, and the whole way from a sender's queue to it |
| `Decimal`, `Json`, `JsonDepth`, `JsonReader` | the JSON reader, how deep it recurses, and its loops |
| `JsonRender`, `JsonEscapes`, `JsonNumbers`, `JsonLoose`, `JsonPrint` | reference renderers that the reader inverts, what it forgives, and the repository's own printer |
| `BstMap`, `AvlTree`, `AvlMap`, `HashTable`, `HashMap`, `LinkedList`, `Deque` | the containers of `basic/STL`; `AvlTree` and `HashTable` are values, the others heap objects |
| `SharedPtr`, `SimpleSharedPtr` | reference counts over all handles of a program, and the class itself |
| `Perceptron`, `Trainer` | the trainer's arithmetic with its mistake bound, and its loops over layers |
| `LogQueue`, `LogFormat` | the logger's queue and worker, and its format loop |
| `TaskStore`, `TaskLines`, `TaskManager` | the task list with its commands, its file and its restarts, and its lines character by character |
| `Options`, `Sequences` | an optional value; sequences laid end to end |

## Where the code and its intent differ

- `RecvNode` (asio/Async/Node.h:40) makes the body node four bytes longer than the length in the
  header, so a body cut by a chunk boundary waits for four bytes too many; asio/Coroutine/Msg.h:39
  has the length itself. The reader takes this `slack` as a parameter, 0 or 4. Chunk independence and
  the round trip are about 0; `Framing.AsWrittenAgreesIff` says exactly when 4 makes no difference.
- A header with a negative length passes the checks of asio/Async/CSession.cpp:142. With the four
  extra bytes a length of -4 to -1 makes a legal node of 0 to 3 bytes, which is filled and posted;
  `Framing.AgreesFromIff` counts these too. Every other negative length, and more bytes behind the
  head than such a node holds, is a failing allocation or a write outside a buffer; the phase
  `Faulted` stands for both, and no message is posted after it.
- The insertion of basic/STL/AVLmap.h lacks an `else` at line 80. Both readings are modelled, on every
  search tree, with following a null link as an outcome. As written, `put` of eight keys does follow
  one. Theorems say exactly when an insertion does, when it updates the map, when it keeps the balance,
  and the same for whole runs.
- The walk in basic/STL/hashmap.h:47 never looks at the key of a chain's last node. Whether it does is
  a parameter. With it, every run of insertions builds its map; as written, theorems say exactly when
  one insertion updates the map, repeated keys or not, and when every one of a run does.
- The printer prints lists with braces. Its outcome under the reader is stated for every value; lists
  in brackets are rendered by a reference renderer.
- A task's file is read back exactly if no description holds a comma. The commands make every
  description comma-free, so every run and restart is lossless, but a restart can give out an id again.
- The destructor of `LogicSystem` sets its flag without the mutex, so its notification can be lost;
  the theorem says exactly when.

## Model

| member | source | states |
|---|---|---|
| `Wire.HostToNet` | asio/Async/Node.h:52-55 | the two bytes that stand for a signed 16-bit field on the wire, high byte first; reading them gives the field back |
| `Wire.NetToHostInjective` | asio/Async/CSession.cpp:125-127 | two bytes are the encoding of exactly the field they decode to |
| `Wire.HeaderOfFields` | asio/Async/Node.h:52-56 | every four-byte header is the encoding of its own two fields |
| `Wire.BytesAreOrdered` | asio/Async/Node.h:52-55 | network byte order: of two fields of one sign the greater has the greater first byte, or the same and the greater second one; the first byte is 0x80 or more exactly for a negative field |
| `Wire.FrameLayout` | asio/Async/Node.h:49-58 | the id is in the first two bytes of a frame, the length in the next two, the payload behind them |
| `Framing.ReceiveAppend` | asio/Async/CSession.cpp:93-214 | reading `a` and then `b` posts the same messages and reaches the same phase as reading `a + b` at once, from every phase the session can be in |
| `Framing.ChunkIndependence` | asio/Async/CSession.cpp:93-214 | for every stream and every cut of it into chunks, the chunk-by-chunk reader equals one pass over the whole stream: messages, partial head or body, rejection |
| `Framing.ReceiveIsEncoding` | asio/Async/CSession.cpp:102-213 | whatever bytes arrive, they are the encodings of the messages posted, followed by a tail that is exactly what the phase remembers |
| `Framing.ReceiveInvertsEncoding` | asio/Async/CSession.cpp:102-213 | conversely, encodings of acceptable messages followed by the bytes of a phase are read as those messages and that phase |
| `Framing.CodecRoundTrip` | asio/Async/Node.h:49-58 | for any acceptable messages and any chunking, the encoded frames are read back as exactly those messages with nothing left over |
| `Framing.AgreesFromIff` | asio/Async/Node.h:40 | from any phase outside a body: the reader as written, whose body node is four bytes too long, posts what the intended reader posts exactly when no chunk boundary falls inside a body that is later completed, and no negative length has its short node filled |
| `Framing.AsWrittenAgreesIff` | asio/Async/Node.h:40 | the same for a whole connection, whatever the chunks |
| `Framing.AsWrittenLosesASplitBody` | asio/Async/CSession.cpp:186-195 | a concrete message whose last byte comes in a chunk of its own is posted by the intended reader and never by the one as written |
| `Framing.AsWrittenPostsAShortNode` | asio/Async/CSession.cpp:149-213 | a concrete head with length -1 after which the reader as written posts a message of three bytes and the intended one nothing |
| `Session.MsgNode.Sized` | asio/Async/Node.h:12-16 | an empty buffer of the given size with one byte more for the terminator |
| `Session.MsgNode.SendNode` | asio/Async/Node.h:49-58 | the buffer holds exactly the encoding of the message |
| `Session.MsgNode.Clear` | asio/Async/Node.h:24-28 | the buffer is empty and every byte of it is zero |
| `Session.MsgNode.Append` | asio/Async/CSession.cpp:109-110 | bytes are added behind those already there and nothing else changes |
| `Session.CSession.TakeHead` | asio/Async/CSession.cpp:104-122 | the head part of a round: either the chunk is used up in a partial head, or the head is complete and what is owed to the chunk is unchanged |
| `Session.CSession.CheckHead` | asio/Async/CSession.cpp:123-147 | the fields of the head, and rejection exactly when one is over 2048; a negative length passes |
| `Session.CSession.TakeNewBody` | asio/Async/CSession.cpp:149-181 | the rest of the chunk goes to a new body node, with a negative length too if it fits; or the message is complete and posted; or there is no such node |
| `Session.CSession.TakeBody` | asio/Async/CSession.cpp:184-213 | the same for a body begun in an earlier chunk |
| `Session.CSession.FinishMessage` | asio/Async/CSession.cpp:168-180 | the completed message is posted, the head buffer cleared, and reading goes on if bytes are left |
| `Session.CSession.HandleRead` | asio/Async/CSession.cpp:93-227 | one call of the handler on any chunk changes buffers, flags, posted messages and pending reads exactly as the one-chunk function says, for either length of the body node; at every loop head bytes copied and bytes left add up to the chunk |
| `SendQueue.NextKeepsInv` | asio/Async/CSession.cpp:42-80 | one step of send, transmission, completion or failure keeps the invariant, with the lock held over the write or released before it |
| `SendQueue.RunsAreSafe` | asio/Async/CSession.cpp:42-80 | over every interleaving: at most one write issued or about to be, completed messages followed by the queue are the accepted ones in order, the queue is never longer than MAX_SENDQUE + 1, and a live session with a queue has a writer |
| `SendQueue.FailureIsFinal` | asio/Async/CSession.cpp:245-250 | after a failed write nothing more is put on the wire |
| `SendQueue.QueueFillsUp` | asio/Async/CSession.cpp:45-50 | a queue of MAX_SENDQUE + 1 frames is reached, so the bound is exact |
| `SendQueue.AcceptedAreAdmitted` | asio/Async/CSession.cpp:42-60 | over every run the messages accepted are those given to send, as they were given, that found no more than 1000 frames in the queue, counted from the events alone |
| `SendQueue.FewAreAllAdmitted` | asio/Async/CSession.cpp:45-50 | these are all of them if no more than 1001 were given |
| `SendQueue.UnderLockNothingWaits` | asio/Coroutine/CSession.h:139-146 | with the lock held a send to an idle session issues its write at once, and none ever waits to be issued; with the lock released first it waits |
| `SendQueue.PeerReadsWhatWasSent` | asio/Coroutine/CSession.h:129-180 | whatever the interleaving, and however the bytes on the wire are cut, the other side reads exactly the completed messages in order, and the one under way once its last byte is out |
| `SendQueue.CSession.Send` | asio/Async/CSession.cpp:62-80 | the object takes the send step of the machine: refuse when full, else queue, and write if nothing was queued |
| `SendQueue.CSession.HandleWrite` | asio/Async/CSession.cpp:229-251 | the object takes the completion or the failure step of the machine |
| `LogicQueue.NextKeepsInv` | asio/Async/LogicSystem.cpp:10-52 | a worker step, a post, a wake-up or the stop keeps: consumed followed by queued is what was posted, callbacks are the registered ones of the consumed, and a worker asleep without a wake pending has an empty queue |
| `LogicQueue.RunsAreSafe` | asio/Async/LogicSystem.cpp:71-80 | the same over every interleaving, although a post notifies only when the queue becomes one long |
| `LogicQueue.PostedArePosts` | asio/Async/LogicSystem.cpp:71-80 | over every interleaving, consumed followed by queued are the messages that were posted, as they were given, collected from the events |
| `LogicQueue.SelectedOneMore` | asio/Async/LogicSystem.cpp:24-33 | callbacks are called for the messages with id 1001, in order |
| `LogicQueue.OneMessageAtATime` | asio/Async/LogicSystem.cpp:10-52 | a step consumes the front message; before the stop the mutex is free after each, while the queue is drained it is not |
| `LogicQueue.WorkerIsNeverStuck` | asio/Async/LogicSystem.cpp:16-19 | the worker can step exactly when it is neither asleep nor finished; with the invariant, asleep means nothing to do |
| `LogicQueue.QueueIsConsumed` | asio/Async/LogicSystem.cpp:10-52 | left alone, a worker that has not finished consumes the whole queue |
| `LogicQueue.DrainFinishes` | asio/Async/LogicSystem.cpp:21-37 | once it has seen the stop flag it consumes everything and finishes |
| `LogicQueue.StopIsHeardIff` | asio/Async/LogicSystem.cpp:82-87 | with the stop flag set, the notification of the destructor leads to the end of the worker exactly when the worker is not between its check of the queue and its wait |
| `LogicQueue.StopCanBeLost` | asio/Async/LogicSystem.cpp:84-86 | a concrete run in which the notification comes between the check and the wait, and the worker sleeps for ever |
| `LogicQueue.LogicSystem.PostMsgToQue` | asio/Async/LogicSystem.cpp:71-80 | the object takes the post step of the machine |
| `LogicQueue.LogicSystem.SetStopFlag` | asio/Async/LogicSystem.cpp:84 | the flag is set without the mutex |
| `LogicQueue.LogicSystem.DealMsgStep` | asio/Async/LogicSystem.cpp:10-52 | the object takes the worker step of the machine |
| `Pipeline.NextKeepsInv` | asio/Async/CSession.cpp:93-214 | a chunk, a post or a worker step keeps, for every session, the account of its messages |
| `Pipeline.ChunksAreGiven` | asio/Async/CSession.cpp:93-100 | the chunks a session has read are those of its deliveries in the run, in order |
| `Pipeline.NothingIsLost` | asio/Async/CSession.cpp:170 | in every interleaving of several sessions and the worker, the messages of a session that are consumed, queued or about to be posted are, in order, those decoded from the chunks delivered to it |
| `Pipeline.NothingIsLostOnTheWay` | asio/Async/CSession.cpp:202 | with the bytes not yet read: consumed, queued, about to be posted and still to be decoded are together the decoding of the whole stream |
| `Pipeline.EverythingIsConsumed` | asio/Async/LogicSystem.cpp:10-52 | if a session has read the frames of some messages, the worker, left to run, consumes exactly these from it |
| `EndToEnd.WhatComesThroughWasSent` | asio/Async/CSession.cpp:62-227 | from the send queue of one side to the worker of the other, whatever the interleavings on both and whatever part of the wire has arrived in whatever pieces: what is consumed, queued and about to be posted is a first part of the messages given to send that found room, in order; with all of the wire read it is exactly the completed messages, and the one under way once its last byte is out |
| `EndToEnd.EverySentMessageIsConsumed` | asio/Async/LogicSystem.cpp:10-52 | when the send queue has run empty and the wire has been read, the worker, left to run, consumes exactly the messages given to send that found room, in order: all of them, if there were no more than 1001 |
| `Decimal.IntTextRoundTrip` | basic/jsontest/Jsontask.cpp:52-61 | the text of a 32-bit int is read back as that int, with no character left |
| `Decimal.DigitsByTens` | basic/jsontest/Jsontask.cpp:52-61 | the last digit is the lowest, in writing and in reading |
| `Json.Parse` | basic/jsontest/Jsontask.cpp:95-224 | on every input the reader ends and eats no more than there is |
| `Json.ListLoop` | basic/jsontest/Jsontask.cpp:162-177 | the list loop stays within the input |
| `Json.DictLoop` | basic/jsontest/Jsontask.cpp:184-220 | the dict loop stays within the input |
| `JsonDepth.DepthIsBounded` | basic/jsontest/Jsontask.cpp:95-224 | the recursion is bounded by the input: with as many nested calls allowed as there are characters, whatever a further call would give plays no part in the result |
| `JsonDepth.BracketsNest` | basic/jsontest/Jsontask.cpp:169 | n opening brackets need n nested calls: with fewer, what lies beyond shows in the result, so the bound is exact |
| `JsonEscapes.LettersReadBack` | basic/jsontest/Jsontask.cpp:62-93 | a string in which newline, carriage return, NUL, tab, vertical tab, form feed, backspace and bell are written as backslash and letter is read back and eaten whole, whatever it holds |
| `JsonEscapes.EachLetter` | basic/jsontest/Jsontask.cpp:66-91 | what each of the eight letters stands for |
| `JsonEscapes.BackslashesReadBack` | basic/jsontest/Jsontask.cpp:90-91 | any other character after a backslash stands for itself |
| `JsonEscapes.CutOffReadsBack` | basic/jsontest/Jsontask.cpp:128-156 | a string that the end of the text cuts off is read as far as it goes; a lone backslash at the end stands for nothing |
| `JsonNumbers.NumeralReadsBack` | basic/jsontest/Jsontask.cpp:104-121 | every sign, digits, fraction and exponent that the expression allows: an int if there is neither fraction nor exponent and 32 bits hold it, else a double if that can hold it, and with a plus sign neither |
| `JsonNumbers.JunkIsSkipped` | basic/jsontest/Jsontask.cpp:109 | behind a sign without digits the search takes the first number that follows, with its length alone as what is eaten |
| `JsonNumbers.NoDigitNoNumber` | basic/jsontest/Jsontask.cpp:109-121 | without a digit there is no number |
| `JsonReader.ParseText` | basic/jsontest/Jsontask.cpp:95-224 | the loops of the source compute the function `Parse` |
| `JsonReader.ParseString` | basic/jsontest/Jsontask.cpp:122-157 | the string loop with its two phases computes the string of the specification |
| `JsonReader.ParseList` | basic/jsontest/Jsontask.cpp:158-179 | the list loop computes the specification; every round goes forward |
| `JsonReader.ParseDict` | basic/jsontest/Jsontask.cpp:180-222 | the dict loop computes the specification; every round goes forward or stops |
| `JsonRender.IntReadsBack` | basic/jsontest/Jsontask.cpp:104-121 | a printed int is read back and eaten whole, if no character of a number follows |
| `JsonRender.StringReadsBack` | basic/jsontest/Jsontask.cpp:122-157 | a string quoted with backslashes is read back and eaten whole, whatever it holds |
| `JsonRender.DocReadsBack` | basic/jsontest/Jsontask.cpp:95-224 | every document of ints, strings, bracketed lists and dicts, with any white space before elements, keys and values, is read back as its value and eaten whole, whatever admissible text follows |
| `JsonLoose.LooseListReadsBack` | basic/jsontest/Jsontask.cpp:158-179 | a list is read as its elements whether or not commas stand between them or behind the last, and whether or not it is closed |
| `JsonLoose.LooseDictReadsBack` | basic/jsontest/Jsontask.cpp:180-222 | the same for a dict, whose colons may be missing too; a later pair overwrites an earlier one |
| `JsonLoose.UnreadableEnds` | basic/jsontest/Jsontask.cpp:170-212 | at something unreadable a list ends with what was read before, and a dict is given up with nothing eaten, as it is at a key that is no string |
| `JsonLoose.FirstCharacters` | basic/jsontest/Jsontask.cpp:97-224 | which six characters are white space, and that at any character which begins no value nothing is read |
| `JsonPrint.PrintedOutcome` | basic/jsontest/print.h:163-219 | for every value: what the reader makes of its printed form. It eats the whole form unless the value holds null, a bool or a list with an element, and then nothing; an empty list comes back as an empty dict |
| `JsonPrint.PrintRoundTripIff` | basic/jsontest/print.h:196-219 | a printed value is read back as itself and eaten whole exactly when it is made of ints, strings and dicts only |
| `JsonPrint.ListDoesNotReadBack` | basic/jsontest/print.h:166-176 | a concrete list of two numbers that is not read back |
| `JsonPrint.PrintedForms` | basic/jsontest/print.h:156-219 | lists and dicts are printed as their elements with comma and space between them, in braces |
| `JsonPrint.PrintedString` | basic/jsontest/print.h:156-161 | a string is printed in double quotes, with a backslash before each double quote and backslash |
| `JsonReader.PrintTree` | basic/jsontest/print.h:156-161 | the printer computes the printed form |
| `JsonReader.PrintIterable` | basic/jsontest/print.h:165-177 | the loop with the `once` flag computes the printed form of a list |
| `JsonReader.PrintMap` | basic/jsontest/print.h:197-211 | the loop with the `once` flag computes the printed form of a map, in whatever order the map is walked |
| `BstMap.InsertedInOrder` | basic/STL/mymap.h:37-63 | in a search tree, insertion puts the new entry into the in-order sequence right after all entries with a key not above its own, and keeps it sorted |
| `BstMap.InsertSortedIsSorted` | basic/STL/mymap.h:41-53 | such an insertion keeps the sequence sorted |
| `BstMap.InsertSortedIsStable` | basic/STL/mymap.h:52-61 | the entries of every key stay in order of insertion, the new one last |
| `BstMap.RunIsStableSort` | basic/STL/mymap.h:37-63 | over every run of insertions the in-order sequence is the stable sort of the entries inserted: sorted, as many, and those of each key in the order of insertion |
| `BstMap.MyMap.Helper1` | basic/STL/mymap.h:37-63 | the recursion links a new node into the heap so that child and parent links agree with the inserted shape |
| `BstMap.MyMap.Insert` | basic/STL/mymap.h:109-112 | the map stays a well-linked search tree, and its entries are the old ones with the new one inserted in order |
| `BstMap.MyMap.Minn` | basic/STL/mymap.h:72-79 | the first node of the in-order sequence |
| `BstMap.MyMap.Successor` | basic/STL/mymap.h:80-95 | the node after the given one in the in-order sequence, or null at its end; the climb over parent links ends |
| `BstMap.Iterator.Increment` | basic/STL/mymap.h:208-215 | the iterator moves on by one place, or past the end |
| `BstMap.Traverse` | basic/STL/mymap.h:223-230 | from begin to null, every node is visited once and in order |
| `AvlTree.RotateRightKeepsPairs` | basic/STL/AVLmap.h:35-47 | a right rotation keeps the in-order sequence |
| `AvlTree.HeightIsDepth` | basic/STL/AVLmap.h:22-34 | correct cached heights are the numbers of nodes on the longest ways down |
| `AvlTree.RotateLeftKeepsPairs` | basic/STL/AVLmap.h:48-60 | a left rotation keeps the in-order sequence |
| `AvlTree.RotateRightKeeps` | basic/STL/AVLmap.h:35-47 | a right rotation keeps the map, search order, the in-order sequence, and heights of at least 1 |
| `AvlTree.RotateLeftKeeps` | basic/STL/AVLmap.h:48-60 | a left rotation keeps the map, search order, the in-order sequence, and heights of at least 1 |
| `AvlTree.RotateRightKeepsHeights` | basic/STL/AVLmap.h:35-47 | a right rotation makes the cached heights right if they were right below the two nodes |
| `AvlTree.RotateLeftKeepsHeights` | basic/STL/AVLmap.h:48-60 | a left rotation makes the cached heights right if they were right below the two nodes |
| `AvlTree.RebalanceKeeps` | basic/STL/AVLmap.h:89-110 | the four cases after an insertion keep the map, search order, the in-order sequence, and heights of at least 1, wherever the links they follow are there |
| `AvlTree.GrownLeft` | basic/STL/AVLmap.h:91-107 | for a left subtree that is a search tree with heights of at least 1 and with its old keys and the new one, grown by at most one, and if it has grown, balanced and leaning towards the new key, or made of it alone: no null link is followed, and after the four cases search order and keys, balance and the bound of one on the growth hold |
| `AvlTree.GrownRight` | basic/STL/AVLmap.h:95-103 | the same on the right; without growth the node is left as it is |
| `AvlTree.InsertKeepsOrder` | basic/STL/AVLmap.h:71-111 | in either reading and whatever the cached heights: an insertion that follows no null link gives a search tree with the old keys and the new one |
| `AvlTree.InsertIntoValid` | basic/STL/AVLmap.h:71-111 | in either reading, insertion into a balanced tree follows no null link, and the height grows by at most one |
| `AvlTree.InsertUpdatesMapIff` | basic/STL/AVLmap.h:71-111 | on every search tree, whatever its heights: read with `else if`, insertion is a map update; as written it is one exactly when every node at which the search turns left already holds the value being put |
| `AvlTree.WrittenCrashesIff` | basic/STL/AVLmap.h:35-60 | on every search tree with heights of at least 1, as written: a null link is followed exactly when, at some right turn of the search, the left child is higher by two or more than the right side will be and has no right child |
| `AvlTree.InsertKeepsValid` | basic/STL/AVLmap.h:71-111 | read with `else if`, insertion keeps search order, correct cached heights and a balance of -1 to 1 at every node |
| `AvlTree.WrittenKeepsAvlIff` | basic/STL/AVLmap.h:80-88 | as written, insertion keeps heights and balance right exactly when, at every left turn of the search, the subtree below is lower than its sibling or would not grow: the key is in it, or a node that the search passes there leans |
| `AvlTree.GrowsIff` | basic/STL/AVLmap.h:71-111 | read with `else if`, the height grows exactly when the key is absent and every node the search passes is in balance |
| `AvlTree.WrittenGoesWrong` | basic/STL/AVLmap.h:76-88 | two insertions after which, as written, the value of the first key is overwritten and the root has a wrong height |
| `AvlTree.AvlIsDense` | basic/STL/AVLmap.h:71-111 | a balanced tree of height h has at least Fib(h + 2) - 1 nodes |
| `AvlTree.PutAllIsMap` | basic/STL/AVLmap.h:215-218 | read with `else if`, any run of puts follows no null link, holds the map of these puts, and is as dense as a balanced tree |
| `AvlTree.RunsKeepOrder` | basic/STL/AVLmap.h:215-218 | in either reading, over every run that follows no null link: a search tree with exactly the keys put |
| `AvlTree.WrittenRunIsMapIff` | basic/STL/AVLmap.h:76-88 | as written, a run holds its map at every moment exactly when no put changes the value of a node at which its search turns left |
| `AvlTree.WrittenRunIsAvlIff` | basic/STL/AVLmap.h:80-88 | as written, the tree is balanced with right heights at every moment of a run exactly when every put is one that keeps it so |
| `AvlTree.WrittenRunCrashesIff` | basic/STL/AVLmap.h:89-110 | as written, a run follows a null link with its last put exactly when the tree before it meets the condition for one insertion |
| `AvlTree.EightPutsCrash` | basic/STL/AVLmap.h:105-107 | as written, the puts of 5, 0, 3, 1, 2, 4, 6 succeed and the put of 7 after them follows a null link; read with `else if` it does not |
| `AvlTree.SearchIsLookup` | basic/STL/AVLmap.h:176-191 | the search is the lookup in the map |
| `AvlTree.PairsAreTheMap` | basic/STL/AVLmap.h:192-199 | the in-order list has strictly growing keys and lists exactly the pairs of the map |
| `AvlMap.RightRotate` | basic/STL/AVLmap.h:35-47 | relinking two nodes and setting two heights in place is the right rotation of the tree held |
| `AvlMap.LeftRotate` | basic/STL/AVLmap.h:48-60 | relinking two nodes and setting two heights in place is the left rotation of the tree held |
| `AvlMap.RebalanceNode` | basic/STL/AVLmap.h:89-110 | the four cases in place are the rebalancing of the tree held, or a null link is followed exactly where it has none |
| `AvlMap.InsertNode` | basic/STL/AVLmap.h:71-111 | the recursion in place, in either reading, is insertion into the tree held, whatever its heights, a null link followed included; the nodes stay a tree, with all there were and at most one more, which is new |
| `AvlMap.AVLmap.Put` | basic/STL/AVLmap.h:215-218 | with the `else if` the map holds the updated map and stays balanced; as written the put follows a null link, or updates the map, exactly under the conditions for one insertion |
| `AvlMap.AVLmap.Get` | basic/STL/AVLmap.h:219-222 | the value under a key, or nothing |
| `AvlMap.AVLmap.Inorder` | basic/STL/AVLmap.h:227-232 | the in-order list of the tree held |
| `HashTable.FindAfterInsertIn` | basic/STL/hashmap.h:47-57 | every lookup in any chain, with repeated keys or not, after the walk of `insert` on it, whether or not it compares the last node |
| `HashTable.InsertUpdatesMapIff` | basic/STL/hashmap.h:31-64 | on every table that insertions keep, repeated keys or not: one insertion updates the map and nothing else exactly when, without a rehash, the walk does not miss the only place of the key while another value is there, and with one, every other key has the same value first and last in its chain |
| `HashTable.InsertKeepsDistinctIff` | basic/STL/hashmap.h:47-57 | keys stay distinct exactly when the walk compares the last node or the inserted key was not in it |
| `HashTable.InsertKeepsSound` | basic/STL/hashmap.h:31-64 | after any insertion every entry is in the bucket of its hash, the count is the number of entries, and the load is at most 3/4 |
| `HashTable.InsertDoublesIff` | basic/STL/hashmap.h:58-64 | the buckets are doubled exactly when a node was added and the load is now over 3/4 |
| `HashTable.FindAfterInsert` | basic/STL/hashmap.h:65-78 | every lookup after an insertion into any such table, in terms of the chains before |
| `HashTable.InsertAllIsSound` | basic/STL/hashmap.h:31-64 | over every run of insertions, in either reading: right buckets, a right count and load at most 3/4 |
| `HashTable.MembershipHolds` | basic/STL/hashmap.h:31-78 | over every run of insertions, in either reading: a key is found exactly when it was inserted |
| `HashTable.RunIsMap` | basic/STL/hashmap.h:31-78 | when the walk compares the last node too: after every run of insertions, rehashes included, a key finds the value last inserted under it, and no key comes twice |
| `HashTable.WrittenRunIsMapIff` | basic/STL/hashmap.h:47-57 | as written, a run holds its map at every moment exactly when each insertion meets the condition for one |
| `HashTable.NewKeysUpdate` | basic/STL/hashmap.h:31-64 | as written, every run that never inserts a key twice meets it |
| `HashTable.AnOldValueComesBack` | basic/STL/hashmap.h:210-228 | as written, a concrete run after which inserting a new key, by its rehash, gives another key its old value back |
| `HashTable.RehashKeepsEntries` | basic/STL/hashmap.h:210-228 | rehashing keeps the multiset of entries and doubles the buckets |
| `HashTable.FindAfterRehash` | basic/STL/hashmap.h:210-228 | rehashing finds, for each key, what was last in its chain; with distinct keys no lookup changes |
| `HashTable.RehashRepeatsIff` | basic/STL/hashmap.h:210-228 | rehashing neither makes nor removes repeated keys |
| `HashMap.HashMap.constructor` | basic/STL/hashmap.h:27 | an empty table with the given number of buckets |
| `HashMap.HashMap.Find` | basic/STL/hashmap.h:65-78 | the walk over the nodes finds what the lookup in the table finds |
| `HashMap.HashMap.Walk` | basic/STL/hashmap.h:47-56 | the walk stops at the first node it compares that has the key, or at the last node |
| `HashMap.HashMap.Insert` | basic/STL/hashmap.h:31-64 | in either reading, the nodes afterwards are chains of the table after insertion |
| `HashMap.HashMap.Rehash` | basic/STL/hashmap.h:210-228 | every node is relinked, none is made or lost, and the chains are those of the rehashed table |
| `HashMap.HashMap.Begin` | basic/STL/hashmap.h:124-134 | an iterator with no node behind it |
| `HashMap.Iterator.Advance` | basic/STL/hashmap.h:190-201 | the iterator passes exactly one node, over any empty buckets |
| `HashMap.Iterator.Equals` | basic/STL/hashmap.h:176-180 | two iterators of a map are equal exactly when as many nodes are behind them |
| `HashMap.HashMap.OrderHasNoRepeats` | basic/STL/hashmap.h:190-201 | no node comes twice in the order of iteration |
| `HashMap.HashMap.Entries` | basic/STL/hashmap.h:124-138 | from begin to end, the nodes of the table are visited in order, and the entries seen are those of the table, bucket after bucket |
| `HashMap.HashMap.Clear` | basic/STL/hashmap.h:109-123 | every node is freed once and the table is empty, with as many buckets as before |
| `LinkedList.InnerOfInserted` | basic/STL/myList.h:109-119 | inserting a node into the chain inserts its value at one place of the contents |
| `LinkedList.InnerOfErased` | basic/STL/myList.h:120-131 | taking a node out of the chain takes out one value of the contents |
| `LinkedList.Iterator.Increment` | basic/STL/myList.h:39-44 | one node on, but not beyond the last sentinel |
| `LinkedList.Iterator.Decrement` | basic/STL/myList.h:51-56 | one node back, but not beyond the first sentinel |
| `LinkedList.List.Insert` | basic/STL/myList.h:109-119 | `next` and `prev` stay inverse to each other; the new node, which is returned, stands before the given one, and all others keep their order |
| `LinkedList.List.Erase` | basic/STL/myList.h:120-131 | the node is out of the chain and the next one is returned; at a sentinel nothing changes and the end is returned |
| `LinkedList.List.PushFront` | basic/STL/myList.h:132-135 | the contents with a value in front |
| `LinkedList.List.PushBack` | basic/STL/myList.h:136-139 | the contents with a value behind |
| `LinkedList.List.PopFront` | basic/STL/myList.h:148-152 | the contents without the first value, if there is one |
| `LinkedList.List.PopBack` | basic/STL/myList.h:157-165 | the contents without the last value, if there is one |
| `LinkedList.List.Clear` | basic/STL/myList.h:97-108 | every node between the sentinels is freed once and the list is empty |
| `LinkedList.List.Print` | basic/STL/myList.h:183-191 | the traversal sees the contents in order |
| `Deque.GrowthIsCheap` | basic/STL/mydeque.h:32-55 | over every run of pushes and pops, the elements copied by growing are exactly the capacity gained and at most two per push, and the size is that of the sequence the run builds |
| `Deque.StepBack` | basic/STL/mydeque.h:51 | the subtraction that wraps around in `size_t` is one step back on the ring |
| `Deque.WindowPushFront` | basic/STL/mydeque.h:51-53 | writing one place before the front puts an element in front of the window |
| `Deque.WindowPushBack` | basic/STL/mydeque.h:61-63 | writing at the back puts an element behind the window |
| `Deque.WindowPopFront` | basic/STL/mydeque.h:71-72 | moving the front on drops the first element of the window |
| `Deque.Deque.Resize` | basic/STL/mydeque.h:32-44 | the elements are the same, from place 0 on, and as many as there are have been copied |
| `Deque.Deque.PushFront` | basic/STL/mydeque.h:45-54 | an element in front, growing when full |
| `Deque.Deque.PushBack` | basic/STL/mydeque.h:55-64 | an element behind, growing when full |
| `Deque.Deque.PopFront` | basic/STL/mydeque.h:65-73 | the first element gone, or `out_of_range` |
| `Deque.Deque.PopBack` | basic/STL/mydeque.h:74-83 | the last element gone, or `out_of_range` |
| `Deque.Deque.Back` | basic/STL/mydeque.h:84-90 | the last element, or `out_of_range` |
| `Deque.Deque.Front` | basic/STL/mydeque.h:98-103 | the first element, or `out_of_range` |
| `Deque.Iterator.Deref` | basic/STL/mydeque.h:124-128 | an iterator at `pos` sees element `pos` of the sequence |
| `Deque.Deque.Elements` | basic/STL/mydeque.h:165-172 | from begin to end, the elements in order |
| `SharedPtr.LastReleaseFrees` | basic/type_ptr/simpleSharedPtr.h:15-28 | letting go frees the object exactly when no other handle has it |
| `SharedPtr.ReleaseKeepsInv` | basic/type_ptr/simpleSharedPtr.h:15-28 | letting go keeps the invariant |
| `SharedPtr.ShareKeepsInv` | basic/type_ptr/simpleSharedPtr.h:46-50 | copying keeps the invariant |
| `SharedPtr.TakeKeepsInv` | basic/type_ptr/simpleSharedPtr.h:63-67 | moving keeps the invariant |
| `SharedPtr.AdoptKeepsInvIff` | basic/type_ptr/simpleSharedPtr.h:32-40 | giving a handle a pointer keeps the invariant exactly when no handle ever had that pointer |
| `SharedPtr.Step` | basic/type_ptr/simpleSharedPtr.h:15-112 | every operation, self-assignment included, keeps: null pointer exactly with null control block, one block per pointer, each count is the number of handles, every object is held or freed and freed once |
| `SharedPtr.StepMovesPointers` | basic/type_ptr/simpleSharedPtr.h:31-112 | for each operation: where the pointer goes, which handle becomes null, that all other handles keep theirs, and that at most one object is freed |
| `SharedPtr.RunsAreSafe` | basic/type_ptr/simpleSharedPtr.h:15-112 | after every run an object is freed, once, exactly if no handle is left on it |
| `SharedPtr.NothingLeaks` | basic/type_ptr/simpleSharedPtr.h:41-45 | when all handles are gone, no control block is left and every object has been freed once |
| `SimpleSharedPtr.Pointer.constructor` | basic/type_ptr/simpleSharedPtr.h:31-40 | a handle on a pointer never used before, or on null |
| `SimpleSharedPtr.Pointer.Copy` | basic/type_ptr/simpleSharedPtr.h:46-50 | the objects take the copy step of the machine |
| `SimpleSharedPtr.Pointer.Move` | basic/type_ptr/simpleSharedPtr.h:63-67 | the objects take the move step of the machine |
| `SimpleSharedPtr.Pointer.Assign` | basic/type_ptr/simpleSharedPtr.h:51-62 | the objects take the copy-assignment step of the machine, for itself too |
| `SimpleSharedPtr.Pointer.AssignMove` | basic/type_ptr/simpleSharedPtr.h:68-79 | the objects take the move-assignment step of the machine, for itself too |
| `SimpleSharedPtr.Pointer.Reset` | basic/type_ptr/simpleSharedPtr.h:100-112 | the objects take the reset step of the machine |
| `SimpleSharedPtr.Pointer.Destroy` | basic/type_ptr/simpleSharedPtr.h:41-45 | the objects take the destruction step of the machine |
| `SimpleSharedPtr.Pointer.UseCount` | basic/type_ptr/simpleSharedPtr.h:95-98 | the number of handles on the same object |
| `Perceptron.MistakeBound` | tsoding/neural_network.cpp:201-223 | from any weights, over any samples: the adjustments, plus the squared distance of the final weights to u, are at most the squared distance before plus twice what u itself falls short of on the misjudged samples |
| `Perceptron.SeparableMistakeBound` | tsoding/neural_network.cpp:201-223 | from zero weights, if u separates the samples with a margin m and no sample has more than 2 m + 1 cells set, the adjustments are at most the sum of the squares of u |
| `Perceptron.WeightsAreBounded` | tsoding/neural_network.cpp:133-153 | no weight is ever larger than the number of adjustments |
| `Perceptron.FloatsAreExact` | tsoding/neural_network.cpp:120-153 | up to 6710 adjustments, no weight and no sum on the way to a score leaves the integers that a `float` holds |
| `Perceptron.RunAppend` | tsoding/neural_network.cpp:247-252 | training on two sample sequences one after another is training on both together: weights compose and adjustments add up |
| `Perceptron.NoAdjustmentIff` | tsoding/neural_network.cpp:201-223 | a run makes no adjustment exactly when the weights it starts from score every circle at 10 or more and every rectangle at 10 or less |
| `Perceptron.ScoreAfter` | tsoding/neural_network.cpp:133-153 | what showing a sample does to the score of any image: nothing if it was scored rightly, else it moves by the overlap of the two, up for a circle and down for a rectangle |
| `Perceptron.TrainingConverges` | tsoding/neural_network.cpp:245-252 | if the same separable samples are shown often enough, the last pass makes no adjustment, and every sample is scored on its side of 10 |
| `Perceptron.EveryPassAdjusts` | tsoding/neural_network.cpp:201-223 | if pass number n over the same samples still adjusts, there have been at least n adjustments; with the mistake bound, only so many passes adjust |
| `Trainer.Clampi` | tsoding/neural_network.cpp:20-27 | the nearest value in the range |
| `Trainer.FillRect` | tsoding/neural_network.cpp:28-43 | exactly the cells of the rectangle, cut off at the edge, get the value |
| `Trainer.FillCircle` | tsoding/neural_network.cpp:44-63 | exactly the cells in the disc get the value |
| `Trainer.RandRange` | tsoding/neural_network.cpp:157-161 | any value from low up to but not including high |
| `Trainer.RandomRect` | tsoding/neural_network.cpp:162-178 | the argument is cleared and one rectangle of ones, which lies inside the layer, drawn into the global layer, which may be the same |
| `Trainer.RandomCircle` | tsoding/neural_network.cpp:179-199 | the argument is cleared and one disc of ones around a cell drawn into the global layer, which may be the same |
| `Trainer.FeedForward` | tsoding/neural_network.cpp:120-131 | the loops compute the scalar product |
| `Trainer.AddInputsToWeights` | tsoding/neural_network.cpp:133-142 | the loops add the sample to the weights |
| `Trainer.SubInputsFromWeights` | tsoding/neural_network.cpp:144-153 | the loops subtract the sample from the weights |
| `Trainer.TrainPass` | tsoding/neural_network.cpp:201-223 | a pass shows 500 rectangles and 500 discs by turns, adjusts as the specification does, and returns the number of adjustments |
| `LogQueue.NextKeepsInv` | basic/final1/log.h:26-57 | a push, the shutdown, a wake-up or a worker step keeps: written, in hand and queued are together what was pushed, in order, and a worker asleep without a wake pending has an empty queue and no shutdown |
| `LogQueue.RunsAreSafe` | basic/final1/log.h:26-57 | the same over every interleaving |
| `LogQueue.PushedArePushes` | basic/final1/log.h:26-31 | over every interleaving, written, in hand and queued are the messages that were pushed, as they were given, collected from the events |
| `LogQueue.PushesGoOnWhileWriting` | basic/final1/log.h:82-87 | a message is popped with the mutex held and written without it |
| `LogQueue.QueueIsWritten` | basic/final1/log.h:82-87 | left alone, a worker that has not finished writes everything that was pushed |
| `LogQueue.ShutdownDrains` | basic/final1/log.h:89-97 | after the shutdown the worker, left alone, finishes, and then everything pushed before its exit has been written |
| `LogQueue.Logger.Push` | basic/final1/log.h:26-31 | the object takes the push step of the machine |
| `LogQueue.Logger.Shutdown` | basic/final1/log.h:52-57 | the object takes the shutdown step of the machine |
| `LogQueue.Logger.WorkerStep` | basic/final1/log.h:32-51 | the object takes the worker step of the machine |
| `LogFormat.FormatBody` | basic/final1/log.h:135-158 | the loops compute the recursive substitution: the leftmost placeholder takes the next argument, and inserted text is never looked at again |
| `LogFormat.FilledIsJoin` | basic/final1/log.h:141-154 | the result is the pieces between the placeholders, joined by the arguments |
| `LogFormat.FirstHoleIsFilled` | basic/final1/log.h:141-154 | the first `{}` of any format is replaced by the first argument; without one there is only appending |
| `LogFormat.WithoutArguments` | basic/final1/log.h:146-149 | without arguments the format stays as it is |
| `LogFormat.FilledLength` | basic/final1/log.h:141-158 | the length: each placeholder that gets an argument is replaced by it, and nothing else is lost |
| `LogFormat.MissingArgumentsLeaveHoles` | basic/final1/log.h:146-149 | placeholders without an argument stay as they are |
| `LogFormat.SurplusArgumentsAreAppended` | basic/final1/log.h:155-158 | arguments without a placeholder are appended in order |
| `TaskStore.LoadLineIff` | basic/final2/TaskManager.h:95-119 | a line is read back as it was written exactly when the description holds no comma |
| `TaskStore.SavingIsLosslessIff` | basic/final2/TaskManager.h:84-127 | the saved file gives the tasks back exactly when no description holds a comma and no text a newline |
| `TaskStore.ScanIntText` | basic/final2/TaskManager.h:116 | a printed int is scanned back, up to the first character that is no digit |
| `TaskStore.LoadedAreOneLine` | basic/final2/TaskManager.h:109-120 | no task is ever loaded with a newline in it, whatever the file |
| `TaskStore.TypedTaskIsAdded` | basic/final2/command.h:29-44 | typing what a saved line holds after its id adds that task |
| `TaskStore.AddReads` | basic/final2/command.h:31-42 | what the add command does with two comma-free fields and any third one |
| `TaskStore.TypedLineIsUpdated` | basic/final2/command.h:111-134 | typing a saved line as an update gives the task with that id, if there is one, the line's fields |
| `TaskStore.TypedIdIsDeleted` | basic/final2/command.h:54-71 | typing an id removes that task; anything after the number is refused |
| `TaskStore.ExecuteKeepsInv` | basic/final2/main.cpp:19-48 | whatever line is typed: ids stay growing, positive and below the next one, descriptions comma-free, the file in step with the tasks, and the next id never falls |
| `TaskStore.RunKeepsInv` | basic/final2/main.cpp:19-48 | the same over every run of the program, however it ends |
| `TaskStore.RestartIsLossless` | basic/final2/TaskManager.h:100-127 | a restart brings the same tasks back; the next id falls back exactly when the task that got the last id is gone |
| `TaskStore.SessionsAreLossless` | basic/final2/TaskManager.h:14-17 | over any number of runs, each starting from the file of the one before, the file can always be read and the invariant holds |
| `TaskStore.EveryStartIsLossless` | basic/final2/main.cpp:19-48 | from the very first start, without a file: every start finds the tasks that the run before it ended with, whatever was typed |
| `TaskStore.RestartReusesAnId` | basic/final2/TaskManager.h:121-122 | after adding and deleting one task and restarting, id 1 is given out again |
| `TaskStore.AddTaskUpdatesTheMap` | basic/final2/TaskManager.h:18-28 | adding defines one new id and touches no other |
| `TaskStore.RemoveTaskUpdatesTheMap` | basic/final2/TaskManager.h:29-41 | removing undefines one id and touches no other |
| `TaskStore.UpdateTaskUpdatesTheMap` | basic/final2/TaskManager.h:42-56 | updating redefines one id if it is there, and touches no other |
| `TaskStore.NothingToChange` | basic/final2/TaskManager.h:29-56 | removing or updating an id that is not there changes nothing, and does not write the file |
| `TaskLines.AddLine` | basic/final2/command.h:29-44 | a line of `add`, description, priority and date appends exactly that task under the next id, or ends the program at the largest id |
| `TaskLines.UpdateLine` | basic/final2/command.h:111-134 | a line of `update`, id and three fields rewrites the task with that id and no other; without it nothing changes |
| `TaskLines.DeleteLine` | basic/final2/command.h:54-71 | a line of `delete` and an id removes that task and no other; with anything behind the number nothing changes |
| `TaskLines.ListLine` | basic/final2/main.cpp:23-47 | `list` changes nothing, and needs a number that stands alone |
| `TaskLines.OtherLine` | basic/final2/main.cpp:26-47 | only these four words are commands; an empty line, `exit` and `quit` |
| `TaskLines.BadLine` | basic/final2/command.h:31-42 | too few commas are refused; a number that is none ends the program; nothing changes |
| `TaskLines.RunGoesOnIff` | basic/final2/main.cpp:19-48 | the program goes on with the next line unless this one ends it |
| `TaskLines.NumberScans` | basic/final2/command.h:35-60 | what `stoi` and `>>` make of white space, a sign, digits and what follows, and of numbers that 32 bits cannot hold |
| `TaskLines.FileText` | basic/final2/TaskManager.h:93-96 | the file has a line for every task: id, description, priority and date, with commas between them |
| `TaskLines.LineIsRead` | basic/final2/TaskManager.h:113-120 | the character behind the id separates the description too, and any character the date |
| `TaskLines.BadLineIsRead` | basic/final2/TaskManager.h:113-120 | a line whose id or priority cannot be read |
| `TaskLines.LinesAreRead` | basic/final2/TaskManager.h:109-124 | every line but an empty one becomes a task, and the next id is one above all ids read |
| `TaskManager.TaskManager.LoadTasks` | basic/final2/TaskManager.h:100-127 | for every file: the loop over the lines reaches the state that loading the file defines, or meets a line that makes it undefined |
| `TaskManager.TaskManager.SaveTasks` | basic/final2/TaskManager.h:84-99 | the loop over the tasks writes the text of all of them |
| `TaskManager.TaskManager.AddTask` | basic/final2/TaskManager.h:18-28 | the object takes the add step of the specification |
| `TaskManager.TaskManager.RemoveTask` | basic/final2/TaskManager.h:29-41 | the object takes the remove step, and says whether the task was there |
| `TaskManager.TaskManager.UpdateTask` | basic/final2/TaskManager.h:42-56 | the object takes the update step, and says whether the task was there |
| `TaskManager.TaskManager.AddCommand` | basic/final2/command.h:29-44 | format errors, exceptions, overflow of the id and success, each with its state |
| `TaskManager.TaskManager.DeleteCommand` | basic/final2/command.h:54-71 | the argument must be a number and nothing else |
| `TaskManager.TaskManager.UpdateCommand` | basic/final2/command.h:111-134 | four fields at the first three commas |
| `TaskManager.TaskManager.Execute` | basic/final2/main.cpp:23-47 | the first word selects the command, the rest is its argument |
| `TaskManager.TaskManager.CommandLoop` | basic/final2/main.cpp:19-48 | the loop ends at exit, quit or an uncaught exception, in the state of the run |

## Left out

- Sockets, strands, coroutines, thread and service pools, signals: chunks that arrive, writes that complete or fail, and wake-ups are steps of the machines.
- The registries of sessions and connections, and singletons.
- The read loop of asio/Coroutine/CSession.h, which assigns the body node to the head pointer (line 104).
- asio/Asycapi.cpp: its callback for partial writes carries the byte count over to the next node.
- `_b_stop` of `LogicSystem` is a plain `bool` that two threads use without a lock; its reads and writes are taken to be atomic steps.
- The callbacks behind the message queue: only which of them is called, on which message, in which order.
- JSON doubles: a double is carried as its text, and which texts fit is any predicate; the printer's doubles and its tuples, pointers and optionals are not modelled. Where the source reads the character at the very end of its input, nothing matches.
- Posted messages are values: a session does not touch a node after posting it.
- `mymap::erase` and the miss of `mymap::find`: the one drops an only child, the other has no result.
- `AVLmap::deleteNode`, `getMinn`: `getMinn` always gives null. `get` and the search call members that are not declared; the search is modelled as calling itself.
- `hashmap::find` gives the value, not a pointer through which it can be changed. `hashmap::erase` is left out: it follows a null pointer on an empty bucket and goes on after removing.
- `List::size`: it binds a reference to a temporary and does not compile when used. Writing through iterators and references, and the postfix forms other than `++` of `List`.
- The elements of list and trees are ints; hash functions are any function. Printing on the console is left out of the containers.
- `Deque`: a capacity of 0, one of more than half the range of `size_t`, and `resize` to a capacity not above the count are excluded; the postfix forms of its iterator return references to locals.
- `simpleSharedPtr` inside the objects it owns: an object's destructor does not touch handles. Pointers given to handles were never given to one before; `SharedPtr.AdoptKeepsInvIff` says this is needed.
- Memory is not freed in the heap models: what has been freed is recorded.
- The trainer's floats are integers: they are exact up to 6710 adjustments (`Perceptron.FloatsAreExact`), and rounding beyond that is not modelled. Random draws are any value in range; `check_pass`, saving layers and pictures are left out.
- The logger's time stamp and level text.
- Sorting in the task list, messages to the user, and a task file that cannot be opened for writing. A file whose lines would leave a priority uninitialized, or push the next id over the largest int, is an outcome of its own, after which nothing is said. The command loop ends with its input.
- Integers of the task store are 32 bits, with the overflow of the id counter as an outcome; message ids and lengths are 16 bits; sizes elsewhere are unbounded.
