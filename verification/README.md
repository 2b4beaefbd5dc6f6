# Proofs about the mail server, its tree library, key-value server and template engine

The repository holds an SMTP server in Python and, under `refs/`, the C programs it grew out of: the
BSD tree macros with a key-value database on top, a server that answers requests asynchronously, and
a template engine with its own object store. These files model that code in Dafny and prove what it
promises. `dafny verify dfyconfig.toml` checks everything.

## What is modelled

**Trees.** `RBShape` to `RedBlack`, `RBQueries`, `RBHeight` and `SplayShape` to `Splay` keep the form of
`tree.h`: nodes are objects whose left, right, parent and colour fields are rewritten in place, in
the order of the macros. A ghost tree says what the fields mean; a path from the root to a hole (`Ctx`)
says where the code is working. The fix-up loops are proved to end, never to follow a null link, and to
restore the colour rules. `DbSimple` puts the database on the tree and shows that it is a map.

**Threads.** `CndQueue`, `SemRing`, `ParallelDb`, `DbThreads` and `PollServer` are state machines whose steps
are the atomic actions of the threads. A run is any sequence of enabled steps, so the results hold for every
interleaving. Histories of what was pushed, answered and delivered are part of the state. `ParallelDb` has
atomic queues; `DbThreads` puts the same workers on the queues of `CndQueue` and carries the results over.

**Streams.** `LineSplitter`, `WriteQueue` and `Framing` work on real buffers. The environment chooses the
size of every read and send.

**Templates.** `TemplateTree` and `TemplateLexer` say what a template is, `TemplatePool` to
`TemplateParser` are the parser that builds nodes with child lists and parent links in one scan, and
`TemplateRoundTrip` shows that it inverts printing. `Objects`, `ObjectPaths`, `Locations`, `Namespace`
and `NamespaceSet` are the object store on real objects that own their items, and `LocationPrint` says which
locations there are. `Values`, `Deepcopy`, `TemplateEval`, `TemplateNodes` and `TemplateRun` show that running
the parser's nodes refines an evaluator on values. `TemplateLaws` says what each directive puts out, and
`Templates` takes a text through it all. `ObjectOrder` treats comparison, `CopyOrder` how a deep copy compares
with its source, and `Vis` the visible encoding.

**Mail.** `MailSession` and `MailClient` are one SMTP session under every order of read and write steps.
`MailDialogue` says where each command leads, `MailReset` what RSET leaves behind, and `MailBody` what a
message is filed with.

## Where the code differs from what it promises

- `string_hash` can give 255, and the assertion on the shard number then fails: `ParallelDb.AbortsExactly`.
- A keyword is recognised as a prefix, so the name `elsewhere` is an `else`: `TemplateRoundTrip.BareExactly`.
- A deep copy does not compare equal to its source if there is a dictionary in it: `CopyOrder.CopyAndCompare`.
- `strnvis` returns 0, not the full length, for a buffer of size 1: `Vis.Strnvis`.
- `MARRAY_MAX` is 128M, but storage only grows to 64M slots: `MArray.MArray.NextSize`.
- An empty string in a write buffer fails the assertion in `wrbuffer_remained`; `poll_server.c` adds a stored
  value as it is. `WriteQueue.WriteBuffer.Send` says when sending aborts.
- `destroy_cnct` asserts that nothing is in flight, which an unread answer violates: `PollServer.DestroyAssertion`
  says when, and `PollServer.DestroyAssertionFails` gives a run.
- `RSET` clears neither the recipients nor the DATA flag of a session, so a message can be filed without a DATA
  after the last RSET. Exactly the runs in which a RSET arrives while the flag is up lead there
  (`MailReset.OwnDataExactly`); the flag is up not only while the reply to DATA is due, but also after a RCPT TO
  that follows DATA. `MailSession.FiledOnlyWhenReady` therefore speaks of a DATA since the last completed
  message. Section 4.1.1.5 of RFC 5321 asks for more.
- Nothing clears the body of a session, and a line of a message is dropped if a dot is among its last eight
  characters and it does not end the message, or if it starts like RCPT or DATA without being one. A message is
  filed as it was sent if none of its lines was dropped and the earlier bodies were empty:
  `MailBody.OwnBodyExactly`.
- A get that reaches a shard after `destroy` has joined its worker is never answered: `ParallelDb.LateGetIsLost`.

## Model

| member | source | states |
|---|---|---|
| `RedBlack.Head.RotateLeftAt` | refs/examples/posix-programming_labs/struct_bsd/inc/tree.h:340-358 | A left rotation anywhere in a valid tree gives the rotated tree, with consistent parent links and the same nodes in the same order |
| `RedBlack.Head.RotateRightAt` | refs/examples/posix-programming_labs/struct_bsd/inc/tree.h:360-378 | The same for a right rotation |
| `RedBlack.Head.InsertColor` | refs/examples/posix-programming_labs/struct_bsd/inc/tree.h:405-447 | From any tree whose only fault is a red node under a red parent, the loop terminates, never follows a null grandparent, and leaves a red-black tree with the same nodes in the same order |
| `RedBlack.Head.InsertColorLeft` | refs/examples/posix-programming_labs/struct_bsd/inc/tree.h:412-427 | One round with the parent on the left: the fault moves up to the grandparent or is gone |
| `RedBlack.Head.InsertColorRight` | refs/examples/posix-programming_labs/struct_bsd/inc/tree.h:428-444 | One round with the parent on the right |
| `RBInsertion.Grandparent` | refs/examples/posix-programming_labs/struct_bsd/inc/tree.h:409-412 | A red parent is never the root, so the grandparent exists |
| `RBInsertion.RecolouredInserting` | refs/examples/posix-programming_labs/struct_bsd/inc/tree.h:414-419 | Recolouring parent, uncle and grandparent keeps the black counts and moves the only possible fault up |
| `RBInsertion.RaisedInserting` | refs/examples/posix-programming_labs/struct_bsd/inc/tree.h:426-427 | Recolouring and rotating at the grandparent ends the fault without changing a black count |
| `RedBlack.Head.Insert` | refs/examples/posix-programming_labs/struct_bsd/inc/tree.h:595-623 | An equal key returns the node that has it and changes nothing; otherwise the new node stands at its place in the order, and the tree is a red-black search tree again |
| `RBOrder.InsertOrdered` | refs/examples/posix-programming_labs/struct_bsd/inc/tree.h:602-617 | The place the descent ends at is the one where the new key keeps the order |
| `RBRemoval.SiblingExists` | refs/examples/posix-programming_labs/struct_bsd/inc/tree.h:455-457 | While a black node is missing on one side, the sibling is not null |
| `RBRemoval.SiblingRaisedRemoving` | refs/examples/posix-programming_labs/struct_bsd/inc/tree.h:457-461 | Rotating a red sibling up keeps the shortage below it and nothing else |
| `RBRemoval.ShortageRises` | refs/examples/posix-programming_labs/struct_bsd/inc/tree.h:462-468 | With a black sibling and black nephews the shortage moves to the parent |
| `RBRemoval.NephewRaisedRemoving` | refs/examples/posix-programming_labs/struct_bsd/inc/tree.h:470-479 | Rotating the near nephew up makes the far nephew red and keeps the shortage |
| `RBRemoval.SettledRedBlack` | refs/examples/posix-programming_labs/struct_bsd/inc/tree.h:480-486 | The last rotation makes every black count equal again |
| `RedBlack.Head.RemoveColorLeft` | refs/examples/posix-programming_labs/struct_bsd/inc/tree.h:455-487 | One round of the fix-up on the left: every branch ends the shortage or moves it up |
| `RedBlack.Head.RemoveColorRight` | refs/examples/posix-programming_labs/struct_bsd/inc/tree.h:488-521 | One round of the fix-up on the right |
| `RedBlack.Head.RemoveColor` | refs/examples/posix-programming_labs/struct_bsd/inc/tree.h:449-525 | From any tree that lacks one black node on one path, the loop terminates without following a null sibling and leaves a red-black tree with the same nodes in the same order |
| `RedBlack.Head.Detach` | refs/examples/posix-programming_labs/struct_bsd/inc/tree.h:576-587 | A node with at most one child leaves the tree and its child takes its place, parent link included |
| `RedBlack.Head.TakePlace` | refs/examples/posix-programming_labs/struct_bsd/inc/tree.h:556-567 | The stores that move the fields of one node to another put the second exactly in the place of the first |
| `RedBlack.Head.Successor` | refs/examples/posix-programming_labs/struct_bsd/inc/tree.h:538-543 | The walk right and then left ends at the next node in order |
| `RBOrder.SuccessorInorder` | refs/examples/posix-programming_labs/struct_bsd/inc/tree.h:536-574 | Moving the successor to the place of the removed node takes out exactly that node |
| `RedBlack.Head.RemoveInner` | refs/examples/posix-programming_labs/struct_bsd/inc/tree.h:536-575 | The two-children case, including a successor that is itself the right child |
| `RedBlack.Head.Remove` | refs/examples/posix-programming_labs/struct_bsd/inc/tree.h:527-592 | Removing any node of any valid tree leaves a red-black search tree whose nodes in order are the others in order, and returns that node |
| `RBQueries.Find` | refs/examples/posix-programming_labs/struct_bsd/inc/tree.h:626-641 | The node with the key, or null exactly if no node has it |
| `RBQueries.NFind` | refs/examples/posix-programming_labs/struct_bsd/inc/tree.h:644-662 | The first node in order whose key is not below the given one, or null if there is none |
| `RBQueries.Next` | refs/examples/posix-programming_labs/struct_bsd/inc/tree.h:665-684 | The next node in order through right links or parent links, or null behind the last |
| `RBQueries.MinMax` | refs/examples/posix-programming_labs/struct_bsd/inc/tree.h:708-721 | The first or the last node in order, or null for the empty tree |
| `RBHeight.HeightBound` | refs/examples/posix-programming_labs/struct_bsd/inc/tree.h:51-60 | Two to the height is at most the square of the number of nodes plus one: the height bound 2 lg (n+1) of the header |
| `DbSimple.SimpleDb.Get` | refs/examples/posix-programming_labs/db_simple/src/db_simple.c:42-54 | get finds the value of the key in the map the tree stands for, and none exactly if the key is not in it |
| `DbSimple.SimpleDb.DropNode` | refs/examples/posix-programming_labs/db_simple/src/db_simple.c:72-80 | drop_node removes the key from the map and nothing else |
| `DbSimple.SimpleDb.Set` | refs/examples/posix-programming_labs/db_simple/src/db_simple.c:82-141 | set and set_inst give the key the value, also on a collision, or without a value take the key out of the map; every other key stays |
| `DbSimple.SimpleDb.DestroyFirst` | refs/examples/posix-programming_labs/db_simple/src/db_simple.c:30-33 | One round of the destroy loop: the first node leaves and the next in order is at hand |
| `DbSimple.SimpleDb.Destroy` | refs/examples/posix-programming_labs/db_simple/src/db_simple.c:25-35 | destroy frees every node exactly once, in order, and leaves the root null |
| `Splay.Head.RotateRight` | refs/examples/posix-programming_labs/struct_bsd/inc/tree.h:86-90 | The rotation at the root keeps the order of all nodes over the accumulator trees |
| `Splay.Head.LinkLeft` | refs/examples/posix-programming_labs/struct_bsd/inc/tree.h:98-102 | The root with its right subtree goes to the accumulator of larger nodes; the order of all nodes stays |
| `Splay.Head.LinkRight` | refs/examples/posix-programming_labs/struct_bsd/inc/tree.h:104-108 | The mirror image for smaller nodes |
| `Splay.Head.Assemble` | refs/examples/posix-programming_labs/struct_bsd/inc/tree.h:110-115 | The two accumulators become the subtrees of the root |
| `SplayMemory.AssembledFacts` | refs/examples/posix-programming_labs/struct_bsd/inc/tree.h:110-115 | Assembling keeps exactly the nodes, in order |
| `Splay.Head.Splay` | refs/examples/posix-programming_labs/struct_bsd/inc/tree.h:207-240 | The splay terminates, keeps the nodes in order, and brings up the node with the key or a neighbour of its place: all nodes left of the root are below the key, all right of it above |
| `Splay.StopSplayed` | refs/examples/posix-programming_labs/struct_bsd/inc/tree.h:216-238 | Each way out of the loop stops at such a root |
| `Splay.Head.SplayMinMax` | refs/examples/posix-programming_labs/struct_bsd/inc/tree.h:245-276 | The first or last node comes to the root, with nothing before or behind it |
| `Splay.Head.Find` | refs/examples/posix-programming_labs/struct_bsd/inc/tree.h:126-135 | The node with the key, now at the root, or null exactly if no node has it |
| `Splay.Head.Next` | refs/examples/posix-programming_labs/struct_bsd/inc/tree.h:137-149 | The next node in order |
| `Splay.Head.Insert` | refs/examples/posix-programming_labs/struct_bsd/inc/tree.h:162-184 | An equal key returns the node that has it; otherwise the new node is the root and the order is kept |
| `Splay.LastOnTop` | refs/examples/posix-programming_labs/struct_bsd/inc/tree.h:198-200 | Splaying for a key above all nodes leaves a root without a right child |
| `Splay.Head.Remove` | refs/examples/posix-programming_labs/struct_bsd/inc/tree.h:186-205 | The node with the key leaves and the others stay in order, or no node has the key and nothing changes but the shape |
| `CndQueue.Fifo` | refs/examples/posix-programming_labs/req_queue_cnd/src/req_queue_cnd.c:42-72 | In every interleaving of one consumer and any number of producers, what was returned, what is local and what is shared is together what was pushed, in lock order |
| `CndQueue.NullMeansDrained` | refs/examples/posix-programming_labs/req_queue_cnd/src/req_queue_cnd.c:50-51 | pop returns null only after stop, with everything pushed already returned |
| `CndQueue.BlockedMeansEmpty` | refs/examples/posix-programming_labs/req_queue_cnd/src/req_queue_cnd.c:54-55 | Unless a thread that holds the mutex is about to signal, a blocked consumer has nothing queued and no stop pending: no wake-up is lost |
| `CndQueue.MutualExclusion` | refs/examples/posix-programming_labs/req_queue_cnd/src/req_queue_cnd.c:30-72 | At most one thread is between lock and unlock |
| `CndQueue.Refines` | refs/examples/posix-programming_labs/req_queue_cnd/src/req_queue_cnd.c:30-72 | Every step is one step of a queue whose operations are atomic, or shows nothing |
| `SemRing.SlotsAccounted` | refs/examples/posix-programming_labs/struct_queue_sem/inc/queue_sem.h:63-86 | At every intermediate step the two counts and the threads inside push and pop add up to the size |
| `SemRing.AssertionHolds` | refs/examples/posix-programming_labs/struct_queue_sem/inc/queue_sem.h:68-71 | push always finds its slot null, and both indices stay inside the ring |
| `SemRing.PoppedIsPrefix` | refs/examples/posix-programming_labs/struct_queue_sem/inc/queue_sem.h:75-86 | What was popped is, in order, a prefix of what was pushed |
| `StringHash.ComputeHash` | refs/examples/posix-programming_labs/db_parallel/src/string_hash.c:5-11 | The loop computes the shard from the first sixteen signed characters, shifted, modulo 256 |
| `StringHash.SixteenCharacters` | refs/examples/posix-programming_labs/db_parallel/src/string_hash.c:5-11 | The sum written out: each of sixteen signed characters shifted right by half its place |
| `StringHash.PaddedHash` | refs/examples/posix-programming_labs/db_parallel/src/string_hash.c:5-11 | A shorter key hashes as if NUL characters followed |
| `StringHash.LongKeysShareShard` | refs/examples/posix-programming_labs/db_parallel/src/string_hash.c:8 | Keys that agree in sixteen characters go to one shard |
| `ParallelDb.AnswersAreSequential` | refs/examples/posix-programming_labs/db_parallel/src/db_parallel.c:11-33 | In every interleaving of pushes and workers, each answer is the value of the last set of its key pushed before the request, and none if there was none or it had no value |
| `ParallelDb.AnsweredAtMostOnce` | refs/examples/posix-programming_labs/db_parallel/src/db_parallel.c:20-29 | No request is answered twice or by another shard |
| `ParallelDb.DestroyAnswersAll` | refs/examples/posix-programming_labs/db_parallel/src/db_parallel.c:37-54 | When destroy has joined the workers, every get pushed before its shard was stopped has been answered exactly once |
| `ParallelDb.LateGetIsLost` | refs/examples/posix-programming_labs/db_parallel/src/db_parallel.c:70-81 | A get pushed to a shard whose worker has left is accepted and never answered |
| `DbThreads.Refines` | refs/examples/posix-programming_labs/db_parallel/src/db_parallel.c:11-54 | The workers, clients and destroy on the real queue operations of req_queue_cnd.c: every run of their atomic steps shows a run of the database with atomic queues |
| `DbThreads.ThreadedAnswers` | refs/examples/posix-programming_labs/db_parallel/src/db_parallel.c:11-33 | So each answer is the value of the last set of its key, and is given at most once, whatever the interleaving inside push, pop and stop |
| `DbThreads.ThreadedDestroy` | refs/examples/posix-programming_labs/db_parallel/src/db_parallel.c:37-54 | And every get pushed before its queue was stopped has been answered once destroy has joined the workers |
| `ParallelDb.AssertionCanFail` | refs/examples/posix-programming_labs/db_parallel/src/db_parallel.c:61-68 | The assertion on the shard number fails for the key `ddn` |
| `ParallelDb.AbortsExactly` | refs/examples/posix-programming_labs/db_parallel/src/db_parallel.c:61-68 | A run aborts exactly if it pushes a key whose first sixteen shifted characters add up to 255 modulo 256, and that push is its last step |
| `ParallelDb.RunAborts` | refs/examples/posix-programming_labs/db_parallel/src/db_parallel.c:61-68 | Pushing `ddn` is such a run |
| `PollServer.AddFd` | refs/examples/posix-programming_labs/server_poll/src/poll_server.c:126-135 | The search takes the first slot that is shut, or none if all are taken |
| `PollServer.CountIsInFlight` | refs/examples/posix-programming_labs/server_lib/src/cnct.c:61-105 | In every run queue_cnt is the number of requests of the slot still in the database plus its answers still in the pipe; WAIT means some, SHUT none |
| `PollServer.AssertionsNeverFail` | refs/examples/posix-programming_labs/server_lib/src/cnct.c:61-77 | No assertion of inc_queue_cnt or dec_queue_cnt fails |
| `PollServer.AnswerReachesItsClient` | refs/examples/posix-programming_labs/server_poll/src/poll_server.c:183-208 | An answer read from the pipe goes to the client that asked, or is dropped if that client is gone |
| `PollServer.SentToItsClient` | refs/examples/posix-programming_labs/server_poll/src/poll_server.c:194-203 | Every queued answer belongs to the client now on the slot |
| `PollServer.NewClientStartsClean` | refs/examples/posix-programming_labs/server_poll/src/poll_server.c:126-135 | A slot given to a new client has nothing in flight and nothing queued |
| `PollServer.ClientsDiffer` | refs/examples/posix-programming_labs/server_poll/src/poll_server.c:126-135 | Slots in use have different clients, and a new client has a number no slot in use and no request had |
| `PollServer.PipeInOrder` | refs/examples/posix-programming_labs/server_poll/src/poll_server.c:183-208 | Answers are read from the control pipe in the order in which they were written |
| `PollServer.SentInOrder` | refs/examples/posix-programming_labs/server_poll/src/poll_server.c:194-208 | The answers put into the buffer of an open slot are those sent followed by those waiting, in order |
| `PollServer.RequestsConserved` | refs/examples/posix-programming_labs/server_poll/src/poll_server.c:160-208 | Every request is waiting, in the pipe, delivered or dropped, and in one of them only |
| `PollServer.DestroyAssertion` | refs/examples/posix-programming_labs/server_lib/src/cnct.c:52-54 | After the database is destroyed, the assertion of destroy_cnct holds exactly for slots with no unread answer |
| `PollServer.DestroyAssertionFails` | refs/examples/posix-programming_labs/server_poll/src/poll_server.c:108-116 | A run from the start after which it fails: accept, ask, close, answer |
| `WriteQueue.WriteBuffer.Add` | refs/examples/posix-programming_labs/struct_wrbuffer/inc/wrbuffer.h:49-60 | A string goes behind all pending bytes |
| `WriteQueue.WriteBuffer.Remained` | refs/examples/posix-programming_labs/struct_wrbuffer/inc/wrbuffer.h:99-108 | The bytes left of the first string; the assertion fails exactly if that string is empty |
| `WriteQueue.WriteBuffer.Shift` | refs/examples/posix-programming_labs/struct_wrbuffer/inc/wrbuffer.h:82-97 | Dropping sent bytes takes exactly that many from the pending ones |
| `WriteQueue.WriteBuffer.Send` | refs/examples/posix-programming_labs/server_lib/src/wrbuf_io.c:4-20 | Whatever the sizes of the sends, the bytes sent followed by those pending are what they were before; it goes on until nothing is left or a send is partial or fails, which it reports; it aborts exactly if an empty string comes to the front, and then exactly the strings before it have been sent |
| `WriteQueue.EmptyStringAborts` | refs/examples/posix-programming_labs/struct_wrbuffer/inc/wrbuffer.h:49-60 | A buffer that was given an empty string makes the next send abort |
| `Framing.Buffer.Find` | refs/examples/posix-programming_labs/struct_buffer/inc/buffer.h:98-113 | The first place of the string in the buffer, or -1 if it is nowhere |
| `Framing.Buffer.Cut` | refs/examples/posix-programming_labs/struct_buffer/inc/buffer.h:65-80 | The bytes cut and the bytes left are the bytes that were there |
| `Framing.Buffer.Clean` | refs/examples/posix-programming_labs/struct_buffer/inc/buffer.h:82-90 | The given number of bytes leaves the front |
| `Framing.Connection.ProcessCnct` | refs/examples/posix-programming_labs/server_lib/src/cnct_io.c:37-63 | Requests cut so far followed by the buffered bytes are all bytes received; at most one request is cut for one receive; the result tells a full buffer, a failed receive and a failed request from a served one and from none |
| `Framing.FirstIsRequest` | refs/examples/posix-programming_labs/server_lib/src/cnct_io.c:52-55 | What is cut ends with CRLF and has no CRLF before |
| `Framing.RequestExactly` | refs/examples/posix-programming_labs/server_lib/src/cnct_io.c:52-55 | Carriage return and line feed stand at the end of a request and nowhere before |
| `LineSplitter.MachineLines` | refs/examples/posix-programming_labs/log_lib/src/process.c:16-34 | While there is room, the character machine cuts exactly the lines of the buffer |
| `LineSplitter.SameRelieved` | refs/examples/posix-programming_labs/log_lib/src/process.c:41-44 | The machine cannot tell a full partial line from the mark that replaces it |
| `LineSplitter.ShortLines` | refs/examples/posix-programming_labs/log_lib/src/process.c:16-57 | Without overruns the messages are the lines of the stream |
| `LineSplitter.OverrunLine` | refs/examples/posix-programming_labs/log_lib/src/process.c:42-45 | A line that fills the buffer is lost up to there, and what follows is handed on behind three dots |
| `LineSplitter.ProcessBuffer` | refs/examples/posix-programming_labs/log_lib/src/process.c:16-34 | Hands over each complete line and leaves the rest at the front of the buffer |
| `LineSplitter.ProcessInput` | refs/examples/posix-programming_labs/log_lib/src/process.c:36-57 | For every choice of read sizes and interruptions the messages are those of the character machine, overruns included, for buffers of at least five bytes |
| `LineSplitter.ProcessNonblock` | refs/examples/posix-programming_labs/log_lib/src/process.c:59-85 | The same over any run of calls that share the buffer; the connection is to be closed exactly after the end or an error, and otherwise the call would have had to wait |
| `TemplateTree.BuildTokens` | refs/libs/cfsm_lib/mtemplate/mtemplate.c:342-399 | Feeding the directives of a tree to the block structure of the parser rebuilds that tree |
| `TemplateTree.AcceptsExactlyNested` | refs/libs/cfsm_lib/mtemplate/mtemplate.c:342-376 | A sequence of directives is accepted exactly if if, else, endif, for and endfor are properly nested, and then it spells the tree that is built |
| `TemplateLexer.ClassifyNode` | refs/libs/cfsm_lib/mtemplate/mtemplate.c:177-222 | The table, the brace escape and the plain name decide the kind as the specification does |
| `TemplateLayout.AppendLeaf` | refs/libs/cfsm_lib/mtemplate/mtemplate.c:378-382 | Appending a node keeps the pool a layout of the tree built so far |
| `TemplateLayout.OpenBlock` | refs/libs/cfsm_lib/mtemplate/mtemplate.c:385-396 | Opening a block makes the new node the parent of what follows |
| `TemplateLayout.ElseBranch` | refs/libs/cfsm_lib/mtemplate/mtemplate.c:355-363 | else closes the first list of the block and starts the second |
| `TemplateLayout.CloseBlock` | refs/libs/cfsm_lib/mtemplate/mtemplate.c:364-373 | Following the parent link leads to the list that holds the block |
| `TemplateParser.Template.Ascend` | refs/libs/cfsm_lib/mtemplate/mtemplate.c:364-373 | endif and endfor continue the list around the block, its else list if that was being filled |
| `TemplateParser.Template.OnDirective` | refs/libs/cfsm_lib/mtemplate/mtemplate.c:331-399 | A directive is rejected exactly when the specification rejects it where it stands; otherwise the pool holds the tree with it |
| `TemplateParser.Template.ParseText` | refs/libs/cfsm_lib/mtemplate/mtemplate.c:242-414 | The scan accepts exactly the texts that are templates, and then the pool holds the tree with correct child lists and parent links |
| `TemplateRoundTrip.LexPrint` | refs/libs/cfsm_lib/mtemplate/mtemplate.c:268-346 | Printed directives and texts are read back one by one |
| `TemplateRoundTrip.ParsePrint` | refs/libs/cfsm_lib/mtemplate/mtemplate.c:242-414 | Parsing the printed text of any canonical tree gives that tree |
| `TemplateRoundTrip.ParseAcceptsNested` | refs/libs/cfsm_lib/mtemplate/mtemplate.c:342-376 | Printed directives in any order parse exactly if they are properly nested |
| `TemplateRoundTrip.PrefixTakesName` | refs/libs/cfsm_lib/mtemplate/mtemplate.c:187-200 | The name `elsewhere` is read as an else |
| `TemplateRoundTrip.BareExactly` | refs/libs/cfsm_lib/mtemplate/mtemplate.c:187-222 | A name of legal characters is a substitution exactly if no keyword is a prefix of it |
| `TemplateRoundTrip.DirectiveMeaning` | refs/libs/cfsm_lib/mtemplate/mtemplate.c:177-222 | The first keyword of the table decides, then the escapes: every directive spelled out, with the characters a plain substitution may have |
| `TemplateRoundTrip.ForExactly` | refs/libs/cfsm_lib/mtemplate/mtemplate.c:151-175 | A loop is a variable, the first blank-in-blank, and a reference without a blank |
| `TemplateRoundTrip.LexClosed` | refs/libs/cfsm_lib/mtemplate/mtemplate.c:268-330 | A closed directive that is empty, has a newline or means nothing is rejected; any other is read in front of the rest |
| `MArray.MArray.NextSize` | refs/libs/cfsm_lib/mtemplate/mobject.c:425-428 | The doubling loop finds room exactly for fewer than 64M items |
| `MArray.MArray.Resize` | refs/libs/cfsm_lib/mtemplate/mobject.c:413-437 | Growing keeps the contents, or fails without a change |
| `MArray.MArray.Set` | refs/libs/cfsm_lib/mtemplate/mobject.c:468-488 | Sets one item, fills a gap with None and frees exactly the item it overwrites |
| `MArray.MArray.Append` | refs/libs/cfsm_lib/mtemplate/mobject.c:455-466 | One item behind the others |
| `MArray.MArray.Prepend` | refs/libs/cfsm_lib/mtemplate/mobject.c:439-453 | One item before the others |
| `MArray.MArray.Pop` | refs/libs/cfsm_lib/mtemplate/mobject.c:520-533 | The last item leaves |
| `Objects.MObject.Replace` | refs/libs/cfsm_lib/mtemplate/mobject.c:732-759 | The entry with the key moves to the tail with its new value; keys stay distinct |
| `Objects.MObject.Insert` | refs/libs/cfsm_lib/mtemplate/mobject.c:710-730 | Refuses a key that is there |
| `Objects.MObject.SetItem` | refs/libs/cfsm_lib/mtemplate/mobject.c:468-488 | marray_set as a change of the items |
| `ObjectPaths.UniquePath` | refs/libs/cfsm_lib/mtemplate/mnamespace.c:118-171 | With one owner for each object, two paths to an object are the same path |
| `ObjectPaths.PutKeeps` | refs/libs/cfsm_lib/mtemplate/mnamespace.c:241-319 | Changing one item leaves every path alone that does not go through it |
| `ObjectPaths.GrowKeeps` | refs/libs/cfsm_lib/mtemplate/mnamespace.c:250-319 | Adding an item leaves every path alone |
| `ObjectPaths.PutOwned` | refs/libs/cfsm_lib/mtemplate/mobject.c:468-488 | After the change every object still has one owner |
| `Locations.Strstcpy` | refs/libs/cfsm_lib/mtemplate/strstcpy.c:33-64 | The longest prefix without a stop character that fits, terminated, nothing written beyond, and the length of the unlimited copy |
| `Locations.ArrayNdx` | refs/libs/cfsm_lib/mtemplate/mnamespace.c:58-91 | The index in brackets, or none exactly for the texts the source rejects |
| `LocationPrint.AcceptsExactlyPrints` | refs/libs/cfsm_lib/mtemplate/mnamespace.c:58-171 | A location is accepted exactly if it is the print of a path: names of 1 to 255 characters without dot or bracket, indices from 0 to 2147483647 with a text of 1 to 31 characters |
| `LocationPrint.PrintIsRead` | refs/libs/cfsm_lib/mtemplate/mnamespace.c:94-171 | Reading a printed path gives the path |
| `LocationPrint.TwoLocations` | refs/libs/cfsm_lib/mtemplate/mnamespace.c:58-171 | `a[0]` and `a.b[0x1f].c` as they are read |
| `Namespace.Lookup` | refs/libs/cfsm_lib/mtemplate/mnamespace.c:94-176 | The walk finds what the steps of the location lead to, or fails exactly if the location is malformed or leads nowhere |
| `LocationPrint.LookedExactly` | refs/libs/cfsm_lib/mtemplate/mnamespace.c:94-176 | A printed location leads where its path leads, and no other text leads anywhere |
| `LocationPrint.StepLeads` | refs/libs/cfsm_lib/mtemplate/mnamespace.c:134-165 | A name leads to the entry with that key, an index to the item at that place |
| `NamespaceSet.Create` | refs/libs/cfsm_lib/mtemplate/mnamespace.c:250-260 | A container made on the way keeps every path that led somewhere |
| `NamespaceSet.Set` | refs/libs/cfsm_lib/mtemplate/mnamespace.c:202-331 | The set succeeds exactly if the existing objects on the path fit and the indices are in range; then the location yields the object; every location that yielded an object, and is not at or below it, yields the same one, and after a failure all do |
| `NamespaceSet.SettableExactly` | refs/libs/cfsm_lib/mtemplate/mnamespace.c:202-331 | A path can be set exactly if what it already leads to is a dictionary before a name and an array before an index, and every index is below 64M - 1 |
| `NamespaceSet.SetThenLookup` | refs/libs/cfsm_lib/mtemplate/mnamespace.c:94-331 | The same in terms of lookups of arbitrary locations |
| `Values.ResolveRep` | refs/libs/cfsm_lib/mtemplate/mnamespace.c:94-176 | Paths lead from an object where they lead from the value it holds |
| `Deepcopy.Deepcopy` | refs/libs/cfsm_lib/mtemplate/mobject.c:314-370 | The copy holds the same value in new objects only, each with one owner |
| `TemplateEval.LoopVarShadows` | refs/libs/cfsm_lib/mtemplate/mtemplate.c:619-625 | In the body the loop variable hides everything of its name and nothing else |
| `TemplateLaws.FetchLaw` | refs/libs/cfsm_lib/mtemplate/mtemplate.c:468-486 | A reference means what its path leads to in the loop variables, or else in the namespace of the caller |
| `TemplateLaws.IfLaw` | refs/libs/cfsm_lib/mtemplate/mtemplate.c:587-600 | none, 0, and an empty string, array or dictionary take the else list; everything else the first list |
| `TemplateLaws.RenderLaw` | refs/libs/cfsm_lib/mtemplate/mtemplate.c:524-565 | Numbers in decimal, strings up to a NUL character, containers by what they are |
| `TemplateLaws.ForLaw` | refs/libs/cfsm_lib/mtemplate/mtemplate.c:601-634 | Arrays are gone through by index and dictionaries by entry; anything else ends the run |
| `TemplateLaws.LoopPutsOut` | refs/libs/cfsm_lib/mtemplate/mtemplate.c:488-521 | A body that substitutes the value or the key of the loop variable puts out the items, or their keys, in their order |
| `TemplateLaws.SequenceLaw` | refs/libs/cfsm_lib/mtemplate/mtemplate.c:576-654 | One node after the other, until one fails |
| `TemplateRun.FetchVar` | refs/libs/cfsm_lib/mtemplate/mtemplate.c:468-486 | Loop variables first, then the namespace of the caller |
| `TemplateRun.EnterItem` | refs/libs/cfsm_lib/mtemplate/mtemplate.c:488-521 | Copies of key and value become the loop variable of the frame |
| `TemplateNodes.NodeFields` | refs/libs/cfsm_lib/mtemplate/mtemplate.c:71-82 | The fields of an allocated node, and the lists of its children, are those of the tree it stands for |
| `TemplateRun.RunNodes` | refs/libs/cfsm_lib/mtemplate/mtemplate.c:567-654 | Over the child lists of the nodes the parser has allocated, the calls of the callback are those of the evaluator, up to the first that stops the run: a text node minds EOF alone, a rendered object any result but zero; nothing else is modified |
| `TemplateRun.RunLoop` | refs/libs/cfsm_lib/mtemplate/mtemplate.c:627-634 | Items run in index order, entries in entry order, each in its own frame |
| `TemplateRun.Run` | refs/libs/cfsm_lib/mtemplate/mtemplate.c:656-672 | The list of the root, starting without loop variables |
| `TemplateRun.EmittedExactly` | refs/libs/cfsm_lib/mtemplate/mtemplate.c:577-654 | The calls made are all of them, or end with the first one that returns EOF for a text node or anything but 0 otherwise |
| `Templates.ParseAndRun` | refs/libs/cfsm_lib/mtemplate/mtemplate.c:242-672 | From the text to the output: a text that is a template is parsed, and its nodes are run as the evaluator prescribes for its tree; any other text is rejected without a call |
| `Templates.RunIf` | refs/libs/cfsm_lib/mtemplate/mtemplate.c:242-672 | `{{if x}}y{{else}}n{{endif}}` puts out n for none, 0, and an empty string, array or dictionary, and y for any other value of x |
| `Templates.RunLoopOver` | refs/libs/cfsm_lib/mtemplate/mtemplate.c:242-672 | `{{for v in e}}{{subst v.value}}{{endfor}}` puts out the items of an array by index or of a dictionary by entry, and with `v.key` the indices or keys |
| `ObjectOrder.ObjectCmp` | refs/libs/cfsm_lib/mtemplate/mobject.c:633-655 | Negative exactly if the first object comes before the second: by kind, then integers by value, strings by their first difference, arrays by length and then by their first difference; 0 exactly for equal structure |
| `ObjectOrder.ArrayCmp` | refs/libs/cfsm_lib/mtemplate/mobject.c:576-598 | Length first, then the first difference |
| `ObjectOrder.StringCmp` | refs/libs/cfsm_lib/mtemplate/mobject.c:611-631 | Negative exactly if the first string is a proper prefix or has the smaller character at the first difference |
| `Keys.StrcmpFirst` | refs/libs/cfsm_lib/mtemplate/mobject.c:611-631 | The same of strcmp, which also orders the keys of the trees |
| `ObjectOrder.CmpIsBefore` | refs/libs/cfsm_lib/mtemplate/mobject.c:568-655 | The order on objects of all kinds, spelled out |
| `ObjectOrder.TotalPreorder` | refs/libs/cfsm_lib/mtemplate/mobject.c:568-655 | Reflexive, antisymmetric in sign, transitive, over all objects and mixed types |
| `ObjectOrder.CmpFlips` | refs/libs/cfsm_lib/mtemplate/mobject.c:568-655 | Zero exactly for equal structure, dictionaries being equal only to themselves |
| `ObjectOrder.CopyComparesEqual` | refs/libs/cfsm_lib/mtemplate/mobject.c:568-655 | Objects that differ in the addresses of their dictionaries only compare equal exactly if there is no dictionary |
| `CopyOrder.ApartAreCopies` | refs/libs/cfsm_lib/mtemplate/mobject.c:314-370 | Two objects that hold one value in separate memory differ in the addresses of their dictionaries only |
| `CopyOrder.CopyAndCompare` | refs/libs/cfsm_lib/mtemplate/mobject.c:314-370 | Wherever the objects are placed, what mobject_deepcopy returns compares equal to its source exactly if the value holds no dictionary |
| `Vis.RoundTrip` | refs/libs/cfsm_lib/mtemplate/vis.c:52-134 | Every byte string can be decoded from its encoding |
| `Vis.Injective` | refs/libs/cfsm_lib/mtemplate/vis.c:52-134 | Different byte strings have different encodings |
| `Vis.EncExactly` | refs/libs/cfsm_lib/mtemplate/vis.c:52-134 | Graphic characters, space, tab and newline stay, a backslash is doubled, any other byte is a backslash and three octal digits |
| `Vis.VisAt` | refs/libs/cfsm_lib/mtemplate/vis.c:52-134 | Writes the encoding of one byte and a terminator |
| `Vis.Strnvis` | refs/libs/cfsm_lib/mtemplate/vis.c:161-203 | The longest prefix of whole encodings that fits, terminated, nothing written beyond; the result is the full length, except 0 for a size of 1 |
| `Vis.LongestIsLongest` | refs/libs/cfsm_lib/mtemplate/vis.c:169-194 | No longer prefix would fit |
| `MailSession.NoForbiddenTrigger` | server/mail_server.py:59-156 | For every order of reads and writes no trigger is fired from a state the table forbids |
| `MailSession.FiledOnlyWhenReady` | server/mail_server.py:105-113 | A message is filed only after DATA was accepted for it and MAIL FROM and RCPT were accepted since the last RSET |
| `MailReset.CleanRunsOwnData` | server/mail_server.py:89-133 | If no RSET arrives while the flag of an accepted DATA is up, every message is filed with a DATA after the last RSET |
| `MailReset.DataOutlivesReset` | server/mail_server.py:132-133 | After any RSET that does, in whatever state, MAIL FROM, RCPT TO and the end of a message file one without a DATA after that RSET |
| `MailReset.OwnDataExactly` | server/mail_server.py:89-133 | So a run has no such RSET exactly if, going on like that from any point of it, every message has a DATA of its own |
| `MailReset.FlagGoesUp` | server/mail_server.py:89-104 | Any accepted HELO, MAIL FROM, RCPT TO and DATA from the start put the flag up |
| `MailReset.FlagStaysUp` | server/mail_server.py:105-113 | It is still up after one more RCPT TO behind the DATA |
| `MailReset.ResetRun` | server/mail_server.py:59-156 | A whole session from the start, given line by line, that files a message without a DATA of its own |
| `MailBody.OwnBodyExactly` | server/mail_server.py:105-131 | A message is filed with the body of the one before it and all that its own lines add; it has just the lines sent for it if the earlier bodies were empty and no line was dropped, and each condition is needed where the other holds |
| `MailBody.DroppedExactly` | server/mail_server.py:97-131 | The dropped lines are those that leave no trace: starting like RCPT or DATA without being one, or with a dot near the end without ending the message |
| `MailBody.BodiesGrow` | server/mail_server.py:105-113 | Every body begins with the bodies filed before it |
| `MailBody.DottedLineDropped` | server/mail_server.py:105-113 | A session from the start in which a line with a dot near its end is missing from the message |
| `MailBody.BodyCarriedOver` | server/mail_server.py:105-133 | A session from the start in which a second message, without text, is filed with the text of the first |
| `MailSession.RecipientsInOrder` | server/mail_server.py:89-104 | The recipients are all accepted addresses in order |
| `MailSession.QueuedWasFiled` | server/mail_server.py:147-148 | No more messages are reported as queued than were filed |
| `MailDialogue.WholeDialogue` | server/mail_server.py:59-156 | A session of greeting, HELO, MAIL FROM, RCPT TO, DATA, text, end and QUIT: every state on the way, one message filed with its recipient and text, one reported, and the session closed |
| `MailDialogue.QuitCloses` | server/mail_server.py:128-156 | In every run QUIT and one write close the session, except within DATA |
| `MailDialogue.ResetRestarts` | server/mail_server.py:128-156 | In every run RSET and one write lead back to MAIL FROM, except within DATA |
| `MailDialogue.DataLeads` | server/mail_server.py:94-127 | Within DATA: a further recipient, the end of the message, the start of its text, or a line of it, and what each changes |
| `MailDialogue.WriteLeads` | server/SMTP_FSM.py:19-40 | Where each reply leads |
| `MailClient.Client.HandleRead` | server/mail_server.py:59-133 | The handler takes the step of the session, each trigger is allowed where it is fired, and each command leads to its reply |
| `MailClient.Client.HandleWrite` | server/mail_server.py:135-156 | The same for the write handler: each reply leads to the next command, and the last one closes the session |

## Left out

- RB_PREV: the mirror image of RB_NEXT. RB_AUGMENT does nothing in the library and is not part of this model.
- Allocation failures and the paths that follow them; freeing, except where destroy must free each node once.
- Sockets, pipes, poll, signals, dynamic loading, pid files, DNS and the logging process. What they deliver is a parameter or a free choice.
- The liveness of the control pipe, which a comment in poll_server.c gives up for a single-threaded database.
- RedBlack.Head.Remove: the fields of the removed node itself are not described, because nothing reads them.
- Splay.Head.SplayMinMax: needs a tree that is not empty, as the source follows the root without a test.
- CndQueue.Refines: the reads pop does without the lock are single atomic steps.
- SemRing.PoppedIsPrefix: one producer and one consumer, because the source takes no lock around head and tail; entries are not null.
- DbThreads.Refines: a client that is still inside push when destroy has joined the last worker takes no further step, because the queues are freed then.
- PollServer.SentToItsClient: the bytes of an answer are one unit here; how they are sent in parts is proved in WriteQueue. Requests that set values, which get no answer, are not steps.
- TemplateParser.Template.ParseText: line numbers and error texts. Nodes are named by their place in the order of allocation instead of by address, and the expression of a for directive is split before its node is appended, not after; a rejected template is freed either way.
- TemplateRoundTrip.ParsePrint: texts that contain an opening or end in a brace have no single printed form and are not canonical.
- TemplateRun.RunNodes: the address in a printed array or dictionary. The directive `text` hands a null pointer to the callback, which is recorded; what the callback does with it is its own matter.
- Locations.ArrayNdx: strtol is a parameter, so that its bases and signs are whatever the C library makes of them.
- NamespaceSet.Set: the object must have no owner yet, because the store frees what it owns. None objects are new each time instead of one shared object; nothing compares their addresses.
- Deepcopy.Deepcopy: a copied None is a new object too, where the source has one None for all. That one object may have many owners, which free it only in name.
- mdict_delete and marray_pull: the first decrements a count twice, the second leaves a stale pointer, so neither keeps the state the other operations need. mdict_remove, which takes one entry out of a dictionary, and the iterators on their own, which hand out items by index or entries in list order, are covered only where Objects.MObject.Replace and the loops of TemplateRun use the same steps.
- ObjectOrder.ObjectCmp: dictionaries are addresses, and the order of addresses is that of integers.
- out_alloc_cb: its growth does not cover every size; the output is a sequence here.
- Vis.VisAt: the flag VIS_OCTAL only.
- Framing.Connection.ProcessCnct: input without NUL bytes, which the command strings of the server end at; whether a request is carried out is a free choice.
- LineSplitter.ProcessInput: input without NUL bytes, as the source works on C strings.
- MailSession.FiledOnlyWhenReady: regular expressions are parameters; how to_file stores a message, and that it fails for an empty address, is not modelled. Timeouts close the listening socket and are not steps.
- The texts of the SMTP replies: a reply is one write step.
- The client programs, which do not run; server_thread, which follows a link of a freed node; the generated state machines, db_lock, the string copies and the helper programs.
