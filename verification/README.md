# A verified model of the simulator's stateful cores

The repository is a network simulator: the INET framework, the ReaSE extensions for traffic and
attacks, and the Distack detection library. This project models the parts of it that keep
complicated state, in the form the program has (classes with fields updated in place, loops with
invariants, and functions where the program computes), and proves what those parts are for.

| file | module | what it is about |
|---|---|---|
| Common.dfy | Common | shared constants and the option type |
| BitKeys.dfy | BitKeys | trie keys as bit sequences, first differing bit |
| PatriciaTree.dfy | PatriciaTree | the tree behind a Patricia trie: invariant, walk, insertion, deletion |
| PatriciaTrie.dfy | PatriciaTrie | the trie in memory: nodes with downward and upward links |
| PatriciaRuns.dfy | PatriciaRuns | whole runs of operations against a finite map |
| PatriciaCopy.dfy | PatriciaCopy | finding upward links again by bit index alone |
| PatriciaTrieCopy.dfy | PatriciaTrieCopy | copying a trie in memory |
| SubnetCounterTree.dfy, MapSum.dfy | SubnetCounterTree, MapSum | packet counters per subnet |
| ReassemblyBuffer.dfy, ReassemblyChains.dfy | Reassembly, ReassemblyChains | reassembly of fragments (section 3.2 of RFC 791), without and with overlaps |
| TurtleMobility.dfy | TurtleMobility | the resumable script cursor |
| NetworkConfigurator.dfy | NetworkConfigurator | address plan, default routes and exceptions |
| TcpApplication.dfy | TcpApplication | the request/reply protocol of client and server threads |
| TcpReplies.dfy | TcpReplies | what becomes of every request, and when it is answered |
| FlowExporter.dfy | FlowExporter | flow table with two timeouts |
| FlowHistory.dfy | FlowHistory | what the flow records mean, and when they are exported |
| ChannelControl.dfy | ChannelControl | cached neighbour relation of radio hosts |
| TcpConnection.dfy | TcpConnection | TCP state machine and connection limit (sections 3.2 and 3.9 of RFC 793) |
| TcpHistory.dfy | TcpHistory | the state of a TCP connection, told by the history of its events |

`dafny verify dfyconfig.toml` checks everything.

## How the proofs are built

**Patricia trie.** `PatriciaTree` describes a trie as a binary tree whose leaves are the upward
links. `Sorted` says that every inner node tests the first bit in which the keys below it differ,
`Linked` that no node is an inner node twice or the target of two upward links, and that the
upward link to a node comes from below it. Insertion and deletion are proved on the tree together
with what they do to the links of every single node. `PatriciaTrie.Trie` keeps such a tree as a
ghost field; `Valid` says that the nodes in memory have exactly its links, keys and data. The
methods follow the program's loops and rewiring, and are proved to make the nodes look like the
new tree.

**Copy.** The copy of an upward link leads to the first listed node with the bit index of its
target. `LookupsSurviveExactly` shows that all keys are still found if and only if no node that is
linked from below is listed after another with its bit index (`NoEarlierTwin`; nodes with pairwise
different bit indices meet it). `Copy` carries the same equivalence for the nodes in memory, and
`CopyLosesKey` builds a trie of five keys in whose copy one of them is not found.

**Protocols.** The TCP application, the flow exporter, the connection limit, the subnet counters
and the fragment buffer are step functions on values; the theorems range over all runs, and the
classes are proved to take exactly these steps, over whole runs (the methods `Run`, `AddAll` and
`RunScript`). What the states mean is proved from the events alone: `History` says in which state a
TCP connection is, by who has called and closed and what has been answered; `LiveFlows` and
`ExportedFlows` say which packets a flow record describes and when it is exported; and
`AnsweredAtOnceExactly` and `EveryRequestAnswered` say when a request is answered, and that it is.

**What the code does not promise.** The model follows the code, and where a property fails it says
exactly when it holds.

- Counters wrap around at 32 bits (flows) and 64 bits (subnets). Conservation is stated with the
  number of wraps, and is exact if and only if no single counter wraps (`RunCountsExactly`,
  `CountsExactly`); `BytesWrapAround` and `CountWrapsAround` give runs that lose counts.
- Overlapping fragments, which the program takes to be impossible, may be dropped
  (`OverlapIsLost`). Which sets of fragments complete nevertheless is decided by their chains
  (`AlwaysCompletesExactly`, `SometimesCompletesExactly`).
- A request for an empty reply is never answered (`EmptyReplyStalls`). A session that stops is over
  if and only if there was none (`StopsExactly`).
- The number of requests is an int in the profile and an unsigned long in the client thread: a
  negative number makes nearly 2^64 requests, and the others make what they say
  (`RequestsSentExactly`).
- Destroying a connection gives back a place even if it was no worker (`LimitExceeded`). The count
  is the number of workers, and the limit can be passed, exactly under the conditions of
  `CountIsWorkersExactly` and `CanPassExactly`.
- A connection in SYN_RCVD that is neither a worker nor active can listen again without bound
  (`ListenerReturns`, `BoundedExactly`).
- `clearCounters` leaves out the head, and so keeps the counts of the zero subnet
  (`ZeroSubnetNotCleared`). All counters are zero after it if and only if these were
  (`AllClearedExactly`).
- A message left behind by an earlier flow exports a later one with the same key before its time
  (`EarlyExport`). A flow is exported when the first of its timeouts is due, if and only if no such
  message comes before (`ExportedFlows`).
- A packet may be counted for a subnet that its address is not in (`CountedForNeighbor`). It is
  counted for a given subnet and no other, if and only if all other keys differ from it earlier
  (`CountedForExactly`).
- The flow table is one variable for all exporter modules of a program; the model is all of them
  together.

## Model

| member | source | states |
|---|---|---|
| `BitKeys.BitGet` | distack-1.2.3-dev/src/base/common/PatriciaTrie.h:502-519 | the result is 0 exactly for a zero bit at a non-negative index, so the head's walk goes right |
| `BitKeys.CommonPrefix` | distack-1.2.3-dev/src/base/common/PatriciaTrie.h:180-184 | the largest number of leading bits in common, the measure for group lookups |
| `BitKeys.BitFirstDifferent` | distack-1.2.3-dev/src/base/common/PatriciaTrie.h:529-550 | for different keys, the first bit in which they differ |
| `PatriciaTree.FindIn` | distack-1.2.3-dev/src/base/common/PatriciaTrie.h:366-374 | the walk for k ends at k if and only if k is stored, with its data |
| `PatriciaTree.FindLongestPrefix` | distack-1.2.3-dev/src/base/common/PatriciaTrie.h:599-612 | no key shares more leading bits with k than the one the walk ends at |
| `PatriciaTree.InsertSorted` | distack-1.2.3-dev/src/base/common/PatriciaTrie.h:302-323 | the new key joins the map and every node still tests the first differing bit |
| `PatriciaTree.InsertLinks` | distack-1.2.3-dev/src/base/common/PatriciaTrie.h:315-323 | of all links only one is redirected; each node keeps its single upward link |
| `PatriciaTree.InsertIsTrie` | distack-1.2.3-dev/src/base/common/PatriciaTrie.h:284-327 | insertion keeps the trie invariant, adds exactly the key, and changes exactly these links |
| `PatriciaTree.RemoveSorted` | distack-1.2.3-dev/src/base/common/PatriciaTrie.h:403-470 | deletion removes exactly the key and keeps the order of bit indices |
| `PatriciaTree.RemoveUps` | distack-1.2.3-dev/src/base/common/PatriciaTrie.h:403-405 | the node that held the key takes over key and data of the node that goes; no other entry changes |
| `PatriciaTree.RemoveLinks` | distack-1.2.3-dev/src/base/common/PatriciaTrie.h:407-470 | the links of every remaining node after the rewiring, at most two of them changed |
| `PatriciaTree.RemoveIsTrie` | distack-1.2.3-dev/src/base/common/PatriciaTrie.h:382-477 | deletion keeps the whole invariant, loses one node and one key and nothing else |
| `PatriciaTree.FindUp` | distack-1.2.3-dev/src/base/common/PatriciaTrie.h:418-432 | the walk for the key stored at a node ends at the upward link to that node, so the intermediate key is always found |
| `PatriciaTree.PreorderOnce` | distack-1.2.3-dev/src/base/common/PatriciaTrie.h:561-595 | the node list holds every inner node exactly once |
| `PatriciaTrie.Node.constructor` | distack-1.2.3-dev/src/base/common/PatriciaTrie.h:194-222 | a new node has both links to itself |
| `PatriciaTrie.Node.Toward` | distack-1.2.3-dev/src/base/common/PatriciaTrie.h:366-369 | left exactly when the tested bit of the key is 0 |
| `PatriciaTrie.Trie.constructor` | distack-1.2.3-dev/src/base/common/PatriciaTrie.h:262-268 | a new trie is valid and contains the zero key with the default data |
| `PatriciaTrie.Trie.Descend` | distack-1.2.3-dev/src/base/common/PatriciaTrie.h:388-397 | the loop ends, at the end of the walk, with the last two nodes passed |
| `PatriciaTrie.Trie.FindPlace` | distack-1.2.3-dev/src/base/common/PatriciaTrie.h:307-313 | the second loop ends at the place where a node for bit i belongs |
| `PatriciaTrie.Hook` | distack-1.2.3-dev/src/base/common/PatriciaTrie.h:316-323 | after the rewiring the nodes have the links of the tree with the new node |
| `PatriciaTrie.Trie.InsertAt` | distack-1.2.3-dev/src/base/common/PatriciaTrie.h:305-326 | one fresh node, the map extended by the key, the trie valid, no other entry changed |
| `PatriciaTrie.Trie.Insert` | distack-1.2.3-dev/src/base/common/PatriciaTrie.h:284-327 | null exactly for a present key, and then nothing changes; otherwise the map gains the key |
| `PatriciaTrie.Trie.LookupNode` | distack-1.2.3-dev/src/base/common/PatriciaTrie.h:355-378 | a node exactly if the key is in the map, and then with its data; also on a faulty copy, the node where the walk ends |
| `PatriciaTrie.Trie.Exists` | distack-1.2.3-dev/src/base/common/PatriciaTrie.h:331-336 | true exactly for keys of the map |
| `PatriciaTrie.Trie.Lookup` | distack-1.2.3-dev/src/base/common/PatriciaTrie.h:340-351 | the data in the map, or the default |
| `PatriciaTrie.Trie.LookupGroup` | distack-1.2.3-dev/src/base/common/PatriciaTrie.h:599-612 | a node whose key has a longest common prefix with the query among all keys |
| `PatriciaTrie.Trie.SetData` | distack-1.2.3-dev/src/base/common/PatriciaTrie.h:237-240 | the map changes at the node's key only, and the trie stays valid |
| `PatriciaTrie.Trie.Delete` | distack-1.2.3-dev/src/base/common/PatriciaTrie.h:382-477 | true exactly for a present key; the map loses exactly that key, one node goes, the head stays, the trie is valid again; false changes nothing |
| `PatriciaTrie.Trie.DeleteAt` | distack-1.2.3-dev/src/base/common/PatriciaTrie.h:403-476 | the node passed last is the one that goes |
| `PatriciaTrie.CutOut` | distack-1.2.3-dev/src/base/common/PatriciaTrie.h:403-470 | all nodes that stay have the links, keys and data of the tree without the key |
| `PatriciaTrie.Unlink` | distack-1.2.3-dev/src/base/common/PatriciaTrie.h:403-470 | links and entries of every node after deletion, from those before |
| `PatriciaTrie.SetLink` | distack-1.2.3-dev/src/base/common/PatriciaTrie.h:435-438 | only the link that the walk takes changes |
| `PatriciaTrie.MoveUpLink` | distack-1.2.3-dev/src/base/common/PatriciaTrie.h:416-440 | the search for the intermediate key succeeds and redirects the one upward link to the node that goes |
| `PatriciaTrie.BypassInner` | distack-1.2.3-dev/src/base/common/PatriciaTrie.h:412-450 | the rewiring when the node that goes has a child |
| `PatriciaTrie.BypassLeaf` | distack-1.2.3-dev/src/base/common/PatriciaTrie.h:452-470 | the rewiring when it has none |
| `PatriciaTrie.NodeList` | distack-1.2.3-dev/src/base/common/PatriciaTrie.h:561-595 | the recursion ends and yields the nodes in preorder |
| `PatriciaTrie.Trie.GetNodeList` | distack-1.2.3-dev/src/base/common/PatriciaTrie.h:561-595 | every node but the head exactly once |
| `PatriciaTrie.Trie.OneUpLink` | distack-1.2.3-dev/src/base/common/PatriciaTrie.h:316-323 | in every valid trie each node is the target of exactly one link that does not lead down |
| `PatriciaTrie.Trie.KeysDiffer` | distack-1.2.3-dev/src/base/common/PatriciaTrie.h:298-300 | different nodes hold different keys |
| `PatriciaRuns.ZeroKeyStays` | distack-1.2.3-dev/src/base/common/PatriciaTrie.h:262-268 | after every run that does not delete the zero key it is in the map, and all deletions of the run are allowed |
| `PatriciaRuns.Do` | distack-1.2.3-dev/src/base/common/PatriciaTrie.h:284-477 | each operation but the deletion of the only key left changes the trie as it changes the finite map and gives the map's answer |
| `PatriciaRuns.Run` | distack-1.2.3-dev/src/base/common/PatriciaTrie.h:284-477 | every run of insertions, deletions and lookups on a new trie that always keeps a key gives the answers of a finite map |
| `PatriciaCopy.RefoundExactly` | distack-1.2.3-dev/src/base/common/PatriciaTrie.h:702-726 | every upward link is found again if and only if no node has an earlier twin |
| `PatriciaCopy.SameBitExactly` | distack-1.2.3-dev/src/base/common/PatriciaTrie.h:702-726 | a listed node is found by its bit index if and only if no node before it has that bit index |
| `PatriciaCopy.LookupsSurviveExactly` | distack-1.2.3-dev/src/base/common/PatriciaTrie.h:615-726 | all keys are found in the copy if and only if no node has an earlier twin |
| `PatriciaCopy.TwinsConfused` | distack-1.2.3-dev/src/base/common/PatriciaTrie.h:688-692 | in a trie of five keys the link to the node of key 192 is taken for one to the node of key 64, which has its bit index |
| `PatriciaCopy.CopyIsTrie` | distack-1.2.3-dev/src/base/common/PatriciaTrie.h:615-699 | renaming the nodes one to one keeps the whole invariant and the map |
| `PatriciaTrieCopy.CopyNodes` | distack-1.2.3-dev/src/base/common/PatriciaTrie.h:615-651 | fresh nodes with the same entries and bit indices, downward links copied, upward links to themselves |
| `PatriciaTrieCopy.FindBitIndexNode` | distack-1.2.3-dev/src/base/common/PatriciaTrie.h:702-726 | the head for -1, otherwise the first listed node with the bit index, or null |
| `PatriciaTrieCopy.FirstInList` | distack-1.2.3-dev/src/base/common/PatriciaTrie.h:717-725 | the first node of a list with the bit index, or null if there is none |
| `PatriciaTrieCopy.FindCopy` | distack-1.2.3-dev/src/base/common/PatriciaTrie.h:688-692 | on the half-wired copy the search still finds the copy of the first node with that bit index |
| `PatriciaTrieCopy.WireLink` | distack-1.2.3-dev/src/base/common/PatriciaTrie.h:688-692 | one more link leads where it has to, all others are untouched |
| `PatriciaTrieCopy.WireAll` | distack-1.2.3-dev/src/base/common/PatriciaTrie.h:668-694 | after the loop all upward links are wired |
| `PatriciaTrieCopy.CopiedList` | distack-1.2.3-dev/src/base/common/PatriciaTrie.h:658-684 | the two node lists have the same length and correspond node by node |
| `PatriciaTrieCopy.CopySurvives` | distack-1.2.3-dev/src/base/common/PatriciaTrie.h:615-699 | in memory, all keys are found in the copy if and only if no node has an earlier twin |
| `PatriciaTrieCopy.Copy` | distack-1.2.3-dev/src/base/common/PatriciaTrie.h:615-699 | a separate structure whose walks end and find the entries of the nodes found again; all keys survive if and only if no node has an earlier twin, and then it is a valid trie with the same map |
| `PatriciaTrieCopy.CopyLosesKey` | distack-1.2.3-dev/src/base/common/PatriciaTrie.h:688-692 | a trie built in memory by four insertions: a key that it stores is not found by the lookup in its copy |
| `SubnetCounterTree.SubnetCounterTree.constructor` | distack-1.2.3-dev/src/base/common/SubnetCounterTree.cpp:3-6 | one counter, for the zero subnet |
| `SubnetCounterTree.SubnetCounterTree.AddSubnet` | distack-1.2.3-dev/src/base/common/SubnetCounterTree.cpp:50-56 | a new subnet starts at zero; no existing counter changes |
| `SubnetCounterTree.SubnetCounterTree.AddCount` | distack-1.2.3-dev/src/base/common/SubnetCounterTree.cpp:58-77 | the count lands, modulo 2^64, on a subnet with a longest common prefix and on no other |
| `SubnetCounterTree.SubnetCounterTree.ClearCounters` | distack-1.2.3-dev/src/base/common/SubnetCounterTree.cpp:38-48 | every counter but that of the zero subnet is zero, the subnets are the same |
| `SubnetCounterTree.AllClearedExactly` | distack-1.2.3-dev/src/base/common/SubnetCounterTree.cpp:38-48 | all counters are zero after clearing if and only if nothing was counted for the zero subnet |
| `SubnetCounterTree.ZeroSubnetNotCleared` | distack-1.2.3-dev/src/base/common/SubnetCounterTree.cpp:38-48 | a count that clearing leaves |
| `SubnetCounterTree.StepTotal` | distack-1.2.3-dev/src/base/common/SubnetCounterTree.cpp:71-76 | one operation adds to the totals what it says, up to wrap-around |
| `SubnetCounterTree.CountsConserved` | distack-1.2.3-dev/src/base/common/SubnetCounterTree.cpp:50-77 | over every run the totals grow by the sum of the counts added, up to wrap-around; and nothing wraps around if and only if every count stays within the range of the counter that it lands on |
| `SubnetCounterTree.Run` | distack-1.2.3-dev/src/base/common/SubnetCounterTree.cpp:50-77 | the counters of the object, after any subnets and counts added to a new one, are the last state of a run |
| `SubnetCounterTree.CountsExactly` | distack-1.2.3-dev/src/base/common/SubnetCounterTree.cpp:73-74 | the totals are exactly the sum of the counts added if and only if no counter wraps around |
| `SubnetCounterTree.CountWrapsAround` | distack-1.2.3-dev/src/base/common/SubnetCounterTree.cpp:73-74 | a run of two counts whose sum 2^64 leaves the total as it was |
| `SubnetCounterTree.SubnetsKept` | distack-1.2.3-dev/src/base/common/SubnetCounterTree.cpp:50-56 | no run loses a subnet; adding subnets alters no counter |
| `SubnetCounterTree.SameSubnetExactly` | distack-1.2.3-dev/src/base/common/SubnetCounterTree.cpp:50-56 | two addresses share a subnet if and only if they agree in the bits of the mask |
| `SubnetCounterTree.CountedInside` | distack-1.2.3-dev/src/base/common/SubnetCounterTree.cpp:50-77 | in every run, a packet from a subnet that was added is counted for a key with the prefix of that subnet |
| `SubnetCounterTree.CountedForExactly` | distack-1.2.3-dev/src/base/common/SubnetCounterTree.cpp:58-66 | a packet is counted for a subnet and for no other, if and only if all other keys have fewer leading bits in common with it |
| `SubnetCounterTree.CountedForNeighbor` | distack-1.2.3-dev/src/base/common/SubnetCounterTree.cpp:58-66 | a packet that is counted for another host |
| `Reassembly.ReassemblyBuffer.constructor` | inet/src/base/ReassemblyBuffer.cc:25-30 | the empty buffer |
| `Reassembly.ReassemblyBuffer.AddFragment` | inet/src/base/ReassemblyBuffer.cc:37-43 | the buffer becomes what the specification says and reports whether it is complete |
| `Reassembly.AddAll` | inet/src/base/ReassemblyBuffer.cc:37-126 | the buffer object, given any fragments in any order, is the specification's run over them, and completion is reported exactly if that run is complete |
| `Reassembly.ReassemblyBuffer.Merge` | inet/src/base/ReassemblyBuffer.cc:45-79 | the four cases of a new fragment |
| `Reassembly.ReassemblyBuffer.MergeFragments` | inet/src/base/ReassemblyBuffer.cc:81-126 | the passes end, at the fixpoint of single passes |
| `Reassembly.ReassemblyBuffer.MergeOnce` | inet/src/base/ReassemblyBuffer.cc:88-122 | the loop with erasure is one pass, and asks for another exactly if a fragment was removed |
| `Reassembly.ReassemblyBuffer.Absorb` | inet/src/base/ReassemblyBuffer.cc:91-108 | the main range is extended exactly by a fragment that joins it |
| `Reassembly.RunSound` | inet/src/base/ReassemblyBuffer.cc:45-126 | for all fragments, even overlapping: the main range starts at 0, holds only received offsets, never shrinks; no stored fragment joins it |
| `Reassembly.CompleteSound` | inet/src/base/ReassemblyBuffer.cc:41-42 | completion is never reported too early, overlaps included |
| `Reassembly.CompleteExactly` | inet/src/base/ReassemblyBuffer.cc:37-126 | for disjoint fragments, completion is reported exactly when all offsets up to a last fragment have arrived |
| `Reassembly.ReassemblyCorrect` | inet/src/base/ReassemblyBuffer.cc:37-126 | for the pieces of one datagram in any order with any duplicates: complete exactly when every piece has arrived, with the length of the datagram |
| `Reassembly.OverlapIsLost` | inet/src/base/ReassemblyBuffer.cc:74-78 | of two overlapping fragments that cover a datagram, in this order, the second is dropped and completion is not reported |
| `ReassemblyChains.RunIsMaximalChain` | inet/src/base/ReassemblyBuffer.cc:45-126 | for all fragments, even overlapping or empty: the main range consists of fragments that follow one another from 0 until no other fragment begins at its end, and is marked as last if one of these is |
| `ReassemblyChains.ChainFirst` | inet/src/base/ReassemblyBuffer.cc:45-126 | each such chain of fragments is what some order of arrival leads to |
| `ReassemblyChains.AlwaysCompletesExactly` | inet/src/base/ReassemblyBuffer.cc:37-126 | a set of fragments, even overlapping, completes in every order with any duplicates if and only if every maximal chain contains a last fragment |
| `ReassemblyChains.SometimesCompletesExactly` | inet/src/base/ReassemblyBuffer.cc:37-126 | it completes in some order if and only if some maximal chain contains a last fragment |
| `TurtleMobility.ExecuteStep` | inet/src/mobility/TurtleMobility.cc:92-109 | executing a statement takes the first one off the unfolded rest |
| `TurtleMobility.EnterBody` | inet/src/mobility/TurtleMobility.cc:261-266 | entering a body with a positive counter changes nothing of what remains |
| `TurtleMobility.LeaveRepeat` | inet/src/mobility/TurtleMobility.cc:261 | a zero counter skips the body |
| `TurtleMobility.EndBody` | inet/src/mobility/TurtleMobility.cc:267-287 | counting down at the end of a body leaves one repetition less |
| `TurtleMobility.MoveOn` | inet/src/mobility/TurtleMobility.cc:288-298 | what remains after a statement starts with its next sibling, or with the repeat around it |
| `TurtleMobility.Turtle.constructor` | inet/src/mobility/TurtleMobility.cc:38-39 | at the beginning the whole unfolded script remains |
| `TurtleMobility.Turtle.ExecuteStatement` | inet/src/mobility/TurtleMobility.cc:92-109 | a repeat pushes its count, other statements take their time |
| `TurtleMobility.Turtle.GotoNextStatement` | inet/src/mobility/TurtleMobility.cc:256-299 | cursor and counter stack afterwards denote exactly what remains after the statement |
| `TurtleMobility.Turtle.OneStatement` | inet/src/mobility/TurtleMobility.cc:87-88 | the first remaining statement is executed, the others remain |
| `TurtleMobility.Turtle.ResumeScript` | inet/src/mobility/TurtleMobility.cc:74-90 | executes the unfolded script up to the next statement that takes time: before the last one executed there are only repeats and statements of no time, the last one takes time or ends the script, and its time is what the target time grows by; the cursor is at the end exactly when all was executed, and then the stack is empty |
| `TurtleMobility.Turtle.Interpret` | inet/src/mobility/TurtleMobility.cc:82-89 | the loop executes the statements up to the first that takes time |
| `TurtleMobility.Turtle.Initialize` | inet/src/mobility/TurtleMobility.cc:45-51 | the trial run is undone: cursor, stack, script and target time are as before |
| `TurtleMobility.ResumptionsComplete` | inet/src/mobility/TurtleMobility.cc:74-90 | the resumptions put together are the unfolded script, which ends |
| `TurtleMobility.RunScript` | inet/src/mobility/TurtleMobility.cc:74-109 | resumed until its script is over, the turtle has executed the unfolded script, in as many resumptions as it has statements at most and in the time of all of them |
| `NetworkConfigurator.ExtractTopology` | ReaSE/src/networklayer/autorouting/TGMNetworkConfigurator.cc:212-223 | the i-th prefix is (i + 1) shifted left by 16, without overflow |
| `NetworkConfigurator.AssignAddresses` | ReaSE/src/networklayer/autorouting/TGMNetworkConfigurator.cc:290-335 | consecutive addresses above the prefix, without overflow |
| `NetworkConfigurator.Configure` | ReaSE/src/networklayer/autorouting/TGMNetworkConfigurator.cc:38-68 | a plan exactly for topologies that pass the size checks |
| `NetworkConfigurator.PlanPrefix` | ReaSE/src/networklayer/autorouting/TGMNetworkConfigurator.cc:104-117 | no address overflows; shifting right and left by 16 recovers the prefix of the owning AS |
| `NetworkConfigurator.PlanDistinct` | ReaSE/src/networklayer/autorouting/TGMNetworkConfigurator.cc:290-335 | addresses are distinct over all nodes of all AS |
| `NetworkConfigurator.ASRoutesSeparate` | ReaSE/src/networklayer/autorouting/TGMNetworkConfigurator.cc:130-138 | the /16 route to an AS matches the nodes of that AS and of no other |
| `NetworkConfigurator.DefaultInterface` | ReaSE/src/networklayer/autorouting/TGMNetworkConfigurator.h:111-157 | the first interface that leads to the next higher level, none for core routers |
| `NetworkConfigurator.DefaultInterfaces` | ReaSE/src/networklayer/autorouting/TGMNetworkConfigurator.h:111-157 | where every end system has one link, to an edge router, the computed default interfaces are as the forwarding theorems assume, and lead from end systems to edge routers, from these to gateways and from these to the core |
| `NetworkConfigurator.SetDefaultRoutes` | ReaSE/src/networklayer/autorouting/TGMNetworkConfigurator.cc:313-330 | one default route for each node with a default interface |
| `NetworkConfigurator.SetIntraASRoutes` | ReaSE/src/networklayer/autorouting/TGMNetworkConfigurator.cc:345-389 | the tables hold the default route and exactly the exceptions whose first hop differs from it |
| `NetworkConfigurator.LookupNearer` | ReaSE/src/networklayer/autorouting/TGMNetworkConfigurator.cc:368-386 | longest-prefix lookup finds a route, all best routes agree, and it leads one hop nearer |
| `NetworkConfigurator.TripsAreShortest` | ReaSE/src/networklayer/autorouting/TGMNetworkConfigurator.cc:345-389 | every packet to a reachable node arrives in exactly the shortest-path number of hops and not before |
| `NetworkConfigurator.TripExists` | ReaSE/src/networklayer/autorouting/TGMNetworkConfigurator.cc:345-389 | no packet to a reachable node is dropped on the way |
| `NetworkConfigurator.OneLevelUp` | ReaSE/src/networklayer/autorouting/TGMNetworkConfigurator.cc:313-330 | below the core a packet for an address outside of the AS is forwarded one level up, and nowhere else |
| `NetworkConfigurator.TripsClimb` | ReaSE/src/networklayer/autorouting/TGMNetworkConfigurator.h:111-157 | every trip of such a packet visits the levels one after the other, and is at a core router after 3 hops from an end system, 2 from an edge router and 1 from a gateway |
| `NetworkConfigurator.TripClimbs` | ReaSE/src/networklayer/autorouting/TGMNetworkConfigurator.cc:313-330 | there is such a trip from every node |
| `NetworkConfigurator.DistanceExists` | ReaSE/src/networklayer/autorouting/TGMNetworkConfigurator.cc:361-363 | a node that is reachable has a shortest-path distance, so the theorems cover it |
| `NetworkConfigurator.PlannedTablesRouted` | ReaSE/src/networklayer/autorouting/TGMNetworkConfigurator.cc:47-77 | tables built from the address plan, with routes to other AS added, meet the assumptions of these theorems |
| `NetworkConfigurator.ConfigureAS` | ReaSE/src/networklayer/autorouting/TGMNetworkConfigurator.cc:38-77 | the whole configuration of an AS, from the address plan and the links to the tables with routes to other AS, meets all assumptions of the forwarding theorems; where every node has a link to the next level and only core routers have routes to other AS, packets for all other addresses leave by the core |
| `TcpApplication.StepKeeps` | ReaSE/src/applications/tcpApp/GenericTCPApplicationClientThread.cc:64-157 | no enabled callback fails, the invariant is kept, and the session comes nearer to its end |
| `TcpApplication.RunKeeps` | ReaSE/src/applications/tcpApp/GenericTCPApplicationServerThread.cc:30-114 | the invariant holds after every run, and events and remaining distance together are bounded |
| `TcpApplication.OneToken` | ReaSE/src/applications/tcpApp/GenericTCPApplicationClientThread.cc:96-125 | request under way, server timer, reply under way, client timer: never two of them, and one while the session runs and has not stalled |
| `TcpApplication.NeverStuck` | ReaSE/src/applications/tcpApp/GenericTCPApplicationServerThread.cc:30-85 | until both threads are removed some event is possible, unless the session has stalled |
| `TcpApplication.StopsExactly` | ReaSE/src/applications/tcpApp/GenericTCPApplicationServerThread.cc:56-68 | a session in which nothing can happen any more is over if and only if every request asked for a reply |
| `TcpApplication.SessionCorrect` | ReaSE/src/applications/tcpApp/GenericTCPApplicationClientThread.cc:64-212 | over every run, with any reply lengths: no timer scheduled twice and no failing callback, at most one token, numbered requests of which only the final one is flagged last, a bounded number of events, all requests sent when it is over, and a session that stops is over if and only if every request asked for a reply |
| `TcpApplication.EmptyReplyStalls` | ReaSE/src/applications/tcpApp/GenericTCPApplicationServerThread.cc:58-63 | for every number of requests, a run from the start that stalls: its first request asks for an empty reply |
| `TcpApplication.RequestsSentExactly` | ReaSE/src/applications/tcpApp/GenericTCPApplicationClientThread.cc:33 | an int is the number of requests sent, one at least, if and only if it is not negative |
| `TcpReplies.RequestsAsDrawn` | ReaSE/src/applications/tcpApp/GenericTCPApplicationClientThread.cc:192-212 | in every run a request asks for the reply length and delay drawn for it, and nothing but sending changes the requests sent |
| `TcpReplies.AnsweredAtOnceExactly` | ReaSE/src/applications/tcpApp/GenericTCPApplicationServerThread.cc:64-84 | in every run a request for a reply is answered at once if and only if it asks for no delay, and the server's timer is set if and only if it does |
| `TcpReplies.DelayedByTimer` | ReaSE/src/applications/tcpApp/GenericTCPApplicationServerThread.cc:30-43 | a delayed reply is sent only when the server's timer fires |
| `TcpReplies.EventConserves` | ReaSE/src/applications/tcpApp/GenericTCPApplicationServerThread.cc:30-84 | every event passes all requests and replies on, except for requests that are dropped |
| `TcpReplies.EveryRequestAnswered` | ReaSE/src/applications/tcpApp/GenericTCPApplicationClientThread.cc:97-110 | while every request asks for a reply, each has brought one or is being served; at the end of a session as many replies were received as requests were to be sent |
| `TcpReplies.ClosesAfterPeer` | ReaSE/src/applications/tcpApp/GenericTCPApplicationServerThread.cc:98-105 | a server whose client has closed closes too when its timer fires, after the delayed reply |
| `TcpApplication.ClientThread.constructor` | ReaSE/src/applications/tcpApp/GenericTCPApplicationClientThread.cc:27-59 | waiting, with the timer set; the number of requests is converted to an unsigned long |
| `TcpApplication.ClientThread.TimerExpired` | ReaSE/src/applications/tcpApp/GenericTCPApplicationClientThread.cc:64-94 | takes the client's timer step, or fails where the socket forbids it |
| `TcpApplication.ClientThread.SendRequest` | ReaSE/src/applications/tcpApp/GenericTCPApplicationClientThread.cc:192-212 | takes the client's sending step |
| `TcpApplication.ClientThread.SocketEstablished` | ReaSE/src/applications/tcpApp/GenericTCPApplicationClientThread.cc:116-125 | at least one request is sent |
| `TcpApplication.ClientThread.SocketDataArrived` | ReaSE/src/applications/tcpApp/GenericTCPApplicationClientThread.cc:100-111 | sets the timer, which fails if it is set |
| `TcpApplication.ClientThread.SocketPeerClosed` | inet/src/transport/contract/TCPSocket.cc:275-280 | the socket's step when the server has closed |
| `TcpApplication.ClientThread.SocketClosed` | ReaSE/src/applications/tcpApp/GenericTCPApplicationClientThread.cc:145-157 | one timer is set whatever was set before |
| `TcpApplication.ServerThread.TimerExpired` | ReaSE/src/applications/tcpApp/GenericTCPApplicationServerThread.cc:30-43 | takes the server's timer step |
| `TcpApplication.ServerThread.SocketDataArrived` | ReaSE/src/applications/tcpApp/GenericTCPApplicationServerThread.cc:50-85 | takes the server's step for a request: drop, delay or answer |
| `TcpApplication.ServerThread.SocketPeerClosed` | ReaSE/src/applications/tcpApp/GenericTCPApplicationServerThread.cc:98-105 | the server will close |
| `TcpApplication.ServerThread.SocketClosed` | ReaSE/src/applications/tcpApp/GenericTCPApplicationServerThread.cc:110-114 | the thread is removed |
| `TcpApplication.Session.Handle` | inet/src/transport/contract/TCPSocket.cc:239-286 | the threads and the connection between them take the step of the event, or fail where it fails |
| `TcpApplication.Run` | ReaSE/src/applications/tcpApp/GenericTCPApplicationClientThread.cc:64-212 | the threads, driven by any events as long as these can happen, never fail: what they do is a run of the session |
| `FlowExporter.EventKeeps` | ReaSE/src/applications/flow/FlowExporter.cc:96-134 | every packet and every self-message keeps the invariant of flows and timers |
| `FlowExporter.RunKeeps` | ReaSE/src/applications/flow/FlowExporter.cc:139-340 | the invariant holds after every run |
| `FlowExporter.FlowIsDue` | ReaSE/src/applications/flow/FlowExporter.cc:308-320 | a live flow has a pending message no later than both of its timeouts |
| `FlowExporter.NoFlowOverstays` | ReaSE/src/applications/flow/FlowExporter.cc:280-331 | the same for every live flow in every run, with a message that is still to come (by the packets themselves: `FlowHistory.LiveFlows`) |
| `FlowExporter.PointersAlive` | ReaSE/src/applications/flow/FlowExporter.cc:297-298 | a message that is cancelled has never been deleted |
| `FlowExporter.RunCounts` | ReaSE/src/applications/flow/FlowExporter.cc:299-303 | packets and bytes of exported and live flows are those processed, up to 32-bit wrap-around; and nothing wraps around if and only if no packet makes the counter of its own flow reach 2^32 |
| `FlowExporter.RunCountsExactly` | ReaSE/src/applications/flow/FlowExporter.cc:296-331 | they are exactly those processed if and only if no counter wraps around |
| `FlowExporter.BytesWrapAround` | ReaSE/src/applications/flow/FlowExporter.cc:302-303 | a run of two packets of one flow, with 2^32 bytes together, that counts none |
| `FlowExporter.Run` | ReaSE/src/applications/flow/FlowExporter.cc:96-340 | the exporter object, driven by the events of any run, ends in the last state of the run, which meets the invariant |
| `FlowHistory.RunTells` | ReaSE/src/applications/flow/FlowExporter.cc:285-331 | in every run each message with the key of a flow is the idle timeout after its last packet, the flow timeout after its first one, or left behind by an earlier flow |
| `FlowHistory.LiveFlows` | ReaSE/src/applications/flow/FlowExporter.cc:285-331 | a key has a live flow if and only if a packet has come since the last self-message with it; start and end are the times of the first and the last of these packets, the counts their number and bytes modulo 2^32, and neither timeout has passed |
| `FlowHistory.ExportedFlows` | ReaSE/src/applications/flow/FlowExporter.cc:96-134 | a self-message exports the record of exactly these packets, never after the first timeout is due; and just then, if and only if no message left behind when the flow began comes before |
| `FlowHistory.EarlyExport` | ReaSE/src/applications/flow/FlowExporter.cc:96-134 | a run in which a flow is exported before its time |
| `FlowExporter.FlowExporterModule.HandlePacket` | ReaSE/src/applications/flow/FlowExporter.cc:285-332 | takes the packet step and keeps the invariant; does nothing while a timeout is unset |
| `FlowExporter.FlowExporterModule.HandleSelfMessage` | ReaSE/src/applications/flow/FlowExporter.cc:96-134 | exports and erases the flow with the message's key, if there is one |
| `FlowExporter.FlowExporterModule.SetTimeouts` | ReaSE/src/applications/flow/FlowExporter.cc:359-364 | both timeouts are set, flows and messages are not touched |
| `FlowExporter.FlowExporterModule.ScheduleAt` | ReaSE/src/applications/flow/FlowExporter.cc:317-320 | one more pending message with an identity of its own |
| `FlowExporter.FlowExporterModule.CancelEvent` | ReaSE/src/applications/flow/FlowExporter.cc:297-298 | the message is no longer pending; one that was deleted may not be cancelled |
| `ChannelControl.SqrDistSymmetric` | inet/src/world/ChannelControl.cc:190-192 | being in range is symmetric |
| `ChannelControl.SqrDistIsDistance` | inet/src/base/Coord.h:134-138 | zero for equal points only, the same between shifted points, and the sum of the squares along the axes |
| `ChannelControl.InRangeByDistance` | inet/src/world/ChannelControl.cc:190-192 | comparing squares is comparing distances |
| `ChannelControl.ChannelControl.RegisterHost` | inet/src/world/ChannelControl.cc:139-156 | an error exactly for a registered name; a new host has no neighbours and no relation changes |
| `ChannelControl.ChannelControl.LookupHost` | inet/src/world/ChannelControl.cc:158-165 | a host with the name if there is one |
| `ChannelControl.ChannelControl.GetNeighbors` | inet/src/world/ChannelControl.cc:167-178 | the list enumerates the neighbours without duplicates, whether cached or rebuilt |
| `ChannelControl.ChannelControl.UpdateConnections` | inet/src/world/ChannelControl.cc:180-213 | the host's neighbours are exactly the hosts in range, other pairs are untouched, the relation stays symmetric and irreflexive |
| `ChannelControl.ChannelControl.Link` | inet/src/world/ChannelControl.cc:194-211 | both directions change together, and only a change invalidates lists |
| `ChannelControl.ChannelControl.UpdateHostPosition` | inet/src/world/ChannelControl.cc:221-226 | pairs of which one has moved since both registered are related exactly when in range |
| `ChannelControl.ChannelControl.UpdateHostChannel` | inet/src/world/ChannelControl.cc:215-234 | an error exactly for a channel out of range |
| `ChannelControl.ChannelControl.SendToChannel` | inet/src/world/ChannelControl.cc:290-315 | one copy to each related host on the frame's channel and to no other |
| `TcpConnection.Connection.PerformStateTransition` | ReaSE/src/transport/tcp/TCPConnection_hack.cc:236-410 | the switch over states takes the step of the state diagram told by events; a connection on its way stays or moves to a higher rank |
| `TcpConnection.Connection.Process` | ReaSE/src/transport/tcp/TCPConnection_hack.cc:236-410 | over any events, the state and the number of changes, at most 5 from SYN_RCVD on for a connection that is on its way |
| `TcpHistory.ClosingHistory` | ReaSE/src/transport/tcp/TCPConnection_hack.cc:311-390 | the state of an established connection after any events, as an equivalence for each state: who has closed first, and whether the own FIN was acknowledged and the peer's has come since |
| `TcpHistory.OpeningHistory` | ReaSE/src/transport/tcp/TCPConnection_hack.cc:252-308 | until the opening ends: INIT before the first open call, then SYN_RCVD if a SYN has come since the last reset, SYN_SENT if only this side has called, LISTEN otherwise |
| `TcpHistory.AfterOpening` | ReaSE/src/transport/tcp/TCPConnection_hack.cc:274-308 | the event that ends the opening establishes the connection, closes it as an established one, or ends it |
| `TcpHistory.History` | ReaSE/src/transport/tcp/TCPConnection_hack.cc:246-390 | from its creation on a connection is in a state if and only if the history of its events tells this state |
| `TcpConnection.OnlyForward` | ReaSE/src/transport/tcp/TCPConnection_hack.cc:246-390 | under any events a worker or an active connection in SYN_RCVD makes at most 5 changes and never listens again, and any connection makes at most 4 after ESTABLISHED |
| `TcpConnection.ListenerReturns` | ReaSE/src/transport/tcp/TCPConnection_hack.cc:279-290 | any other connection returns to LISTEN n times, for every n, with 2n changes of state |
| `TcpConnection.BoundedExactly` | ReaSE/src/transport/tcp/TCPConnection_hack.cc:246-390 | in SYN_RCVD at most 5 changes are to come under all events if and only if the connection is a worker or active |
| `TcpConnection.TcpHack.constructor` | ReaSE/src/transport/tcp/TCP_hack.cc:25-38 | no limit given means the largest int |
| `TcpConnection.TcpHack.AcceptAnotherConnection` | ReaSE/src/transport/tcp/TCP_hack.cc:95-104 | accepted exactly below the limit; the count stays in range |
| `TcpConnection.TcpHack.CanceledHalfOpenConnection` | ReaSE/src/transport/tcp/TCP_hack.cc:110-121 | the count stays in range |
| `TcpConnection.LimitKept` | ReaSE/src/transport/tcp/TCPConnection_hack.cc:97-117 | in every run the count is in range, and workers exceed it by at most the number of other connections destroyed, so the limit holds while there are none |
| `TcpConnection.ListenersConserved` | ReaSE/src/transport/tcp/TCPConnection_hack.cc:97-117 | in every run, connections that listen and others destroyed are together those created: an accepted SYN leaves a new one that listens |
| `TcpConnection.StillListens` | ReaSE/src/transport/tcp/TCPConnection_hack.cc:97-117 | a host that listens goes on listening while only workers are destroyed |
| `TcpConnection.ActKeeps` | ReaSE/src/transport/tcp/TCP_hack.cc:95-121 | creation, fork and destruction of connections keep the bound |
| `TcpConnection.CountIsWorkersExactly` | ReaSE/src/transport/tcp/TCPConnection_hack.cc:21-24 | throughout a run the count is the number of workers, if and only if no connection but a worker is destroyed while the count is above zero |
| `TcpConnection.CanPassExactly` | ReaSE/src/transport/tcp/TCPConnection_hack.cc:97-117 | from a host some run without destruction of other connections passes the limit, if and only if it has more workers than the count says |
| `TcpConnection.LimitExceeded` | ReaSE/src/transport/tcp/TCPConnection_hack.cc:21-24 | a run with limit 1 and two workers |

## Left out

- Memory deallocation, leaks and destructors, except the effect of the TCP connection destructor on the count.
- PatriciaTrie.Trie.Delete: does not model deleting the only key of a trie, where the source reads an uninitialised pointer. Deleting the zero key while other keys exist is modelled.
- PatriciaRuns.Do: leaves out that deletion too, and PatriciaRuns.Run with it.
- PatriciaTrieCopy.CopyNodes: the source recurses through temporary tries; the model copies nodes directly and passes the new head.
- `SubnetCounterTree::clear`, which deletes from a trie while walking a list of its nodes, and `SubnetCounterTree::copy`, which only wraps the trie's copy.
- `bit_first_different` reads bytes through casts past a partly read key; the model compares bytes of the key and then bits of the first byte that differs.
- The identity of keys and their memory image: keys are bit sequences and are equal exactly if their images are.
- Scripts with empty-bodied or endless repeats, attribute values, border policies, positions and trigonometry of the turtle; statements other than repeat are a time and an identity.
- The shortest-path computation and the routing-table lookup, which are libraries: their results are described by `IsHop` and `IsBest`.
- NetworkConfigurator.DefaultInterface: for a node without a link upwards the source leaves the pointer uninitialised; the model has no default interface and no default route then.
- Stub links and the choice of paths between AS: routes to other AS are arbitrary /16 routes.
- Random values of traffic profiles are parameters of events; byte counts and statistics of the TCP threads are not kept. The number in a request is that of the sender's counter; the message field is an int and shows it modulo 2^32.
- Socket failures, resets and user timeouts of the TCP application; TCP delivers in order and reports the end when both sides have closed.
- Changes of the timeouts of the flow exporter during a run.
- TCP flags, ports and header fields of flow records, and the transport of exported flows.
- Ongoing transmissions per channel, propagation delay and floating-point rounding in the channel control: coordinates are reals.
- TcpConnection.Connection.PerformStateTransition: does not model the actions on entering a state, such as cancelling timers.
- Segment processing of TCP other than the fork of a listening connection.
- Displays, gates, statistics recording, traces, generated message classes, XML-RPC control, and the modules without whole-run properties (connection manager, traffic profiles, classifier, rate limiter, flooding and worm modules, other mobility models).
