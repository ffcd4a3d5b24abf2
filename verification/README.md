# Verification of the ASP.NET Core IIS module and IISLib

A Dafny model of the hard parts of this repository: an IIS module that starts a backend process and proxies
requests to it, and the support library it uses. `dafny verify dfyconfig.toml` checks everything.

## What is modelled

**Hash table** (`src/IISLib/hashtable.h`). Twice. `SharedInsert.dfy` is a step system: any number of threads
insert and look up under the shared lock, each step is one access to shared memory, a link is published by
compare-and-swap and retried, and the results hold for every interleaving; `SharedProgress.dfy` shows that the
retries end. `HashTables.dfy` is the object: nodes
on the heap, a bucket array, links rewritten in place by insertion, deletion, deletion by predicate, clearing
and rehashing, refining a set of records with unequal keys and one reference each. The virtual key operations
are parameters (`HashKeys.dfy`); `Primes.dfy` is the choice of bucket counts, `ResponseHeaderHash.dfy` a client.

**Tree hash table** (`src/IISLib/treehash.h`). Every node is in a bucket and under its longest ancestor.
`TreePaths.dfy` says where a path can be cut and what lies below it, `TreeFamily.dfy` and `TreeForests.dfy` what
each change of links does to both views, and `TreeHashTables.dfy` is the object, whose memory is a bucket sequence
and maps from nodes to their links and records, updated in place. It refines a map from paths to records, together
with the set of paths that have a node. `DeleteKey` and `DeleteIf` terminate: the measures are the set of nodes
left, and for `DeleteIf` nodes left together with records left. `SharedTree.dfy` is the step system of concurrent
inserts, which the source runs under the shared lock: the bucket layer of each search and each attempt to add a
node is a call in `SharedInsert.dfy` (`SharedCalls.dfy` lets calls begin at any time), and joining the parent's
child list, swapping a record into an empty node and referencing it are further steps. `SharedTreeSteps.dfy` shows
what each step keeps, `SharedTreeRuns.dfy` what holds in every run, with and without memory, `SharedTreeSearch.dfy`
that the search for an ancestor pays, and `SharedTreeProgress.dfy` that runs end.

**Websocket relay** (`websockethandler.cxx`, `winhttphelper.cxx`). `WebSocketRelay.dfy` is a step system of
two relay loops over one lock, one outstanding-I/O count and one cleanup flag, with an environment that completes
each pending I/O once, in any order and on any thread. `WebSocketHandler.dfy` is the object, each method of which
makes exactly the steps the system allows it.

**Forwarding handler** (`forwardinghandler.cxx`). `ForwardingProtocol.dfy` is a step system of continuations,
activations and references. `ForwardingHandlers.dfy` is the object: the request state machine with its byte
counters and buffers, where every entry or callback is tied to one step. `ChunkedBody.dfy` is the in-place
re-chunking against a decoder of RFC 7230 section 4.1, `ResponseLength.dfy` the length accounting of the response,
`HeaderText.dfy` the pointer-walking header parser.

**Codecs and containers**: `Escaping.dfy` (`stringa.cpp`), `Base64.dfy` (`base64.cpp`), `MultiSz.dfy`
(`multisz.cpp`, `multisz.h`). **Rapid-fail limit**: `RapidFail.dfy` (`processmanager.*`, `serverprocess.cxx`).

Two idioms recur. A predicate of the form `forall key :: Opened(key) ==> ...` is carried along closed and opened
by mentioning `Opened` where its content is needed; it means no more than its body. `hide` statements keep
definitions a proof does not need from the solver. `Opening.dfy` declares `Opened`, `Words.dfy` the 32-bit numbers.

## What turned out not to hold

Each is a lemma with a concrete input or an exact condition.

- `Escaping.LonePercentLosesText`, `Escaping.UnescapeDecodesIff`: in `Unescape`, text between a '%' that starts no
  escape and the first escape is lost. Its comment says that such a '%' is ignored; the code keeps it.
- `Escaping.Utf8EscapeNotUndone`, `Escaping.Utf8UndoneIff`: `EscapeUtf8` does not escape '%', so `Unescape` undoes it
  only for strings without escapes whose lone '%' do no harm. The exact condition is stated for code pages in which
  no 16-bit character has a code of six bytes, which no Windows code page has (`Escaping.WideCodeSurvives`).
- `ChunkedBody.BodyArrivesIff`: an entity read of no bytes would be framed as the last chunk.
- `ResponseLength.ExcessUnnoticed`, `ResponseLength.RemainingIsZeroIff`: a response longer than its Content-Length
  can end normally.
- `HeaderText.HeadersOnSecondLineIff`, `HeaderText.HeaderTakenForReason`: without a space after the status code,
  header lines are taken for the reason.
- `RapidFail.NotOverAfterAllThatTime`, `RapidFail.MinuteOverIff`: the comment says that counters are reset every
  minute; a process manager that sleeps for a multiple of 2^32 ms still believes it is in the minute.
- `ResponseHeaderHash.GetStringIff`, `ResponseHeaderHash.VaryIsNotItsString`: `GetString` takes an index for a place
  in the table; from index 27 on it is not.
- `MultiSz.MultiSz.CopyFrom`: a MULTISZ copied to itself, without growing, becomes empty.
- `Primes.IsPrime`: 1 is taken for a prime (`GetPrime` never asks).
- The comment of `SplitCommaDelimitedString` says that empty entries after the first are discarded and that the
  flag controls it; all are discarded, with either value of the flag (`MultiSz.SplitCommaDelimitedString`).

## Model

| member | source | states |
|---|---|---|
| `SharedInsert.AlwaysWellFormed` | src/IISLib/hashtable.h:404-493 | In every state of every interleaving of any number of inserts and lookups under the shared lock, the memory holds chains sorted by hash, without duplicate keys, each node in its own bucket; no published node is lost; `_nItems` plus the inserters between swap and increment is the number of nodes; when all are done the count is exact and each node is referenced once |
| `SharedInsert.AtMostOneInserted` | src/IISLib/hashtable.h:404-493 | Of concurrent inserts of one key at most one succeeds, none if the key was there before; a refused insert is refused because a node with the key is there |
| `SharedInsert.ExactlyOneInserted` | src/IISLib/hashtable.h:404-493 | When all concurrent inserts of an absent key have ended, exactly one inserted its node and all others report that it already exists |
| `SharedInsert.FindIsComplete` | src/IISLib/hashtable.h:323-400 | A lookup that began while the key was in the table finds a node with that key, whatever is inserted around it, and no lookup finds a wrong one |
| `SharedInsert.RunInv` | src/IISLib/hashtable.h:444-478 | The invariant behind the four results holds after every run |
| `SharedInsert.StepInv` | src/IISLib/hashtable.h:323-478 | Every step of every thread (start, one link followed, link, compare-and-swap, retry, reference, count) keeps the invariant |
| `SharedInsert.SwapInv` | src/IISLib/hashtable.h:466-471 | A successful compare-and-swap splices the node in where the whole order allows it, although other nodes were inserted since the search |
| `SharedInsert.PositionKept` | src/IISLib/hashtable.h:341-365 | What any other thread had learnt on its walk stays true after a foreign node is spliced into its chain |
| `SharedProgress.StepIsCloser` | src/IISLib/hashtable.h:444-471 | Every step of a thread that has not ended lowers one measure of all threads: inserters that have not published, then views of a link that another thread has made stale, then steps left; a retry does too |
| `SharedProgress.AllEnd` | src/IISLib/hashtable.h:444-493 | Whatever thread a scheduler lets run next, all threads end: the retry loops cannot go on forever, even against each other |
| `SharedTreeRuns.BothViewsSound` | src/IISLib/treehash.h:412-602 | In every state of every interleaving of any number of tree inserts under the shared lock, the buckets are sorted, without duplicates and in place, every ancestor of every node has a node, and every child list is well linked and lacks only nodes whose insert is still joining them; when all are done no child list lacks a node, the node count is exact and each record is referenced once |
| `SharedTreeRuns.OneRecordPerKey` | src/IISLib/treehash.h:449-494 | When all inserts are done and memory lacked for none or some of them, a key whose insert did not end for lack of memory has one node, with a record: the one it had, every insert of the key then being refused, or that of exactly one of its inserts |
| `SharedTreeRuns.AllKeysInserted` | src/IISLib/treehash.h:412-602 | When memory lasts and all inserts are done, every key has one node, with a record: the one it had, every insert of the key then having been told so, or that of exactly one of its inserts, which succeeded, all others having been told that it exists |
| `SharedTreeRuns.PathsAreWanted` | src/IISLib/treehash.h:550-591 | Concurrent inserts make nodes for their keys and the ancestors of these only; none is lost; and when all are done, none for lack of memory, there is one for each of them: the interleaving makes no difference |
| `SharedTreeRuns.PathsAreExactly` | src/IISLib/treehash.h:550-591 | When memory lasts and all inserts are done, the paths are exactly those that were there, the keys, and their ancestors, whatever the interleaving |
| `SharedTreeRuns.OutOfMemoryMeansRefused` | src/IISLib/treehash.h:438-447 | An insert that ends for lack of memory was about to allocate a node and was refused the memory for it: with memory that step would have been another |
| `SharedTreeSearch.OnlyMissingNodesMade` | src/IISLib/treehash.h:550-567 | In every state of every run an insert allocates a node only for its key, or for an ancestor that had none when the inserts began: the search for the lowest parent never misses one that was there |
| `SharedTreeSearch.NotFoundMeansNone` | src/IISLib/treehash.h:332-383 | A search that finds no node is right about the state before the inserts |
| `SharedTreeRuns.AncestorThere` | src/IISLib/treehash.h:496-509 | Every cut of the path of a node has a node, in any state in which all nodes hang under their longest ancestors |
| `SharedTreeRuns.TreeRunInv` | src/IISLib/treehash.h:412-602 | The invariant behind these results holds after every run |
| `SharedTreeSteps.TreeStepInv` | src/IISLib/treehash.h:412-591 | Every step of every insert keeps it: searching, allocating, each step in the bucket, joining the parent, filling an empty node, referencing |
| `SharedTreeSteps.TreeJoined` | src/IISLib/treehash.h:496-509 | The swap of the parent's first child puts the node in front of the child list it was linked to, and leaves all other lists alone |
| `SharedTreeSteps.RecordsGiven` | src/IISLib/treehash.h:455-468 | A record that is published with its node, or swapped into an empty one, keeps one record and one giver per node |
| `SharedCalls.CallInv` | src/IISLib/treehash.h:412-447 | A search or an insertion that begins while others are under way disturbs none of them |
| `SharedTreeRuns.NewTreeInit` | src/IISLib/treehash.h:237-273 | Insertions can begin on a table that has just been initialized: the assumption of these results is met |
| `SharedTreeProgress.TreeStepIsCloser` | src/IISLib/treehash.h:412-602 | Every step of an insert that has not ended lowers one measure of all of them: stages left, then the measure of the bucket layer, then steps of joining that no other swap has spoiled |
| `SharedTreeProgress.AllInsertsEnd` | src/IISLib/treehash.h:449-509 | Whatever insert a scheduler lets go on next, all end: neither the retries in the buckets nor those in the child lists can go on forever |
| `HashTables.SearchIsComplete` | src/IISLib/hashtable.h:345-375 | The early stop at a larger hash is right: a search that ends without a match means no record of the whole table has an equal key |
| `HashTables.InsertedOk` | src/IISLib/hashtable.h:444-471 | Linking a node in where the search ended keeps order, uniqueness and places of the table, and adds exactly its record |
| `HashTables.RemovedOk` | src/IISLib/hashtable.h:508-513 | Unlinking a node keeps the table and takes out exactly its record |
| `HashTables.OnlyOneHasKey` | src/IISLib/hashtable.h:497-516 | Taking out the one node found takes out every record with an equal key |
| `HashTables.NoneSelected` | src/IISLib/hashtable.h:530-553 | After all buckets have been walked no record satisfies the predicate |
| `HashTables.MovedOn` | src/IISLib/hashtable.h:641-654 | Moving one node to the new buckets keeps both halves: moved nodes form a table, the others are where they were |
| `HashTables.AllMoved` | src/IISLib/hashtable.h:636-656 | When every bucket has been moved the new buckets hold exactly the old nodes |
| `HashTables.HashTable.FindNodeInternal` | src/IISLib/hashtable.h:323-375 | Found iff a record has an equal key; otherwise the first node of the bucket with a larger hash, and the link that leads to it |
| `HashTables.HashTable.FindKey` | src/IISLib/hashtable.h:379-400 | The record with an equal key, with one reference taken for the caller, or none |
| `HashTables.HashTable.InsertRecord` | src/IISLib/hashtable.h:404-493 | Out of memory, already exists iff an equal key is there, or the record is added and referenced once; the table stays valid across the rehash, and its size afterwards is exactly determined |
| `HashTables.HashTable.DeleteKey` | src/IISLib/hashtable.h:497-516 | The record with an equal key, and no other, leaves the table and loses its reference |
| `HashTables.HashTable.DeleteIf` | src/IISLib/hashtable.h:520-556 | Exactly the records the predicate selects leave the table and lose their references |
| `HashTables.HashTable.RehashTableIfNeeded` | src/IISLib/hashtable.h:588-666 | The same nodes and records, still a valid table; its size is the prime for twice as many buckets iff the items outnumber that prime, it is in range and memory is there, and otherwise as before |
| `HashTables.HashTable.MoveAll` | src/IISLib/hashtable.h:632-661 | The in-place move of all nodes into a new bucket array keeps every node and every record |
| `HashTables.HashTable.Clear` | src/IISLib/hashtable.h:289-318 | The table is empty and only references handed out to callers are left |
| `HashTables.HashTable.Initialize` | src/IISLib/hashtable.h:186-250 | Succeeds iff the bucket count is in range and memory is there; then an empty table |
| `Primes.OddTrialDivision` | src/IISLib/prime.h:58-81 | No odd divisor from 3 up to the integer square root means no divisor at all, for odd numbers from 3 on |
| `Primes.IsPrime` | src/IISLib/prime.h:58-81 | True for the primes and for 1, false otherwise |
| `Primes.GetPrime` | src/IISLib/prime.h:25-56 | Ends without wrapping, with the one value that is right: the first large enough entry of the table; beyond the table the least prime from the minimum on, or the minimum itself when there is none below the largest DWORD |
| `ResponseHeaderHash.HashIgnoresCase` | src/IISLib/hashfn.h:132-144 | Names that differ only in the case of ASCII letters have the same hash |
| `ResponseHeaderHash.FoldsLetters` | src/AspNetCore/Inc/responseheaderhash.h:51-59 | The 26 letters are compared without case, and no other character is |
| `ResponseHeaderHash.OpsAreLawful` | src/AspNetCore/Inc/responseheaderhash.h:43-59 | CalcKeyHash and EqualKeys are what HASH_TABLE relies on: an equivalence that the hash respects |
| `ResponseHeaderHash.HashStringNoCase` | src/IISLib/hashfn.h:132-144 | The loop computes the hash function of the lemmas |
| `ResponseHeaderHash.HeadersAreDistinct` | src/AspNetCore/Src/responseheaderhash.cxx:8-50 | The 31 names of the table are pairwise distinct up to case, so initialization never fails for a duplicate |
| `ResponseHeaderHash.ResponseHeaderHash.Initialize` | src/AspNetCore/Src/responseheaderhash.cxx:51-99 | Succeeds iff memory lasts and no two names are equal up to case; then the table holds exactly the records |
| `ResponseHeaderHash.ResponseHeaderHash.GetIndex` | src/AspNetCore/Inc/responseheaderhash.h:71-85 | Equals a case-insensitive linear search of the header table, for every name |
| `ResponseHeaderHash.GetStringIff` | src/AspNetCore/Inc/responseheaderhash.h:87-100 | GetString gives NULL iff the index is 30 or more, and a name that GetIndex maps back to the index iff the index is at most 26; for 27 to 29 it gives the name of the index before |
| `ResponseHeaderHash.VaryIsNotItsString` | src/AspNetCore/Inc/responseheaderhash.h:87-100 | The index of Vary is 28, and the string of 28 is a placeholder: a concrete case |
| `TreeFamily.PrefixClosed` | src/IISLib/treehash.h:572-591 | If a path has a node, so has every path it can be cut to at a separator that is not its first character |
| `TreeFamily.UnderSomeKid` | src/IISLib/treehash.h:636-654 | Every node below a node is below one of its children, so deleting the children recursively reaches the whole subtree |
| `TreeFamily.AddedOk` | src/IISLib/treehash.h:496-509 | Linking a new node under its longest ancestor keeps parents, child lists and prefix closure |
| `TreeFamily.DetachedOk` | src/IISLib/treehash.h:618-634 | Taking a node out of its parent's child list keeps them, its children being the only orphans |
| `TreeForests.AncestorsPresent` | src/IISLib/treehash.h:572-591 | A node's ancestors all have nodes |
| `TreePaths.BothSlashesCut` | src/IISLib/treehash.h:550-557 | Both slashes separate, and one that starts a path does not |
| `TreeForests.InsertedPaths` | src/IISLib/treehash.h:550-591 | Cutting down to the lowest existing ancestor and refilling from there adds exactly the missing ancestors and the key |
| `TreeForests.PlantedSound` | src/IISLib/treehash.h:449-511 | A new node keeps both views (bucket and tree) and their agreement, and changes the map as intended |
| `TreeForests.UprootedSound` | src/IISLib/treehash.h:618-634 | A node taken out of both views leaves both sound but for its orphaned children |
| `TreeForests.SubtreeGone` | src/IISLib/treehash.h:636-657 | When all children of a detached node have been deleted, exactly the nodes at or below its path are gone |
| `TreeForests.CutDownMeans` | src/IISLib/treehash.h:606-679 | In terms of the map: exactly the paths and records at or below the deleted path are gone |
| `TreeForests.NothingUnder` | src/IISLib/treehash.h:673-676 | If a path has no node, nothing lies below it, so deleting it rightly does nothing |
| `TreeForests.TidyDone` | src/IISLib/treehash.h:694-736 | After all buckets have been walked no record satisfies the predicate |
| `TreeHashTables.TreeHashTable.FindNodeInternal` | src/IISLib/treehash.h:332-383 | Found iff the path has a node; otherwise the place where it belongs |
| `TreeHashTables.TreeHashTable.FindKey` | src/IISLib/treehash.h:387-408 | The record of the path, which carries the path as its key, with a reference for the caller, or none |
| `TreeHashTables.TreeHashTable.AddNodeInternal` | src/IISLib/treehash.h:412-513 | A node for a new path, a record for a node without one, or already exists; both views stay sound |
| `TreeHashTables.TreeHashTable.FindLowestParent` | src/IISLib/treehash.h:550-567 | The in-place cuts end at the longest ancestor that has a node, with the buffer restored there and cut at every separator after it |
| `TreeHashTables.TreeHashTable.AddAncestors` | src/IISLib/treehash.h:569-591 | Every cut is undone and its path has a node; when memory runs out some ancestors may have been added, and only ancestors |
| `TreeHashTables.TreeHashTable.InsertRecord` | src/IISLib/treehash.h:517-602 | Success iff the key had no record; then the record, and nodes for exactly its missing ancestors; otherwise the map is unchanged; one reference per record held; the number of buckets afterwards |
| `TreeHashTables.TreeHashTable.DeleteNodeInternal` | src/IISLib/treehash.h:606-658 | Terminates, and takes the node and exactly what lies below it out of both views, releasing each record once |
| `TreeHashTables.TreeHashTable.DeleteKey` | src/IISLib/treehash.h:662-679 | Exactly the paths and records at or below the key are gone |
| `TreeHashTables.TreeHashTable.DeleteIf` | src/IISLib/treehash.h:683-739 | Terminates although a node is visited again after losing its record; then the records are exactly those the predicate does not select, and both views are sound |
| `TreeHashTables.TreeHashTable.RehashTableIfNeeded` | src/IISLib/treehash.h:771-849 | Nodes, records and tree are unchanged, the buckets are valid again, and their number is determined as for the plain table |
| `TreeHashTables.TreeHashTable.Clear` | src/IISLib/treehash.h:307-328 | Everything is released; only references handed out to callers are left |
| `WebSocketTypes.TranslationKeepsMeaning` | src/AspNetCore/Src/winhttphelper.cxx:92-176 | Translating buffer type to flags and back, either way, changes neither content type nor finality nor close of a fragment |
| `WebSocketRelay.CountAndCompletion` | src/AspNetCore/Src/websockethandler.cxx:158-216 | In every reachable state the count is the pending I/Os plus the completion routines that have not decremented; it is positive until Cleanup; completion is indicated at most once, only when everything has drained, and nothing touches the handler afterwards |
| `WebSocketRelay.NoIoAfterCleanup` | src/AspNetCore/Src/websockethandler.cxx:1043-1084 | Once Cleanup has begun no step starts an I/O, and cleanup is not undone |
| `WebSocketRelay.CleanupDrains` | src/AspNetCore/Src/websockethandler.cxx:732-1040 | After Cleanup every step other than a write to a receive buffer reduces a measure, so a cleaned-up relay drains |
| `WebSocketRelay.DrainedMeansIndicated` | src/AspNetCore/Src/websockethandler.cxx:171-195 | A run that has cleaned up and drained has indicated completion exactly once |
| `WebSocketRelay.RelayedInOrder` | src/AspNetCore/Src/websockethandler.cxx:352-666 | In each direction at most one I/O is in flight; the fragments sent are the fragments received, bytes, type and order, but for at most the last; a send in flight carries exactly the fragment last received |
| `WebSocketRelay.BufferStableWhileSending` | src/AspNetCore/Src/websockethandler.cxx:399-438 | No step changes the receive buffer of a direction while a send from it is in flight |
| `WebSocketRelay.NextSendsWhatWasReceived` | src/AspNetCore/Src/websockethandler.cxx:824-1040 | The send a receive leads to carries exactly the fragment received |
| `WebSocketRelay.NoDirectionAbandoned` | src/AspNetCore/Src/websockethandler.cxx:732-1040 | In every state of every run a routine whose I/O failed leaves only after a cleanup, and before a cleanup each direction has an I/O in flight or a routine that will start one or clean up, except that nothing is left to relay to the server once a close was sent |
| `WebSocketRelay.NoCleanupWithoutFailure` | src/AspNetCore/Src/websockethandler.cxx:732-1084 | In a run in which no I/O fails and none fails to start there is no cleanup |
| `WebSocketRelay.CloseClosesPeer` | src/AspNetCore/Src/websockethandler.cxx:824-1020 | A received close leads to a shutdown or close of the other side, and nothing else does |
| `WebSocketRelay.BytesRelayed` | src/AspNetCore/Src/websockethandler.cxx:352-438 | A fragment is the reported number of bytes at the front of the buffer, and a send sends the number it was asked for |
| `WebSocketRelay.RunInv` | src/AspNetCore/Src/websockethandler.cxx:732-1084 | The invariant behind these results holds after every run |
| `WebSocketRelay.ApplyInv` | src/AspNetCore/Src/websockethandler.cxx:732-1084 | Every step (delivery, critical section, Cleanup, decrement, test) keeps it, in any interleaving |
| `WebSocketHandler.Handler.ProcessRequest` | src/AspNetCore/Src/websockethandler.cxx:219-349 | Establishes the initial state of the step system: both receives in flight, count 2 |
| `WebSocketHandler.Handler.CriticalSection` | src/AspNetCore/Src/websockethandler.cxx:732-1020 | The critical section of the four completion routines does the step the system says, with the same I/O, flags and buffer |
| `WebSocketHandler.Handler.Cleanup` | src/AspNetCore/Src/websockethandler.cxx:1043-1084 | Sets both flags once, as the step does |
| `WebSocketHandler.Handler.Complete` | src/AspNetCore/Src/websockethandler.cxx:732-1040 | A routine run undisturbed is exactly its critical section, Cleanup if that failed, and the decrement with its test |
| `WebSocketHandler.Handler.OnCompletion` | src/AspNetCore/Src/forwardinghandler.cxx:2036-2070 | A completion goes to the routine that belongs to it, which does the steps the system says; a failed I/O leaves the relay in cleanup |
| `WebSocketHandler.RoutineOutcome` | src/AspNetCore/Src/websockethandler.cxx:732-1040 | A routine run undisturbed leaves either the next I/O in flight and the count as it was, or a relay in cleanup; if the count reached zero completion has been indicated |
| `ForwardingProtocol.OneCarrierUntilFinished` | src/AspNetCore/Src/forwardinghandler.cxx:1489-2290 | In every state of every run exactly one thing (operation, callback, IIS work or entry) carries the request on until it is finished, and then nothing; it is finished at most once |
| `ForwardingProtocol.RefsAreHolders` | src/AspNetCore/Src/forwardinghandler.cxx:139-171 | m_cRefs is one for the module, one for each WinHTTP operation whose callback has not ended, one for each IIS entry in progress |
| `ForwardingProtocol.AliveWhenTouched` | src/AspNetCore/Src/forwardinghandler.cxx:2255-2290 | The handler is alive before every step, in particular when a callback that has already dropped its reference posts the completion |
| `ForwardingProtocol.DestroyedMeansOver` | src/AspNetCore/Src/forwardinghandler.cxx:153-171 | When the last reference goes, the request is finished and nothing is left that could touch the handler |
| `ForwardingProtocol.FinishedDrains` | src/AspNetCore/Src/forwardinghandler.cxx:1722-1755 | Once the request is finished the only references left are those of activations on their way out and of the module |
| `ForwardingProtocol.StepInv` | src/AspNetCore/Src/forwardinghandler.cxx:984-2290 | Every step keeps the invariant, whatever the order and however many activations overlap |
| `ForwardingProtocol.EndCarries` | src/AspNetCore/Src/forwardinghandler.cxx:1988-2290 | When an activation ends, what it started is what carries the request; a callback that started nothing must post |
| `ForwardingHandlers.ForwardingHandler.OnExecuteRequestHandler` | src/AspNetCore/Src/forwardinghandler.cxx:984-1476 | Exactly which setups finish the request, and what carries the others on; a failed send gives its reference back |
| `ForwardingHandlers.ForwardingHandler.OnAsyncCompletion` | src/AspNetCore/Src/forwardinghandler.cxx:1489-1755 | Exactly when an entry finishes the request: while receiving, unless the flush was completed, the next operation started and its buffer could be allocated; while sending, unless there was data or an end and the next operation started; otherwise always. Otherwise, which operation carries the request on; what was flushed has reached the client, what was read has been forwarded |
| `ForwardingHandlers.ForwardingHandler.OnWinHttpCompletion` | src/AspNetCore/Src/forwardinghandler.cxx:1988-2290 | For every notification and outcome: exactly when the next operation is started and which, and what state a posted completion finds; what was announced, read and declared is recorded; at the end of the data the request is Done iff the length accounting reached 0, and then the client has everything |
| `ForwardingHandlers.ForwardingHandler.OnSendRequestOrWriteComplete` | src/AspNetCore/Src/forwardinghandler.cxx:2293-2408 | While a part of the body is outstanding and its end has not been reported more of it is read, whenever there is a buffer; the last chunk is written only at the reported end; the response is asked for only when nothing is outstanding or the end was reported; it fails only for lack of memory or because a call fails |
| `ForwardingHandlers.ForwardingHandler.OnSendingRequest` | src/AspNetCore/Src/forwardinghandler.cxx:1758-1900 | Forwards exactly the bytes read, counted down or re-chunked in place |
| `ForwardingHandlers.ForwardingHandler.OnReceivingResponse` | src/AspNetCore/Src/forwardinghandler.cxx:1903-1985 | With nothing queued, frees the buffers and asks for more |
| `ForwardingHandlers.ForwardingHandler.OnDataAvailable` | src/AspNetCore/Src/forwardinghandler.cxx:2524-2583 | Announced data is accounted for and read into a buffer nothing refers to |
| `ForwardingHandlers.ForwardingHandler.OnReadComplete` | src/AspNetCore/Src/forwardinghandler.cxx:2586-2668 | What was read is queued behind what came before and flushed |
| `ForwardingHandlers.ForwardingHandler.BackendGetsBody` | src/AspNetCore/Src/forwardinghandler.cxx:1771-1889 | In every valid state in which the response to a chunked request is being waited for, the client has reported the end of the body, and what was written to the backend decodes to exactly what was read iff no read was empty |
| `ForwardingHandlers.ForwardingHandler.BackendGetsCountedBody` | src/AspNetCore/Src/forwardinghandler.cxx:1758-1889 | In every valid state in which a request with Content-Length is being sent, what was written is what was read, and its length plus the bytes outstanding is the declared length; the response is waited for only when the declared length was written or the client has reported the end |
| `ForwardingHandlers.ForwardingHandler.FlushSeesBackendBytes` | src/AspNetCore/Src/forwardinghandler.cxx:2586-2668 | While a flush is under way the buffers it refers to are unfreed and hold exactly what the client is still missing |
| `ForwardingHandlers.ForwardingHandler.ClientSeesPrefix` | src/AspNetCore/Src/forwardinghandler.cxx:2524-2668 | Whatever happens, the client has received a prefix of what the backend sent, and the sizes announced are the bytes read plus the bytes outstanding |
| `ResponseLength.RemainingIsZeroIff` | src/AspNetCore/Src/forwardinghandler.cxx:2524-2552 | For a positive declared length the accounting reaches 0 iff some announcement brings the total to the length modulo 2^64 |
| `ResponseLength.RemainingIsDifference` | src/AspNetCore/Src/forwardinghandler.cxx:2524-2552 | While the backend stays within its Content-Length the accounting is the difference: 0 iff exactly the declared length was sent |
| `ResponseLength.NoLengthNeverShort` | src/AspNetCore/Src/forwardinghandler.cxx:2524-2552 | A response without a length is never found short |
| `ResponseLength.ExcessUnnoticed` | src/AspNetCore/Src/forwardinghandler.cxx:2524-2552 | A backend that sends more than it declared can still end normally: a concrete case |
| `ChunkedBody.FrameInPlace` | src/AspNetCore/Src/forwardinghandler.cxx:1825-1870 | The frame written in place around up to 8192 bytes stays inside the buffer of 8200 and is the chunk of RFC 7230 section 4.1 |
| `ChunkedBody.WriteSize` | src/AspNetCore/Src/forwardinghandler.cxx:1838-1869 | The size in hexadecimal without leading zeros, right-aligned before the data |
| `ChunkedBody.DigitsOnTheWire` | src/AspNetCore/Src/forwardinghandler.cxx:1825-1870 | The hexadecimal digits, and a chunk of two bytes as it is on the wire |
| `ChunkedBody.DecodeFrame` | src/AspNetCore/Src/forwardinghandler.cxx:1825-1870 | A decoder of section 4.1 reads a frame of at least one byte as its data and goes on after it |
| `ChunkedBody.DecodeWire` | src/AspNetCore/Src/forwardinghandler.cxx:1771-1889 | All frames and the final chunk decode to exactly the body |
| `ChunkedBody.EmptyReadEndsBody` | src/AspNetCore/Src/forwardinghandler.cxx:1771-1889 | An empty read ends the body for the backend, whatever is written after it |
| `ChunkedBody.BodyArrivesIff` | src/AspNetCore/Src/forwardinghandler.cxx:1771-1889 | The backend reads exactly the body iff no read was empty |
| `HeaderText.SetStatusAndHeaders` | src/AspNetCore/Src/forwardinghandler.cxx:194-353 | The pointer walk stays inside the text and its terminator, and computes the parse function, errors included |
| `HeaderText.ParseHeaders` | src/AspNetCore/Src/forwardinghandler.cxx:263-353 | Every round starts on a later line; the headers are those of the parse function |
| `HeaderText.NextHeader` | src/AspNetCore/Src/forwardinghandler.cxx:263-353 | One header, with continuation lines, trimmed as the code does; no colon on the line is an error |
| `HeaderText.ReadStatusLine` | src/AspNetCore/Src/forwardinghandler.cxx:194-232 | The reason phrase is where the parse function says |
| `HeaderText.RoundTrip` | src/AspNetCore/Src/forwardinghandler.cxx:194-353 | Parsing the rendering of a status line and any list of plain headers (RFC 7230 section 3.2), whose values may go on in continuation lines, gives reason and headers back; an empty reason is read as one space |
| `HeaderText.PaddedLineReadsBack` | src/AspNetCore/Src/forwardinghandler.cxx:263-353 | Any number of spaces before the colon and around the value, and carriage returns at the end, are taken away, and nothing else |
| `HeaderText.SpacedStatus` | src/AspNetCore/Src/forwardinghandler.cxx:194-232 | The reason phrase starts behind the second run of spaces, however long the runs are |
| `HeaderText.MalformedText` | src/AspNetCore/Src/forwardinghandler.cxx:194-288 | An empty line ends the headers; no colon in the rest of the text, or no space in the text, is an error |
| `HeaderText.LinesReadBack` | src/AspNetCore/Src/forwardinghandler.cxx:263-353 | Header lines anywhere in a text are read as the headers they render |
| `HeaderText.HeadersOnSecondLineIff` | src/AspNetCore/Src/forwardinghandler.cxx:194-232 | The headers start on the second line iff the first has a space after its status code; otherwise the reason phrase is cut out of a later line, and the headers that are read are only those behind that line |
| `HeaderText.HeaderTakenForReason` | src/AspNetCore/Src/forwardinghandler.cxx:194-232 | A header value becomes the reason phrase, and no header is left: a concrete case |
| `Escaping.Unescape` | src/IISLib/stringa.cpp:827-941 | In place, the write position never passes the read position, and the result is the rewriting function, cut at its first NUL |
| `Escaping.UnescapeDecodesIff` | src/IISLib/stringa.cpp:827-941 | The result is the left-to-right decoding iff there is no escape, or nothing but '%' between the first '%' and the first escape and no escape that stands for NUL |
| `Escaping.LonePercentLosesText` | src/IISLib/stringa.cpp:895-930 | Text between a lone '%' and the first escape is lost: a concrete case |
| `Escaping.EscapeInternal` | src/IISLib/stringa.cpp:673-824 | Exactly the bytes the predicate selects are replaced by %XX, the others are copied |
| `Escaping.DecodeEscaped` | src/IISLib/stringa.cpp:673-824 | Decoding an escaped string gives the string back, for every predicate that selects '%' |
| `Escaping.UnescapeUndoesEscape` | src/IISLib/stringa.cpp:626-646 | Unescape undoes Escape on every NUL-free string |
| `Escaping.EscapesAllBut` | src/IISLib/stringa.cpp:601-625 | Escape leaves alone the listed characters and escapes all others |
| `Escaping.WideEscapeOf` | src/IISLib/stringa.cpp:842-893 | %u and four digits stand for the character of that code |
| `Escaping.DigitsInEitherCase` | src/IISLib/stringa.cpp:842-893 | Hexadecimal digits are read in either case, and written in upper case |
| `Escaping.Utf8UndoneIff` | src/IISLib/stringa.cpp:649-669 | Unescape undoes EscapeUtf8 iff the string has no escape in it and nothing but '%' between its first '%' and its first byte from 128 on, if it has such a byte |
| `Escaping.WideCodeSurvives` | src/IISLib/stringa.cpp:649-669 | The one exception, a code page in which a character has a code of six bytes that reads as the escape itself; `Utf8UndoneIff` excludes it |
| `Escaping.Utf8EscapeNotUndone` | src/IISLib/stringa.cpp:649-669 | EscapeUtf8 leaves "%41" alone, and Unescape makes "A" of it: a concrete case |
| `Base64.RoundTrip` | src/IISLib/base64.cpp:7-242 | Decoding an encoding gives the bytes back with exactly their size, for every non-empty byte string |
| `Base64.TablesAreTheAlphabet` | src/IISLib/base64.cpp:36-42 | The encoding table is the alphabet of RFC 4648 table 1, the decoding table its inverse, and no other character but = has a value |
| `Base64.TestVectors` | src/IISLib/base64.cpp:50-126 | The test vectors of RFC 4648 section 10 for every padding |
| `Base64.EncodedSizeIff` | src/IISLib/base64.cpp:7-48 | The 32-bit size computation is exact iff the input has at most 3221225469 bytes |
| `Base64.PaddedIsEncode` | src/IISLib/base64.cpp:50-126 | Filling missing bytes with 0 and padding afterwards gives the coding of RFC 4648 section 4 |
| `Base64.Base64Encode` | src/IISLib/base64.cpp:7-126 | Status, size and contents; up to that size the overflow checks inside the loop never fail, above it nothing is encoded |
| `Base64.Base64Decode` | src/IISLib/base64.cpp:130-242 | Status, size and contents; writes stay below cbDecoded |
| `Base64.DecodeClusters` | src/IISLib/base64.cpp:180-242 | Invalid parameter iff some character has no value; the bytes are those of the decoding |
| `MultiSz.HoldsBlock` | src/IISLib/multisz.cpp:25-46 | A terminated buffer begins with the block of the strings it holds, all non-empty and NUL-free |
| `MultiSz.BlockHolds` | src/IISLib/multisz.cpp:25-46 | A buffer that begins with the block of some strings holds exactly these, with the length and count CalcLength gives |
| `MultiSz.CalcLength` | src/IISLib/multisz.cpp:25-46 | Length and count of the strings held, all reads inside the buffer |
| `MultiSz.AppendedStrings` | src/IISLib/multisz.cpp:160-232 | Writing a block and two NULs where the strings end appends exactly the block's strings |
| `MultiSz.OneString` | src/IISLib/multisz.h:70-86 | Appending a string adds it; appending the empty string adds nothing |
| `MultiSz.BlockOf` | src/IISLib/multisz.h:97-105 | Copying a block gives exactly the list it is the block of |
| `MultiSz.ScanSeesAll` | src/IISLib/multisz.h:183-191 | First and Next visit every string once, in order |
| `MultiSz.MultiSz.Represents` | src/IISLib/multisz.h:108-123 | In every valid state memory, QueryCCH and QueryStringCount are those of the list (the empty list may count two NULs) |
| `MultiSz.MultiSz.Reset` | src/IISLib/multisz.h:88-95 | The list is empty |
| `MultiSz.MultiSz.AuxAppend` | src/IISLib/multisz.cpp:160-232 | Exactly when it fails; otherwise the block's strings follow those that were there; on failure nothing changes |
| `MultiSz.MultiSz.Append` | src/IISLib/multisz.h:70-86 | One more string, or nothing for an empty one; the byte count is passed on in 32 bits |
| `MultiSz.MultiSz.Copy` | src/IISLib/multisz.h:97-102 | The strings of the block, or the empty list on failure |
| `MultiSz.MultiSz.CopyFrom` | src/IISLib/multisz.h:104-105 | When it fails; otherwise the other object's list; copied to itself without growing, the list is lost |
| `MultiSz.MultiSz.FindString` | src/IISLib/multisz.cpp:50-81 | True iff the string is in the list |
| `MultiSz.MultiSz.Equals` | src/IISLib/multisz.cpp:344-372 | True iff the lists are equal |
| `MultiSz.FieldsJoined` | src/IISLib/multisz.cpp:408-468 | The fields contain no comma and joined by commas they are the text |
| `MultiSz.SplitOfJoin` | src/IISLib/multisz.cpp:375-472 | Splitting the join of any list of clean entries gives the list |
| `MultiSz.TrimmedIs` | src/IISLib/multisz.cpp:437-449 | Trimming removes white space at both ends, all of it, and nothing else |
| `MultiSz.EntriesOf` | src/IISLib/multisz.cpp:403-468 | A text with each kind of white space, and its entries |
| `MultiSz.SplitCommaDelimitedString` | src/IISLib/multisz.cpp:375-472 | The list is exactly the non-empty, trimmed if wanted, fields in order, whether or not empty entries are to be removed; on failure a prefix of it; it never fails when memory lasts and the text is not close to 4 GB |
| `RapidFail.WindowBound` | src/AspNetCore/Inc/processmanager.h:112-131 | Between two resets of the counter at most limit + 1 started processes fail |
| `RapidFail.MinuteBound` | src/AspNetCore/Src/processmanager.cxx:192-264 | In any stretch shorter than 60000 ms at most 2 (limit + 1) started processes fail |
| `RapidFail.FailuresAreStarts` | src/AspNetCore/Src/serverprocess.cxx:831-873 | What the bounds count are the failing starts, each once |
| `RapidFail.ResetsApart` | src/AspNetCore/Inc/processmanager.h:117-128 | Two resets are at least a minute apart, the subtraction being modulo 2^32 |
| `RapidFail.LimitIsReached` | src/AspNetCore/Inc/processmanager.h:112-131 | The bound is met: limit + 1 starts can fail, and then none begins |
| `RapidFail.BeginsIff` | src/AspNetCore/Src/processmanager.cxx:192-226 | A process is made iff the minute seems to be over or the limit is not exceeded |
| `RapidFail.ProcessStays` | src/AspNetCore/Src/processmanager.cxx:169-290 | A process in the list stays in its place in every critical section but a shutdown of all and the exit of a process with its port |
| `RapidFail.ProcessStaysInRun` | src/AspNetCore/Src/processmanager.cxx:169-290 | The same for every stretch of a run: a backend that runs is never replaced |
| `RapidFail.ServedIff` | src/AspNetCore/Src/processmanager.cxx:183-264 | A request gets a process iff there is one, or one may be started and comes up ready without failing; no other slot changes |
| `RapidFail.MinuteOverIff` | src/AspNetCore/Inc/processmanager.h:117-119 | The minute seems to be over iff the time since the reset, modulo 2^32, is at least 60000 ms |
| `RapidFail.NotOverAfterAllThatTime` | src/AspNetCore/Inc/processmanager.h:117-119 | After 2^32 ms the minute still seems to go on: the reset after a minute is not guaranteed |
| `RapidFail.StepInv` | src/AspNetCore/Src/processmanager.cxx:169-290 | Every critical section keeps the invariant: whoever is in the list is ready, and the counter cannot wrap |
| `RapidFail.RunInv` | src/AspNetCore/Src/processmanager.cxx:169-290 | It holds in every state of every run |
| `RapidFail.ShutDownInv` | src/AspNetCore/Inc/processmanager.h:133-150 | Exactly the processes with the port are stopped and taken out, each counted once |
| `RapidFail.ProcessManager.RapidFailsPerMinuteExceeded` | src/AspNetCore/Inc/processmanager.h:112-131 | Resets counter and start tick when the minute is over, then compares |
| `RapidFail.ProcessManager.ShutdownProcessNoLock` | src/AspNetCore/Inc/processmanager.h:133-150 | The loop is the shutdown function of the lemmas |
| `RapidFail.ProcessManager.StartProcess` | src/AspNetCore/Src/serverprocess.cxx:831-873 | Every exit that is not ready, failed or not, counts once |
| `RapidFail.ProcessManager.StopProcess` | src/AspNetCore/Src/serverprocess.cxx:1293-1299 | Not ready, and counted |
| `RapidFail.ProcessManager.GetProcess` | src/AspNetCore/Src/processmanager.cxx:169-290 | The critical section is the step of the lemmas; it succeeds iff a ready process is in the slot, and a process that was ready is left as it is, with the counters |

## Left out

- WinHTTP, IIS, process creation, event log and configuration calls: an asynchronous call either fails when it
  is started or completes once; everything else they decide is a parameter.
- Disconnect notification and `TerminateRequest`: their registration is commented out.
- `WebSocketRelay.CountAndCompletion`: every started I/O completes exactly once, Cleanup is called from completion
  routines only, and a failing ProcessRequest is left out.
- The lock implementations: a reader/writer lock excludes as it should; the one for older systems is not modelled.
- A request upgraded to a websocket inside the forwarding handler, the connection-closed notification (not
  registered for), and response buffering with a limit above 0.
- `ForwardingHandlers.ForwardingHandler.OnAsyncCompletion`: the branch for a request handle that is already closed, and
  that of a request upgraded to a websocket, are left out.
- `ForwardingHandlers.ForwardingHandler.OnWinHttpCompletion`: as for `OnAsyncCompletion`.
- `WebSocketHandler.Handler.ProcessRequest`: the two receives are started together; an exit because one cannot be
  started is left out.
- `ForwardingHandlers.ForwardingHandler.OnReadComplete`: whether the response refers to what was read and whether
  the flush starts are outcomes of IIS calls, so a chunk that IIS refuses ends the request here.
- `ForwardingProtocol.StepInv`: that an activation starts at most one continuation is a condition of the step; it is
  established by the three entry points of `ForwardingHandlers.ForwardingHandler`, each of which makes exactly that step.
- `HeaderText.SetStatusAndHeaders`: the status number, and what is done with each header (filtering, rewriting, known
  indices), are not modelled; the reason is modelled for every status, the code reads it when the status is not 200.
- `Escaping.Unescape`: what a code page makes of %uxxxx is a parameter.
- `Escaping.EscapeInternal`: growth of the temporary buffer and its failures, one of which the source ignores, are not
  modelled.
- `TreeHashTables.TreeHashTable.InsertRecord`: single-threaded, for the object; concurrent inserts are in
  `SharedTree.dfy`. Keys are case-sensitive, non-empty and without NUL (the first loop takes it for granted that there
  is a last character).
- `TreeHashTables.TreeHashTable.AddNodeInternal`: single-threaded, for the object, as above.
- `SharedTreeRuns.BothViewsSound`: lookups that run beside the inserts are those of `SharedInsert.FindIsComplete`, for
  the bucket layer; memory is sequentially consistent.
- `TreeHashTables.TreeHashTable.DeleteNodeInternal`: a detached node leaves the link maps when it is unlinked, and
  the recursion works on a copy of its links, where the source frees the node last.
- `HashTables.HashTable.InsertRecord`: single-threaded, for the object; the item count is unbounded, so its wrap at
  2^32 items is not modelled.
- `SharedInsert.ExactlyOneInserted`: allocation succeeds, and memory is sequentially consistent.
- `HashTables.HashTable.Initialize`: initializing twice is not modelled.
- `Primes.GetPrime`: nothing is claimed about the primality of table entries (some are divisible by 3), nor that
  there is a prime between any given minimum and the largest DWORD.
- `MultiSz.MultiSz.CopyFrom`: what a copy to itself reads when the buffer has to grow, and so may move, is left open.
- `MultiSz.MultiSz.Append`: a source that lies in the object's own buffer is modelled only for `CopyFrom`; the
  constructors from a block and from a stack buffer, the case-insensitive search and `CopyToBuffer` are left out.
- `MultiSz.SplitCommaDelimitedString`: null arguments, which are an asserted caller error, are left out; for a
  text of 4 GB or more the 32-bit byte count can truncate entries, and only validity of the list is claimed.
- `RapidFail.ProcessManager.GetProcess`: only the section under the exclusive lock; the round-robin index, the shared
  look at a ready process and the unlocked second look are left out, so that it returns a process whenever it
  succeeds is claimed for that section only. Processes are values in the slots, without their handles.
- `RapidFail.StepInv`: the counter cannot wrap if the limit and the number of processes are together below 2^31 - 1.
- `ResponseHeaderHash.ResponseHeaderHash.Initialize`: the numbers of the header indices come from http.h, which is
  not part of this model.
- `MULTISZA`, the wide variants of base64 and the wide string class: the same algorithms again.
- File watching, application and environment handling: nothing beyond easy members, or claims that do not hold.
