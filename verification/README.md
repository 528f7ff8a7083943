# olliesrv in Dafny

olliesrv is a 9P2000 file server (Plan 9 Programmer's Manual, section 5) over a live
registry of agent sessions. Its state is spread over two worlds that must stay in
agreement while both change: the fid tables of the connections (`server.go`) and the
session map with its logs (`store/`). This project models both and the pieces that join
them, and proves what they keep over all runs and all interleavings.

| module | models |
|---|---|
| `Seqs`, `Text`, `Spaces` | sequence facts; the `strings` functions the server uses; what `TrimSpace` cuts off, by Unicode code points in UTF-8 (RFC 3629) |
| `Paths` | `pathParent`, `pathJoin`, `pathBase`, normal paths and their components |
| `Transfer`, `Directory` | slice reads, write assembly, directory paging |
| `Fids`, `Connections` | the fid table as a value, and the mutable fid objects with the handlers that update them |
| `Sessions`, `SessionLog`, `Publisher` | a session and its abstract core, its log, the streaming publisher |
| `Registry`, `Server`, `World` | the session map as a step system, as a mutable store with its rename callback, and the whole server |
| `Handover` | flushes between the clunk that frees the fid and the lookup in `handleWrite` |
| `Routing`, `RoundTrip` | which store a path leads to, and a file written to the disk and read back through it |
| `Fifo` | the file table of a session and the consuming file `fifo.out` |
| `Serve` | the request multiplexer of one connection |
| `Params`, `Cfg` | generation parameters: printer, parser, and writes to `cfg` |
| `Skills` | the overlay of the skill directories |

A Dafny `char` stands for one Go byte. Objects the source updates in place (`fid`,
`connState`, `Session`, `SessionStore`, `Server`, `RunFileStore`, the publisher closure)
are classes whose methods are proved against functions on values; the theorems over runs
are about those functions. Handlers and critical sections are atomic steps; where the
source releases a lock in the middle (create, kill, a publisher between marker and
offset, `Serve`), the halves are separate steps.

What the code does not keep is stated too, with the exact condition under which it does:

* `README.md:190` says that a rename updates all open handles. It does exactly when the
  new id has no slash and, for a handle on the session directory, is none of the fixed
  names under `/s`; the code checks neither (`World.RenameKeepsTarget`).
* `README.md:56` says that `fifo.out` pops the next prompt. Walking to the file pops one
  already and a Tstat pops two, so readers get everything exactly in runs without such
  steps, truncated reads and lost reads (`Fifo.DeliveredIff`, `Fifo.WalkThenReadSkips`,
  and on the file table itself `Fifo.WalkFifoOut` and `Fifo.StatFifoOut`).
* `README.md:58` puts the `offset` after the last user prompt. The code puts it after the
  last `assistant: ` marker, never at the end of a user line of the same publisher
  (`Publisher.OffsetIsNoUserEnd`); with several publishers it may stand elsewhere, even at the end of a user line, and
  `Publisher.OffsetIff` and `Publisher.OffsetAtLineIff` say exactly when
  (`Publisher.OffsetRace` and `Publisher.RaceAtUserEnd` are such runs).
* A rename can also bring handles to life that denoted nothing
  (`World.RenameAwakens`, `World.StaleHandleAwakens`).
* An overlapping create loses a session exactly when its id is put meanwhile for good
  (`Registry.CreateLosesIff`, `Registry.RunLosesIff`; `Registry.RaceLosesSession` is such
  a run), and Shutdown leaves exactly what was put meanwhile for good
  (`Registry.ShutdownLeaves`, `Registry.RenameEscapesShutdown`).
* A tag reused before its deferred delete makes the older cancel unreachable, and its
  delete then removes the newer one (`Serve.ReadKeepsCompleteIff`, `Serve.ReusedTag`).
* Tstat of a path below a session file that ends in `chat` reports the length of the
  session's log; elsewhere it asks the store pathType asks (`Routing.RoutingAgrees`,
  `Routing.DeepChatShows`).
* A flush is not re-pointed by a rename, as the fids are, and flushes may overtake each
  other (`Handover.FlushReachesIff`, `Handover.RenameLosesFlush`,
  `Handover.FlushesReverse`).
* Different paths may be one file: under `/t` exactly those equal up to `.` components
  (`RoundTrip.SamePlaceIff`), under `/sk` exactly those equal up to a final `.md`
  (`Skills.SameSkillIff`).
* The skill listing repeats a name exactly when a skill passes the seen test under its
  directory name although its front-matter name is already taken
  (`Skills.NoDuplicatesIff`).
* Twstat on a file deeper than one level under `/a`, `/m` or `/sk` moves the fid directly
  under the top directory (`Fids.WstatPathNormal`).

## Model

| member | source | states |
|---|---|---|
| Text.TrimSpaceIdempotent | server.go:1129 | trimming what clunk has trimmed, as the session files do again, changes nothing, for every byte string |
| Spaces.TrimSpaceIs | server.go:1129 | what trimming cuts off both ends are UTF-8 forms of the code points of Unicode white space and nothing else, and what is left neither starts nor ends with one |
| Spaces.SpaceAdded | server.go:1129 | white space added at either end of a payload makes no difference |
| Spaces.TrimmedPayloads | server.go:1129 | at inputs: a line end, a DOS line end and a no-break space go |
| Text.SquashKeepsFields | store/session.go:479-481 | joining the fields with blanks and splitting again gives the same field sequence |
| Paths.JoinIsUndone | server.go:601-625 | parent and base undo a join, for every absolute parent and one-component name |
| Paths.ParentAndBaseOf | server.go:601-625 | on the path of a component list, parent drops the last component and stays at the root, base is the last component |
| Paths.PathOfInjective | server.go:612-617 | different lists of legal names give different paths |
| Paths.PartsOf | server.go:510-511 | what splitting a path in three yields for every list of legal names |
| Paths.UnderDirectory | server.go:829-920 | a prefix test against a top directory holds exactly for paths of two or more components that start with it, whatever other directory names extend it |
| Transfer.ReadSlice | server.go:980-991 | a slice read answers min(count, bytes left) bytes of the content at the offset, none past the end |
| Transfer.ReadToEndIsContent | server.go:980-991 | reading on from any offset in pieces of any positive sizes yields exactly the rest of the content |
| Transfer.AssembledByte | server.go:997-1015 | each byte of the write buffer is that of the last Twrite covering it, or zero where none does, and the buffer ends where the farthest write ends |
| Transfer.TilesRebuild | server.go:997-1015 | writes that are pieces of a payload and cover it leave exactly the payload, in any order, overlapping or not |
| Transfer.PermutedTilesRebuild | server.go:997-1015 | so does any permutation of them |
| Directory.ReadDir | server.go:1402-1427 | the paging loop, with its uint32 conversion, answers a page within bounds for any bytes, offset and count |
| Directory.EntryIsRecord | server.go:1413-1416 | a body of fewer than 65536 bytes behind its length, low byte first, is a record |
| Directory.PageAtBoundary | server.go:1406-1427 | at a record boundary a reply is a run of whole records of at most count bytes that no further record would fit |
| Directory.EmptyPage | server.go:1402-1422 | a reply at a boundary is empty exactly at the end or when the next record exceeds count |
| Directory.PagingIsLossless | server.go:1396-1427 | a client that advances by each reply's length, with any counts no smaller than the largest record, gets the whole listing and stops |
| Directory.EntriesAreRead | server.go:1396-1427 | so is a listing of any entries, each a body behind its little-endian length |
| Directory.OneEntryIsRead | server.go:1413-1427 | at an input: one entry of 60 bytes, its first two bytes 58 and 0, is the whole page |
| Fids.WalkToSplit | server.go:664-688 | where joined names lead is where the second list leads from where the first does |
| Fids.ReachSplit | server.go:664-688 | how far joined names are walked, from how far each part is |
| Fids.ReachIsLongest | server.go:664-688 | the reply length is the longest prefix along which every step exists |
| Fids.WalkComposes | server.go:642-695 | walking twice and walking the joined names succeed together and bind the same fid state |
| Fids.WalkFollows | server.go:664-670 | from a normal path legal names lead to the normal path of the folded components; ".." never leaves the root |
| Fids.WalkQidAt | server.go:680-685 | qid i of the reply is the hash of the path i + 1 names away, with the directory bit exactly if the namespace says directory there |
| Fids.WalkBinds | server.go:642-695 | a successful walk binds a fresh fid to where the names lead with that qid, a partial one binds nothing |
| Fids.WalkReplyIs | server.go:673-679 | the reply is an error exactly for an unbound fid and a missing first name |
| Fids.AttachBindsRoot | server.go:634-640 | Tattach binds a fresh fid to the root directory with qid path 0 |
| Fids.CreateMoves | server.go:711-779 | Tcreate moves the fid to the joined path with the right directory bit, after asking for an entry under /t, /a, /m, /tmp or /sk and for a directory under /t alone |
| Fids.WstatRenamesIff | server.go:1048-1093 | a wstat renames exactly paths of two or more components under /a, /m, /sk and /t to another non-empty name, and changes path and qid path alone |
| Fids.WaitSetsBase | server.go:956-962 | a blocking read sets the baseline of its fid and nothing else |
| Fids.Fnv1aVectors | server.go:496-503 | the path hash meets the published FNV-1a test vectors |
| Fids.StepTable | server.go:634-1199 | every request keeps every fid at an absolute path with the qid of exactly that path, whatever the client sends and the stores answer |
| Fids.WstatPathNormal | server.go:1048-1093 | the path a wstat rename gives a fid: a sibling with two components or under /t, otherwise a file directly under the top directory |
| Fids.RewritePathNormal | server.go:264-277 | the rename callback replaces the id component of paths of that session and nothing else |
| Fids.NotBelowSession | server.go:270 | ids that merely extend the old id as strings do not match the callback's test |
| Fids.StepKeepsNormal | server.go:634-1199 | with legal names every request keeps every path normal |
| Fids.RunMatches | server.go:634-1199 | after any run mode and write buffer of each fid are what an outside observer of binds, opens, creates and writes computes |
| Fids.EveryFlushIsAssembled | server.go:1111-1140 | over any run every handleWrite input is the trimmed overlay of the writes since the fid was bound, and the low two bits of the fid's mode were 1 or 2 |
| Fids.FlushedAtMostOnce | server.go:1111-1126 | between two flushes of a fid number, or a remove and a flush, lies a fresh binding, two racing clunks included |
| Fids.ClunkFlushes | server.go:1111-1140 | after any run an event flushes exactly when it clunks a bound fid whose mode has 1 or 2 in its low two bits, and then hands over that overlay and frees the fid |
| Fids.OpenModeDecides | server.go:1118 | from the mode of Topen or Tcreate, over any requests in between: 1, 2, 17 and 18 hand the trimmed buffer over, 0, 3, 16 and 19 nothing |
| Connections.Fid.Accumulate | server.go:1005-1012 | growing with zeros and copying over is the overlay |
| Connections.Fid.Rewrite | server.go:270-273 | the callback's update of one fid object: path and qid path, not the directory bit |
| Connections.ConnState.Attach | server.go:634-640 | the table step of Tattach on the mutable fids |
| Connections.ConnState.Walk | server.go:642-695 | the table step and the reply of Twalk on the mutable fids |
| Connections.ConnState.WalkLoop | server.go:661-690 | the walk loop returns the qids of the longest existing prefix and, when it gets through, where the names lead |
| Connections.ConnState.Open | server.go:697-709 | the table step of Topen |
| Connections.ConnState.Create | server.go:711-779 | the table step of Tcreate, with the refusals of mkdir and of the stores |
| Connections.ConnState.Write | server.go:997-1015 | the table step of Twrite |
| Connections.ConnState.SetWaitBase | server.go:956-962 | a blocking read leaves its answer as the baseline of the fid, if the fid is still bound |
| Connections.ConnState.Wstat | server.go:1048-1093 | the table step of a Twstat rename outside /s |
| Connections.ConnState.Clunk | server.go:1111-1129 | Tclunk frees the fid and hands over path and trimmed buffer exactly when the low two bits of its mode are 1 or 2 |
| Connections.ConnState.Remove | server.go:1155-1166 | Tremove frees the fid and hands over nothing but its path |
| Connections.ConnState.RewriteFids | server.go:268-276 | the inner loop of the rename callback rewrites every fid of a connection |
| SessionLog.LogIsMonotone | store/session.go:49-67 | under any interleaving of log operations every log is a prefix of every later one and the reply offset neither goes back nor passes the end |
| SessionLog.OpsAre | store/session.go:49-67 | an append puts its data at the end, and the newline step makes a non-empty log end with a newline, adding one only where it has none |
| SessionLog.VersionCountsBumps | store/session.go:49-74 | the version counts the growing operations modulo 2^32 |
| SessionLog.VersionDetectsGrowth | store/session.go:70-74 | length and version change together exactly when the growing operations in between are none or no multiple of 2^32 |
| SessionLog.TailHoldsPrefix | store/sessionfile.go:89-102 | a reader that reads at the number of bytes it holds, with any appends between and any counts, always holds a prefix of the log and never less than before |
| SessionLog.TailCatchesUp | store/sessionfile.go:89-102 | when appends stop, positive reads bring it up to the whole log |
| Sessions.Session.AppendLog | store/session.go:49-58 | appends and bumps the version, except for empty data |
| Sessions.Session.EnsureTrailingNewline | store/session.go:60-67 | adds a newline exactly to a non-empty log without one |
| Publisher.Publish.Handle | store/sessionfile.go:343-372 | the closure performs the operations of the event on the session log, in order, and keeps its flag |
| Publisher.PublishRenders | store/sessionfile.go:343-372 | one publisher leaves the log with one marker per maximal run of assistant events, closed by a newline before the next other event, and the offset at the text of the last run |
| Publisher.MergeKeepsLog | store/sessionfile.go:343-372 | merging each run of assistant events into one changes neither text nor offset, from any log and flag |
| Publisher.StreamingInsensitive | store/sessionfile.go:343-372 | streams that agree after merging leave the same text and offset |
| Publisher.CallKeepsFields | store/session.go:459-461 | a logged call shows arguments with the field sequence it was given |
| Publisher.EventLines | store/session.go:453-477 | the line that each event but a reply and a call leaves in the log |
| Publisher.TrimNewlinesIs | store/session.go:463 | a tool result loses the newlines at its end, all of them and nothing else |
| Publisher.OffsetIff | store/sessionfile.go:354-360 | after any interleaving the offset follows a marker exactly when the marker of the last update and the text others added before that update end in one |
| Publisher.OffsetFollowsMarker | store/sessionfile.go:354-360 | with nothing in between, over a whole run, a non-zero offset always directly follows a marker |
| Publisher.OnePublisherFollowsMarker | store/sessionfile.go:343-372 | so it does with a single publisher, over all events |
| Publisher.OffsetIsNoUserEnd | store/sessionfile.go:354-360 | with a single publisher the offset is never the end of a user line in the log |
| Publisher.OffsetAfterOneTurn | store/sessionfile.go:354-360 | at one turn: the user line ends at 9, the offset is 20 |
| Publisher.OffsetAtLineIff | store/sessionfile.go:354-360 | under any interleaving the offset is the end of a given line exactly when nothing was added between that line and the last update |
| Publisher.RaceAtUserEnd | store/sessionfile.go:354-360 | two publishers interleaved so that the offset is the end of a user line |
| Publisher.OffsetRace | store/sessionfile.go:356-360 | two publishers interleaved so that the offset does not follow a marker |
| Registry.NextKeepsInv | store/session.go:255-436 | each critical section keeps sessions stored under their own ids, and every session in exactly one place |
| Registry.RunKeepsInv | store/session.go:255-436 | and so does every run |
| Registry.ReachableLedger | store/session.go:255-436 | in reachable states a session is closed at most once, never while in the map, being killed or overwritten; one never closed is in one of these; and the map is injective |
| Registry.RunLosesIff | store/session.go:393-398 | over any run a session is overwritten exactly when some insert meets an id that is taken by then |
| Registry.InMapIff | store/session.go:255-436 | an id is in the map after a run exactly when it was there and no kill or rename took it out, or an insert or rename put it and none took it out later |
| Registry.CreateLosesIff | store/session.go:341-398 | one create, from its check to its insert with any other steps in between, costs another session its place exactly when one of them put its id for good |
| Registry.AtIdIff | store/session.go:255-436 | an id denotes a given session after a run exactly when it did and nothing displaced it, or a step put that session under it to stay |
| Registry.PutBackIsRename | store/session.go:393-427 | a session that exists already is put under an id by a rename only |
| Registry.NoOverlapNoLoss | store/session.go:341-398 | in particular, without an overlap of a create with a create or rename of the same id no insert meets a taken id, and no session is ever overwritten |
| Registry.RaceLosesSession | store/session.go:341-398 | two overlapping creates lose the first session: neither live nor ever closed |
| Registry.ShutdownLeaves | store/session.go:255-278 | after a Shutdown with any other steps in between, an id is in the map exactly when an insert or rename put it meanwhile and nothing took it out later |
| Registry.ShutdownEmpties | store/session.go:255-278 | in particular the map is empty when nothing was created or renamed meanwhile |
| Registry.RenameEscapesShutdown | store/session.go:255-278 | a rename between snapshot and kill leaves a session live |
| Server.SessionStore.CreateSession | store/session.go:332-402 | the refusals in order, and otherwise a fresh session under its id, as the two registry steps |
| Server.SessionStore.KillSession | store/session.go:268-278 | an uninterrupted kill: the session is out of the map, cancelled and its core closed once more |
| Server.SessionStore.RenameInMap | store/session.go:405-424 | the refusals of a rename in order, and otherwise the same object under the new id |
| Server.SessionStore.Shutdown | store/session.go:255-266 | the map is empty, and exactly the sessions that were live have been cancelled, and their cores closed, once more |
| Server.Server.OnRename | server.go:264-277 | the callback rewrites every fid of every connection |
| Server.Server.RenameSession | store/session.go:405-436 | map, fids of all connections and log change together, as one atomic step of the world, or nothing changes |
| World.BelowIsSameId | server.go:270 | whether a handle lies below a session directory depends on its whole id |
| World.OtherIdUntouched | server.go:270-273 | the callback leaves handles of other sessions alone, ids extending the old one included |
| World.RenameKeepsTarget | server.go:264-277 | after a rename a handle denotes the same session object and file as before, exactly when it was of another session or the new id has no slash and does not clash with a fixed name |
| World.SlashedIdLost | store/session.go:405-424 | with a slash in the new id no path denotes the session |
| World.RenameLosesHandle | server.go:264-277 | at inputs: the new id x/y loses a handle on a file of the session, the new id new one on its directory |
| World.RenameAwakens | server.go:264-277 | a handle that denoted nothing of a session comes to denote something exactly when it was left over under the new id or lies on a fixed file whose name was the old id; what it denotes is the renamed session unless the new id has a slash |
| World.StaleHandleAwakens | server.go:264-277 | a stale handle on a file of the new id becomes one into the renamed session |
| World.WholeRunInvariant | server.go:634-1199 | in every state reached by any interleaving of requests on any connections, connects, disconnects and registry steps, every fid has the qid path of its absolute path, and the session ledger holds |
| World.ActsOnOwnTable | server.go:372-396 | a request changes its own connection's fids alone, a connection starts without fids, and its end leaves the others' |
| World.LegalRun | server.go:634-1199 | with legal names every fid path stays normal and every id legal over such runs |
| World.RenameRepointsHandle | server.go:264-277 | in a legal state a rename re-points every handle to the same session and file; the handle's path gets the new id and its qid path follows, while directory bit, mode, buffer and baseline stay; other fids are untouched |
| World.RewrittenFid | server.go:268-276 | the same of one fid, for any ids |
| World.RenameAfterAnyRun | README.md:190 | so after any legal run from the empty server |
| Handover.FlightsConserved | server.go:1126-1137 | over any run every flush handed over by a clunk is on its way to handleWrite or has been delivered, once |
| Handover.HandedIsSeen | server.go:1126-1133 | a request hands over exactly the flush an observer of its connection sees |
| Handover.FlushReachesIff | server.go:1126-1137 | a flush arrives at the session file its fid denoted exactly when nothing displaced the session from its id since the clunk, or a rename brought it back to stay |
| Handover.RenameLosesFlush | server.go:1126-1137 | at an input: a rename between clunk and delivery loses the write |
| Handover.FlushesReverse | server.go:1130-1131 | two flushes may be delivered in reverse order |
| Routing.StatIs | server.go:506-599 | the store and key pathType asks for each list of legal names |
| Routing.RoutingAgrees | server.go:799-974 | read, handleWrite and remove go to the same store and key as pathType, each wherever it supports it; so does the length part of stat, except exactly for paths under /s of more than three components that end in "chat" |
| Routing.LengthsAgree | server.go:1499-1583 | the stores stat asks for a length, in turn; for such a deep path the log of the session comes first |
| Routing.DeepChatShows | server.go:1499-1512 | at /s/<id>/x/chat stat asks for the session's own log, pathType for a file x/chat |
| Routing.SessionFileCells | server.go:590-595 | every request on a file of a session asks that session's file table for it |
| Routing.CellsDistinct | server.go:506-599 | two different file paths never hand the stores the same store and key |
| Routing.Routes | server.go:506-599 | by name: /a, /m, /sk, /t and /tmp take reads, writes and removes, /tr no writes, /p, /u and /x neither |
| Routing.RemoveKills | server.go:1182-1191 | removing a session directory reaches the session store with the id, except for new; removing a file below it does nothing |
| Routing.FixedFiles | store/session.go:76-97 | by name: the fixed files of /s that can be read, and that new alone can be written |
| RoundTrip.WrittenIsRead | server.go:1204-1252 | writing a payload in any chunks and order, with any other requests in between, and clunking hands the trimmed payload to the store; the write succeeds exactly when the file is not the tool index and no directory stands in its place and no file in that of a parent; then reading in any positive pieces yields the trimmed payload through every path of that file, and every other file reads as before |
| RoundTrip.WriteDoes | store/store.go:79-101 | when a write gets through, stated on the disk, and that it leaves the file with the data, every parent a directory, and everything else unchanged |
| RoundTrip.WriteKeepsTree | store/store.go:88-96 | a write keeps every parent of a file or directory a directory |
| RoundTrip.WriteShows | store/store.go:79-101 | a write shows through the keys that clean to the same place and through no other |
| RoundTrip.UndottedIs | store/store.go:80 | cleaning a key drops empty names and dots and nothing else |
| RoundTrip.KeyNames | store/store.go:80 | the key of a file of a flat store splits into the names below its top directory |
| RoundTrip.SamePlaceIff | store/store.go:80 | two paths of flat stores are one file exactly when they are equal up to "." components, which outside the tools directory means equal |
| RoundTrip.DottedPathShares | store/store.go:80 | at an input: /t/./x and /t/x have different keys and are one file |
| RoundTrip.DotIsNoFile | store/store.go:80-96 | the directory of a store, reached as ".", cannot be written |
| Fifo.RunFileStore.constructor | store/runfilestore.go:28-36 | the index finds every name, the last entry of a repeated one |
| Fifo.RunFileStore.Stat | store/runfilestore.go:57-74 | a stat finds exactly the names of the table, reports the size, 4096 for a wait file or the length of what reading gives, and takes an item off the queue exactly for a file that is read for its size and pops |
| Fifo.OnlyFifoOutPops | store/sessionfile.go:103-110 | in a session's table that is fifo.out alone |
| Fifo.RunBalanced | store/sessionfile.go:103-159 | over any run of writes, reads, walks, stats and pops by the core the pushed items in order are the popped ones followed by the queue, and an answer is a prefix of its item |
| Fifo.PushedAreInputs | store/sessionfile.go:151-159 | the pushed items are exactly the trimmed non-empty inputs of the writes, in order |
| Fifo.InputsAreServed | store/sessionfile.go:103-159 | so from an empty queue on the written inputs in order are the popped items followed by the queue |
| Fifo.DeliveredIff | server.go:926-932 | readers get every item the core does not run itself, whole, exactly in runs where no walk, stat, lost or short read meets a non-empty queue |
| Fifo.ReadersGetAll | server.go:926-932 | so the readers' answers are the items not run by the core, one for one, exactly in such runs |
| Fifo.WalkThenReadSkips | store/runfilestore.go:57-73 | walking to fifo.out and reading it answers with the second item |
| Fifo.FifoOutCells | server.go:590-595 | walk, stat and read of /s/<id>/fifo.out all ask the session's file table for fifo.out |
| Fifo.PathType | server.go:590-595 | asking whether a session file exists is one stat of the file table |
| Fifo.WalkFifoOut | server.go:674 | Twalk to fifo.out takes one item off the core's queue, the walk step of the ledger |
| Fifo.StatFifoOut | server.go:1430-1587 | Tstat of fifo.out takes two, the stat step of the ledger, and reports the length of the second |
| Fifo.ReadFifoOut | server.go:920-974 | Tread takes one item at offset 0 and none beyond, answers it up to the count or loses it, and answers with no bytes beyond offset 0 and on an empty queue |
| Fifo.WriteFifoIn | store/sessionfile.go:151-159 | a write puts the trimmed payload at the end of the core's queue unless it is empty |
| Serve.RunKeepsInv | server.go:372-434 | over every run the wait group counts the running requests, nothing is sent after the close, each answered request has exactly one response with its tag, pending holds only cancels of running requests, and only Tflush or completion cancels |
| Serve.ClosedIsComplete | server.go:430-433 | once the channel is closed every request read has exactly one response, and nothing runs or is pending |
| Serve.ChannelBounded | server.go:396 | the response channel never holds more than 16 |
| Serve.ReadKeepsCompleteIff | server.go:414-428 | reading a request keeps every running request cancellable exactly when its tag is not in use up to the deferred delete |
| Serve.ReusedTag | server.go:414-428 | a run from the start with a reused tag: the Tflush misses the older request, whose delete then takes the newer one's cancel out |
| Serve.FlushIsExact | server.go:464-470 | if tags are distinct up to the deferred delete, a Tflush cancels exactly the running request with the old tag |
| Serve.DrainDecreases | server.go:405-433 | after the last read every step makes progress |
| Serve.NeverStuck | server.go:398-433 | until the close some step is possible: a full channel never blocks for good |
| Serve.DrainBounded | server.go:405-433 | from the last read on a run has at most as many steps as there is work left |
| Serve.MaximalRunIsComplete | server.go:372-434 | a run that cannot be extended has closed, and the writer has taken exactly one response with its tag for every request read |
| Params.DigitsValue | store/sessionfile.go:410 | decimal digits have the value they were printed from |
| Params.AtoiOfFormat | store/sessionfile.go:410-447 | every Go int is parsed back from its print |
| Params.AtoiIs | store/sessionfile.go:443 | digits with or without a sign are read as their value within 64 bits, and nothing else is read |
| Params.DigitsAt | store/sessionfile.go:410 | the digits are decimal |
| Params.LineIs | store/sessionfile.go:433-480 | what a line of each named key asks for; no value resets the field |
| Params.ParseStops | store/sessionfile.go:443-446 | parsing stops at the first malformed value and returns what it had by then |
| Params.FormatIs | store/sessionfile.go:408-427 | the four lines of the format, by name |
| Params.ParseParams | store/sessionfile.go:430-483 | the loop computes the fold of the lines and stops at the first malformed value |
| Params.ParseLine | store/sessionfile.go:433-480 | the four cases of the loop body set the field the line names or report its value as malformed |
| Params.FormatThenParse | store/sessionfile.go:408-483 | parsing the print of any parameters, from any starting value, gives them back without error |
| Cfg.HandleCfg | store/sessionfile.go:273-340 | the calls a cfg write makes on the core, in order, and its reply, for every input and every answer of the core |
| Cfg.TrimmedLineReads | store/sessionfile.go:277-285 | trimming the line first makes no difference to key and value |
| Cfg.CfgRefinesParser | store/sessionfile.go:273-340 | parameter lines written to an idle core install exactly what ParseParams yields, without error, on the input with malformed values removed; a running core refuses them; input naming no parameter does nothing |
| Cfg.CommandSubmits | store/sessionfile.go:287-294 | backend=v, model=v and agent=v submit "/backend v" and so on to an idle core, are refused by a running one, which ends the write, and are skipped without a value |
| Cfg.CwdChanges | store/sessionfile.go:295-301 | cwd=v changes the directory, and a failure ends the write |
| Cfg.ModelSwitch | store/sessionfile.go:287-294 | at an input: model=x submits "/model x" |
| Cfg.LastValidWins | store/sessionfile.go:301-328 | each field ends with the last well-formed value of its key, or as it was |
| Cfg.DifferentKeysCommute | store/sessionfile.go:301-328 | neighbouring lines that do not set the same key may change places |
| Skills.Sort | store/skill.go:123 | the result is sorted by name and has the same elements |
| Skills.BeforeIs | store/skill.go:123 | the order of names: a proper prefix first, otherwise the first differing byte decides, the smaller first |
| Skills.ListSkills | store/skill.go:97-125 | the scan with its seen set collects what the fold collects, sorted |
| Skills.NoDuplicatesIff | store/skill.go:97-125 | the listing repeats no name exactly when no valid entry passes the seen test under a front-matter name already taken |
| Skills.ListingIsOverlay | store/skill.go:97-125 | if front matter gives directory names, the listing is the sorted, duplicate-free union that prefers earlier directories |
| Skills.ListingUnique | store/skill.go:97-125 | and then every call gives the same listing |
| Skills.DisagreeingNamesRepeat | store/skill.go:107-119 | two directories whose front matter gives the same other name are both listed |
| Skills.ReadSkill | store/skill.go:127-134 | the first skill of that name in a listing, found exactly when collected; if names agree it is the entry of the first directory holding a valid one |
| Skills.SameSkillIff | store/skill.go:155-195 | two names lead to the same skill exactly when they agree once ".md" is cut off and neither is the index |
| Skills.SuffixedNamesShare | store/skill.go:167-176 | at an input: x and x.md are one skill |
| Skills.Stat | store/skill.go:136-145 | stat finds the index and exactly the names that are a collected skill after cutting ".md" |
| Skills.List | store/skill.go:147-153 | the index file first, then the files of a listing in order |
| Skills.ListAgreesWithStat | store/skill.go:136-153 | every ".md" name is listed, once, exactly when stat finds it |
| Skills.Index | store/skill.go:227-235 | the index text describes a listing in order |
| Skills.IndexBlocks | store/skill.go:230-232 | it is one block after the other, each with name, description and a blank line |
| Skills.IndexAgreesWithList | store/skill.go:147-235 | index and list describe the same skills in the same order |

## Left out

- `main.go`: daemon, sockets, PID files and mounting.
- The agent core, its backends and dispatchers are not part of this model; a core is a queue, a running flag, answers to `SetSessionID`, and counters. Turns are arbitrary event sequences. When the core takes an item off its own queue is arbitrary.
- The wire encoding, beyond the length prefix of a directory record (stat(5)); `Tversion`, `Tauth`, the manual's ordering of Rflush, and write errors on the connection: `Serve` closes it without waiting for the writer, so a response the writer has taken may not get out.
- The disk: a flat store is a tree of files and directories that MkdirAll and WriteFile change as they do without I/O errors; permissions, timestamps, names the disk refuses and hard or symbolic links are left out. Names hold no `..`.
- Timers: a read that times out is a step that may happen at any time (`lost`); the blocking reads of the wait files only set the fid's baseline.
- Deadlock: walk and rename take their two locks in opposite orders, so freedom from it does not hold; a rename, callback included, is one atomic step.
- Handlers are atomic. `wstat` and `stat` of the source read `f.path` outside the lock; what another request does to that fid in between is not modelled. `plan9.UnmarshalDir` and the /s case of `wstat` (which calls rename) reduce to the name, and to a registry step.
- The option loop of `createSession`, mode tables, qid versions, logging, `ToolStore.index`, `store/memory.go`, and the create, delete, rename and write sides of the skill store: easy members.
- `kill`, `rn` and the other `ctl` commands are registry and log steps; their parsing is left out.
- Connections.ConnState.Write: needs offset plus length to fit a Go int, beyond which the source panics.
- Transfer.ReadSlice: needs an offset that fits a Go int, for the same reason.
- Directory.PagingIsLossless: the listing is fixed between reads (that of /s ranges over a Go map) and shorter than 2^32 bytes, beyond which the conversion to uint32 wraps.
- World.RenameKeepsTarget: the old id has no slash; a session whose id has one cannot be reached through any path, so no client can rename it.
- Server.SessionStore.CreateSession: runs without interruption; the interleavings are in `Registry`.
- Serve.FlushIsExact: that nothing else is cancelled by the flush is stated for requests; a handler may ignore its cancelled context.
- Params.FormatThenParse: floats are an abstract faithful print and parse pair without NaN, and the integer is a 64-bit one.
- Skills.ListingIsOverlay: the directories do not change between the calls that are compared.
