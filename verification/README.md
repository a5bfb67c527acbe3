# hsed: a verified model

hsed finds files that were deleted while a process still holds them open. A C daemon walks `/proc`, answers a
line protocol on a socket and can follow a process's writes with ptrace; a Go client shows the results. This
project models the parts of both that keep state or transform data, and proves what they are for.

`dafny verify dfyconfig.toml` checks everything.

| files | what they model |
|---|---|
| `Capture`, `Tracer`, `Interleaving`, `Pairing`, `TraceSession` | the multi-thread tracer: the preview of what was written, the event loop on values, what the loop does for one thread, which syscalls are reported, and the 512-slot table with attach, loop and detach as they run in place |
| `ProcScan`, `ParallelScan`, `ScanCommands`, `Cmdline` | the `/proc` walk: one process, the split over threads under any schedule, the merged and sorted result, STATS against SCAN, and how a command line is shown |
| `JsonString`, `TextReturn`, `JsonObject`, `EntryWire`, `ScanWire`, `EntryLimits`, `StatsWire` | the reply formats from the daemon's buffers to the client's values, over partial sends |
| `ScanToClient` | SCAN from the picture of `/proc` to the client's list |
| `Base64`, `StreamWire`, `StreamSession` | write events and their base64 payload, and a STREAM from the traced run to the client's events |
| `Commands`, `Serving` | the command line the client prints and the daemon parses, and a connection served while the polls of a STREAM read from it too |
| `PathOrder`, `PathTree`, `TreeScreen` | the path tree in memory and its flattened view |
| `App`, `LateDelivery`, `LateAnswers` | the stack of screens and the confirmation of TRUNCATE, HUP and KILL, with pushes and pops handled at once and at any later time |
| `Words`, `Decimal` | integer widths, decimal numerals, and facts about sequences |

Code that changes things in place is modelled in place: the thread table is an array with swap-with-last removal,
buffers are arrays filled through an index, lists grow by doubling, tree nodes and screens are objects. Each such
method is tied to a function on values, and the properties are proved of that function.

Where the code and its comments differ, the code counts. Two examples: `capture_writev` is not limited by the
syscall's return value, so its preview is only comparable with what the kernel wrote (`PreviewAgreesWithKernel`); and
the daemon's 2048-byte line buffer cuts a long write event, which the client then takes for the end of the stream
(`WriteEventArrives`).

Some expectations hold under a condition, which is proved to be exact:

- A clone announcement and the child's first stop lead to the same table in either order if and only if that stop is
  neither a syscall stop nor an announcement of a further untracked thread (`CloneAndFirstStop`), and to the same
  requests if and only if the stop has no signal to hand back (`CloneAndFirstSignal`): a thread first seen at a signal
  stop does not get that signal. In a run whose table never fills a thread gets back all its signals if and only if it
  was never first seen at such a stop, neither at the start nor behind an exit (`RunLosesSignals`). Other reports may
  change places: two adjacent ones of different threads, neither of which announces the other thread, tell every
  thread the same in either order, as long as the table has room for both and does not run empty between them
  (`SwapReports`, `SwapIsIrrelevant`).
- An entry's text comes back unchanged if and only if it is UTF-8 and its buffer has room before each of its bytes,
  save that what is lost of one or two final U+FFFD is put back by the client's decoder (`TextComesBack`,
  `EntryRoundTrip`). A long run of control bytes other than newline, carriage return and tab is cut, as each becomes
  six bytes (`LongControlsAreLost`). SCAN as a whole succeeds if and only if the line of every entry fits the daemon's
  line buffer and the reply is cut by no more than its last newline (`ScanTransfer`): one overlong line fails all of
  it (`OneFilledFailsAll`).
- A connection serves the lines it carries as one request each, for every timing, if and only if no line follows a
  STREAM or a QUIT (`OneRequestPerLine`); the client's calls, which never include QUIT, if and only if no call follows
  a STREAM (`CallsArriveInOrder`). The polls of a stream read from the same socket, so they can swallow a KILL behind
  it (`KillBehindStreamIsLost`) or take the front off a long line and leave its tail to be read as a command
  (`TailBecomesCommand`). The client opens a connection for each call.
- A yes sends a request other than the one its question asks for exactly when the detail screen it uncovers was last
  asked for something else (`AnswersAnother`). Suppose that from some point of a run on everything asked for is
  handled at once, while what is outstanding then may still come at any time. A yes can then go wrong if and only if a
  question stands directly on a detail screen whose last action is another, or a yes is outstanding, or a question is
  outstanding along with a pop without a result or with a detail screen left open for another action (`MixUpExactly`).
  When just two messages are handled before what they ask for, and that is handled next, in either order, it can if
  and only if they are two different action keys on one detail screen (`OneLateKey`). `EarlyKeyMixesActions` is such a
  run from the first screen on. When pushes and pops are handled at once throughout it never happens
  (`SentOnlyAfterConfirmation`).
- Of the writes of a traced run the client sees those before the first overlong line, less those dropped for want of a
  buffer (`RunEvents`); with captures of up to 765 bytes it sees all of them (`SessionShowsWrites`).

## Model

| member | source | states |
|---|---|---|
| Capture.ReadInto | backend/src/tracer.c:78-82 | one remote read lands in place at its offset; no other byte of the capture buffer changes |
| Capture.ReadSegments | backend/src/tracer.c:100-109 | the segment loop fills the buffer with the pieces of the segments, in order, never past its end |
| Capture.CaptureWritev | backend/src/tracer.c:88-110 | the buffer holds the preview of at most 16 iovecs, cut to its size |
| Capture.PreviewIsStreamPrefix | backend/src/tracer.c:88-110 | with readable memory the preview is exactly the first max_capture bytes of the first 16 segments |
| Capture.PreviewAgreesWithKernel | backend/src/tracer.c:88-110 | the preview and the bytes the kernel wrote are prefixes of one stream: one is a prefix of the other |
| Capture.PreviewTakesPrefixes | backend/src/tracer.c:88-110 | whatever reads fail or fall short, the preview is an in-order run of segment prefixes within the limit |
| Tracer.CaptureLimit | backend/src/tracer.c:178-179 | the capture size in use is positive and at most the hard limit |
| Tracer.Payload | backend/src/tracer.c:326-339 | a capture never exceeds max_capture; a plain one never exceeds the return value; a failed write shows nothing |
| Interleaving.OneReport | backend/src/tracer.c:262-361 | one report moves every thread exactly as its own inputs say, and asks nothing of any other |
| Interleaving.RunIsSolo | backend/src/tracer.c:262-361 | in every run whose table never fills, the state, requests and callbacks of a thread are those of a one-thread stepper on its own reports and the clone events naming it |
| Interleaving.InterleavingIsIrrelevant | backend/src/tracer.c:262-361 | two runs that tell each thread the same things end in the same table and treat each thread alike |
| Interleaving.SwapReports | backend/src/tracer.c:262-361 | anywhere in a run two adjacent reports of different threads, neither announcing the other, may change places and every thread is told the same, when both find room in either order and the first leaves a thread |
| Interleaving.SwapIsIrrelevant | backend/src/tracer.c:262-361 | and then the table at the end and what is asked of and reported about each thread are the same |
| Interleaving.CloneAndFirstStop | backend/src/tracer.c:287-304 | the clone announcement and the child's first stop reach the same table in either order, if and only if the stop is neither a syscall stop nor announces another untracked thread |
| Interleaving.CloneAndFirstSignal | backend/src/tracer.c:301-304 | the child gets its first stop's signal back when the clone event comes first and not otherwise, so every thread is asked the same in either order if and only if that stop has no signal to hand back |
| Pairing.LifePairsUp | backend/src/tracer.c:308-345 | while a thread is tracked its callbacks are its enter and exit stops taken two by two, reported when the call was a write on the target fd and the exit's registers could be read |
| Pairing.StepperPairsSyscalls | backend/src/tracer.c:294-345 | the same through any number of exits and reappearances of the thread id |
| Pairing.RunPairsSyscalls | backend/src/tracer.c:262-361 | the same for every thread in a whole run of the loop |
| Pairing.OnlySyscallStopsMatter | backend/src/tracer.c:346-360 | signal, SIGSTOP and event stops of a tracked thread do not change what is reported of it |
| Pairing.TrackedStopsAreResumed | backend/src/tracer.c:345-360 | a tracked thread is resumed once per stop, in order, and gets back every signal but SIGTRAP and SIGSTOP |
| Pairing.ReportsAreResumedOnce | backend/src/tracer.c:287-361 | even with a full table a stop gets exactly one SYSCALL or CONT and other reports none; no request concerns another thread |
| Pairing.StepperHandsBack | backend/src/tracer.c:287-360 | through any number of exits and reappearances of a thread id: one resumption per stop in order, with the stop's signal if it has one to hand back, but none for the stop at which an untracked thread is first seen |
| Pairing.RunHandsBack | backend/src/tracer.c:262-361 | the same for every thread in a whole run of the loop |
| Pairing.RunLosesSignals | backend/src/tracer.c:301-304 | in a run whose table never fills a thread gets back every signal of its stops if and only if it is never first seen, at the start or behind an exit, at a stop with a signal to hand back |
| Pairing.CapturingStaysInsideSyscall | backend/src/tracer.c:308-344 | in every reachable table a thread that captures is inside a syscall |
| TraceSession.EveryThreadHasASlot | backend/src/tracer.c:123-139 | an array that represents a map has a slot for each of its keys, so the linear search finds it |
| TraceSession.SwapOutRepresents | backend/src/tracer.c:141-149 | moving the last slot into a gap represents the map without exactly the removed thread |
| TraceSession.Session.FindOrAddTid | backend/src/tracer.c:123-139 | the table keeps representing a map with unique ids and at most 512 slots; a new thread starts zeroed, all others are kept, a full table refuses |
| TraceSession.Session.RemoveTid | backend/src/tracer.c:141-149 | only that thread leaves the map; no other thread's state changes |
| TraceSession.Session.Seize | backend/src/tracer.c:208-217 | up to five attempts, repeated only after EPERM |
| TraceSession.OneMoreAttached | backend/src/tracer.c:196-237 | attaching one more thread keeps the account: every seized thread is tracked and last resumed, or last detached |
| TraceSession.Session.Attach | backend/src/tracer.c:196-245 | after the attach phase every seized thread is tracked and resumed or had a detach requested, and it fails exactly when none is tracked |
| TraceSession.Session.HandleSyscallStop | backend/src/tracer.c:308-344 | a syscall stop in place is the step on values, callback included |
| TraceSession.Session.HandleReported | backend/src/tracer.c:287-360 | handling a report in place is the step on the map that it represents, requests and callbacks included |
| TraceSession.DetachedOnce | backend/src/tracer.c:268-274 | the final detach asks for each tracked thread exactly once and for no other |
| TraceSession.Session.EventLoop | backend/src/tracer.c:262-361 | the whole loop is the run on values; when the client has gone every tracked thread is then interrupted and detached |
| TraceSession.Session.TraceFd | backend/src/tracer.c:174-362 | attach, trace and detach together: what was requested, in order, for every sequence of answers, error returns included |
| Cmdline.JoinArguments | backend/src/proc_scan.c:92-110 | the buffer shows what was read byte for byte with blanks for the NULs inside, up to the first empty argument, cut to its size; a read shorter than the buffer is never cut |
| Cmdline.OneArgument | backend/src/proc_scan.c:94-108 | one turn of the join loop passes exactly one argument, and an empty one ends it |
| ProcScan.DeletedPathFound | backend/src/proc_scan.c:197-206 | what readlink returns of a link, at most 4095 bytes, names a deleted file if and only if it is a real path with the kernel's mark behind it, and that path is reported; a longer link is overlooked when the cut takes its mark |
| ProcScan.EntryList.Push | backend/src/proc_scan.c:35-45 | appends the entry or, when the list cannot grow, leaves the contents as they were |
| ProcScan.ScanOnePid | backend/src/proc_scan.c:166-258 | appends exactly the process's deleted files that pass the filter, the early owner test included |
| ProcScan.ScanOnePidStats | backend/src/proc_scan.c:166-258 | the cheap form adds the number and the sizes of those same entries |
| ParallelScan.PickThreadCount | backend/src/proc_scan.c:302-315 | at least one thread, no more than pids, at most 32 when chosen from the processors |
| ParallelScan.OffsetValue | backend/src/proc_scan.c:366-377 | the loop's offset is the quotient-and-remainder start of each chunk |
| ParallelScan.ChunksTile | backend/src/proc_scan.c:366-377 | the chunks tile the pid array exactly and differ in size by at most one |
| ParallelScan.NextKeepsInv | backend/src/proc_scan.c:379-395 | every step of any thread keeps each worker's list and counters those of the pids it has finished |
| ParallelScan.FinishedMerge | backend/src/proc_scan.c:390-415 | merging finished workers, each list with its own limit, gives the sequential scan of all pids, or fails exactly when some list had no room |
| ParallelScan.AnyScheduleIsSequential | backend/src/proc_scan.c:366-423 | for every thread count, every failed pthread_create, every schedule and any limits on the lists the result is the sequential one, or a failure: exactly when some list had no room |
| ParallelScan.ProgressIsMade | backend/src/proc_scan.c:379-395 | until the joins are over some thread can move, and every move leaves less to do |
| ParallelScan.MovesAreBounded | backend/src/proc_scan.c:379-395 | no schedule moves for ever |
| ScanCommands.RunParallelScan | backend/src/proc_scan.c:353-423 | on success the list or the counters are the sequential result; it fails exactly when the arrays cannot be had or some list has no room |
| ScanCommands.Scan | backend/src/proc_scan.c:425-445 | SCAN's list is largest first and, as a multiset, what the filter keeps; it fails exactly when the pids cannot be gathered, the arrays cannot be had or some list has no room |
| ScanCommands.ScanStats | backend/src/proc_scan.c:447-455 | STATS's numbers are those of the filtered scan; it fails exactly when the pids cannot be gathered or the arrays cannot be had |
| ScanCommands.SortBySizePermutes | backend/src/proc_scan.c:260-265 | sorting loses and adds nothing |
| ScanCommands.StatsRefineScan | backend/src/proc_scan.c:425-455 | STATS gives the length and the size sum of any list SCAN may produce |
| ScanCommands.FilteredScan | backend/src/proc_scan.c:166-258 | filtering while scanning is filtering the unfiltered scan: the early owner skip loses nothing |
| ScanCommands.OnePidScan | backend/src/proc_scan.c:425-445 | a one-pid scan is the full scan restricted to a pid that is listed once |
| JsonString.JsonEscape | backend/src/protocol.c:9-31 | never writes past the buffer, always terminates it, never leaves half an escape, and leaves what follows the NUL alone |
| JsonString.UnescapeEscape | backend/src/protocol.c:12-28 | decoding (section 7 of RFC 8259) undoes the escaping of any bytes |
| JsonString.KeptIsSubsequence | backend/src/protocol.c:9-31 | what fits decodes to a subsequence of the source, a prefix when no other control bytes occur |
| JsonString.KeptWhole | backend/src/protocol.c:9-31 | the whole source is kept if and only if there is room before each of its bytes |
| JsonString.RoomEnough | backend/src/protocol.c:9-31 | two bytes more than the escaped text are enough |
| JsonString.DoubledBufferIsEnough | backend/src/protocol.c:34-42 | the doubled buffers lose nothing of a field without other control bytes |
| JsonString.RepairIsIdentity | tui/client/client.go:108-108 | the client's decoder leaves a text alone if and only if it is UTF-8 |
| TextReturn.TextComesBack | backend/src/protocol.c:9-31 | a text escaped into a buffer of any size and decoded by the client is itself if and only if it is UTF-8 and there is room before each of its bytes, or before all but the rest of one or two final U+FFFD |
| JsonObject.ReadObjectBack | tui/client/client.go:99-112 | reading a printed object (sections 4, 6 and 7 of RFC 8259) gives its members back |
| JsonObject.CutObjectIsRejected | tui/client/client.go:107-110 | an object cut anywhere is malformed, never another object |
| JsonObject.PrintedHasNoControls | backend/src/protocol.c:12-28 | printed objects hold no raw newline or other control byte |
| EntryWire.FormatEntry | backend/src/protocol.c:33-52 | the output buffer holds the entry's line, cut to its size and terminated |
| EntryWire.EntryLineReads | backend/src/protocol.c:33-52 | any entry's line reads as an object with what the buffers kept of each field |
| EntryWire.EntryRoundTrip | backend/src/protocol.c:33-52 | every entry of the C struct is decoded, each text as its buffer kept it and the decoder repaired it, and unchanged if and only if all four texts come back |
| EntryWire.PlainTextComesBack | backend/src/protocol.c:33-42 | a field without other control bytes comes back if and only if it is UTF-8 |
| ScanWire.Socket.SendLine | backend/src/protocol.c:54-68 | for every schedule of short and interrupted sends: the line and one newline on success, a strict prefix on failure |
| ScanWire.Socket.SendLinef | backend/src/protocol.c:70-77 | the same for the text cut to 2047 bytes |
| ScanWire.LinesRecovered | tui/client/client.go:99-112 | splitting the stream at newlines recovers the lines sent |
| ScanWire.HandleScan | backend/src/server.c:47-63 | the whole reply goes out, or a strict prefix of it when the connection breaks |
| ScanWire.ClientScan | tui/client/client.go:153-174 | the response loop reads what the stream says, line by line |
| ScanWire.CutReply | tui/client/client.go:153-174 | of a reply cut anywhere the client accepts nothing less than all but the last newline |
| ScanWire.EntryLineAnswers | tui/client/client.go:156-166 | an entry whose line fits the line buffer is read as that entry, and one whose line is cut as an error |
| ScanWire.BadLineFails | tui/client/client.go:156-166 | one unreadable line before the end fails the call, whatever follows and wherever the reply is cut |
| ScanWire.ScanTransfer | backend/src/server.c:54-61 | for every list of the C struct: Scan succeeds if and only if every line fits and the reply arrived whole, give or take the last newline, and then has each entry as received, in order, and the daemon's total |
| EntryLimits.LongControlsAreLost | backend/src/protocol.c:21-27 | a run of other control bytes that takes a third of its field or more never comes back whole |
| EntryLimits.PathOfControlsIsLost | backend/src/protocol.c:33-42 | an entry of the C struct whose path is 2000 such bytes is changed at the client |
| EntryLimits.OneFilledFailsAll | backend/src/server.c:54-60 | an entry whose four texts are filled with quotes is one of the C struct, but its line is cut and the whole SCAN fails |
| StatsWire.HandleStats | backend/src/server.c:65-73 | the reply to STATS is never cut by the line buffer |
| StatsWire.StatsTransfer | tui/client/client.go:178-203 | the client's two numbers are the daemon's when no more than the newline is missing, and any shorter reply fails |
| StatsWire.StatsAgreeWithScan | backend/src/server.c:54-72 | on one snapshot the client gets from STATS the length and the total of the daemon's list, and those of what it gets from SCAN whenever SCAN succeeds, which is when every line fits |
| ScanToClient.ScannedInStruct | backend/src/proc_scan.c:231-245 | every entry that is scanned from a well-formed picture of /proc fits the C struct |
| ScanToClient.ServeScan | backend/src/server.c:47-63 | SCAN is scanned, sorted and sent: the whole reply to a largest-first permutation of what the filter keeps, or a strict prefix of it |
| ScanToClient.ClientSeesScan | tui/client/client.go:153-174 | the client's list, when Scan succeeds, is largest first and is, as a multiset, what the filter keeps of the unfiltered scan, each entry as received, with the sum of the sizes |
| Base64.Encode | backend/src/base64.c:6-35 | the encoder fills exactly hsed_base64_encoded_len bytes, NUL included, with the encoding and touches nothing behind them |
| Base64.Shifts | backend/src/base64.c:13-17 | the shifts and masks of the 24-bit value are the four groups of six bits |
| Base64.DecodeEncoded | backend/src/base64.c:10-35 | decoding (section 4 of RFC 4648) undoes encoding for every byte string |
| StreamWire.StreamWrite | backend/src/server.c:127-139 | a write event is one line, cut to the line buffer; it is dropped only when a large buffer cannot be had |
| StreamWire.WriteEventArrives | tui/client/client.go:269-292 | the client's Data is the captured bytes if the line fits 2047 bytes, and otherwise the client sees the end of the stream |
| StreamWire.SmallCapturesArrive | backend/src/server.c:127-139 | captures of up to 1440 bytes always arrive |
| StreamSession.SessionEvents | tui/client/client.go:269-292 | of a session's lines the client sees exactly the write events before the first overlong line, in order and as they were |
| StreamSession.RunEvents | backend/src/server.c:127-158 | for every run of the loop the client sees the callbacks before the first overlong line, less the ones for which no buffer could be had |
| StreamSession.SessionShowsWrites | backend/src/server.c:127-158 | with captures of up to 765 bytes the client sees every write of the run, and of each thread exactly the writes its syscall stops pair up to |
| Commands.Inbox.RecvLine | backend/src/server.c:29-45 | consumes exactly one line and keeps its first bufsize - 1 bytes |
| Commands.NextToken | backend/src/server.c:172-183 | strtok_r takes the next run of bytes that are not delimiters |
| Commands.TokensOfSpaced | tui/client/client.go:145-151 | tokenising words printed with blanks gives the words back |
| Commands.NumbersBack | backend/src/server.c:184-192 | decimal arguments in range are parsed to the same numbers |
| Commands.CommandRoundTrip | backend/src/server.c:172-226 | what the client prints for SCAN, STATS, TRUNCATE, HUP, KILL or STREAM is dispatched with the same arguments, an omitted uid meaning any |
| Serving.PollStream | backend/src/server.c:117-125 | the polls of one stream leave the command loop what none of them took |
| Serving.HandleConnection | backend/src/server.c:160-231 | requests are dispatched in order, one per complete line of what the polls leave, until QUIT, whatever the polls of each STREAM take |
| Serving.OneRequestPerLine | backend/src/server.c:160-231 | complete lines of any length are served as one request each, for every behaviour of the streams, if and only if no line follows a STREAM or a QUIT |
| Serving.TailBecomesCommand | backend/src/server.c:117-125 | behind a STREAM a poll can take the first 256 bytes of a line, and what is left of it is then served as a line of its own |
| Serving.CallsArriveInOrder | backend/src/server.c:160-231 | a connection that carries a sequence of calls is served as that sequence, for every behaviour of the streams, if and only if no call follows a STREAM |
| Serving.KillBehindStreamIsLost | backend/src/server.c:117-125 | STREAM and then KILL on one connection can be served as the STREAM alone |
| PathTree.NormalisedIsComponents | tui/client/client.go:314-321 | trimming, splitting and dropping empty parts leaves the runs of characters between slashes |
| PathTree.OnlySlashesAreDropped | tui/client/client.go:314-321 | only entries with an empty or all-slash path are dropped |
| PathTree.TreeAgreesWithList | tui/client/client.go:311-340 | a node exists iff its path is a nonempty prefix of an entry's, has a child map iff a proper prefix, and holds exactly the entries at that path in input order |
| PathTree.RootStays | tui/client/client.go:311-313 | the root always has a child map and no entries |
| PathTree.ChildOf | tui/client/client.go:323-334 | the child found or made is the node at that path, and the rest of the tree is unchanged |
| PathTree.InsertEntry | tui/client/client.go:314-338 | one entry's walk through the tree in memory is the insertion on values; no write reaches a missing map |
| PathTree.BuildPathTree | tui/client/client.go:311-340 | the tree in memory is the one built on values |
| PathOrder.AscendingUnique | tui/ui/tree_screen.go:46-50 | rows in preorder are determined by which nodes they show |
| PathOrder.SameIndex | tui/ui/tree_screen.go:93-95 | a row keeps its index when nothing in front of it comes or goes |
| TreeScreen.Screen.constructor | tui/ui/tree_screen.go:31-40 | a new view starts on the built tree with the root alone expanded and the cursor at the top |
| TreeScreen.OneMoreName | tui/ui/tree_screen.go:51-58 | a name's row and everything below it extend the rows of the names before it |
| TreeScreen.Screen.Walk | tui/ui/tree_screen.go:45-59 | the walk appends exactly the visible nodes below a directory, each once, with depth and label |
| TreeScreen.Screen.Rebuild | tui/ui/tree_screen.go:42-67 | the rows are exactly the visible nodes, and the cursor is held inside them |
| TreeScreen.RowsInPreorder | tui/ui/tree_screen.go:45-60 | each node once, its subtree unbroken right behind it, siblings by name |
| TreeScreen.ToggledRowStays | tui/ui/tree_screen.go:93-95 | opening or closing a directory leaves its row where it was |
| TreeScreen.RowsDetermined | tui/ui/tree_screen.go:42-67 | the tree and the set of expanded nodes determine the rows |
| TreeScreen.FilesHoldEntries | tui/ui/tree_screen.go:96-96 | a row that is no directory always has an entry to open |
| TreeScreen.Best | tui/ui/tree_screen.go:97-102 | the entry opened is the first of largest size |
| TreeScreen.Screen.Update | tui/ui/tree_screen.go:72-107 | in every state the cursor indexes a row if there is one; a toggle changes one directory and keeps the cursor on it; Enter on a file opens its largest entry |
| TreeScreen.Screen.ToggleTwice | tui/ui/tree_screen.go:93-95 | toggling twice restores rows and cursor |
| App.NextKeepsLayout | tui/ui/app.go:54-88 | every message keeps the stack well laid out: table, tree at most, detail at most, one screen above it at most |
| App.PromptFromLayout | tui/ui/app.go:54-88 | a message and the push or pop it asks for, handled next, lead to the next layout, and a request goes out exactly when the question on top is answered yes |
| App.RunsMatch | tui/ui/detail_screen.go:35-99 | in every run whose pushes and pops are handled first the stack rests on the table, an action pending has its own question directly above, and a question always stands on such a screen; other runs are those of LateDelivery |
| App.SentOnlyAfterConfirmation | tui/ui/detail_screen.go:35-99 | in every such run TRUNCATE or HUP goes out only after its own key and then "y" to its own question, KILL only after "k" and then Enter with exactly the word in the input, typed or pasted |
| App.ConfirmedIsSent | tui/ui/confirm_screen.go:21-31 | answering yes does send the request and leaves nothing pending |
| App.DetailScreen.Update | tui/ui/detail_screen.go:35-99 | the detail screen's fields and commands after a message |
| App.KillConfirmScreen.Update | tui/ui/killconfirm_screen.go:27-39 | Enter answers yes exactly when the input is the word; other keys and pastes edit the input and nothing else changes it |
| App.Application.Update | tui/ui/app.go:54-88 | one message on the screens in memory is the step on values, and no two screens share state |
| App.Application.Run | tui/ui/app.go:54-88 | a whole run on the screens in memory is the run the lemmas speak of |
| LateDelivery.PendingIsLastAction | tui/ui/detail_screen.go:35-99 | in every run, however late pushes and pops are handled, `pending` is the last action key the screen handled since it was pushed and since its last result |
| LateDelivery.WhichRequest | tui/ui/detail_screen.go:37-54 | in every run a request goes out exactly when a yes is handled that uncovers a detail screen with a last action, and it is that action on that screen's entry |
| LateDelivery.RequestHasAYes | tui/ui/app.go:54-88 | in every run a request is preceded by a yes: "y" to a confirmation, or Enter with exactly the word in the input |
| LateDelivery.AnswersAnother | tui/ui/detail_screen.go:37-54 | in every run a yes sends a request other than its question's exactly when the screen it uncovers was last asked for something else |
| LateDelivery.EarlyKeyMixesActions | tui/ui/detail_screen.go:61-96 | from the first screen on, "k" pressed before the push that "t" asked for lets "y" to the truncate question send a KILL no word was typed for |
| LateDelivery.PromptIsAmong | tui/ui/app.go:54-88 | handling a message and at once the push or pop it asks for is one of these runs |
| LateAnswers.UnmixedStep | tui/ui/app.go:54-88 | while no question stands on a screen with something else pending, handling a message and what it asks for at once keeps it so, and a request sent is the one asked about |
| LateAnswers.MixedArises | tui/ui/app.go:67-70 | a question gets onto a screen with something else pending at one kind of event only: its push is handled when that screen is on top |
| LateAnswers.CanMisanswerExactly | tui/ui/app.go:54-88 | with what is asked for from now on handled at once and what is outstanding at any time, a yes can send a request other than its question's if and only if a question stands on a detail screen with something else pending, a yes is outstanding, or a question is, along with a pop without a result or a detail screen without a question and with something else pending |
| LateAnswers.MixUpExactly | tui/ui/detail_screen.go:35-99 | the same after any run in terms of the action keys each detail screen handled |
| LateAnswers.OneLateKey | tui/ui/detail_screen.go:55-97 | with two messages handled before what they ask for, that handled next in either order, and everything later at once, a yes can go wrong if and only if they are different action keys on one detail screen |

## Left out

- The system calls themselves: ptrace, waitpid, process_vm_readv, `/proc` reads, sockets, kill, ftruncate and malloc. What they answer is an input: a sequence of waits with what each stop lets the tracer see, a frozen picture of `/proc`, a list of send results (once it is used up the connection is broken), a budget for each growing list.
- Bytes on the wire are characters below 256; the reads of one stop are numbered, so a repeated read may answer differently.
- Interleaving.RunIsSolo: speaks of runs whose table never fills (`NeverFull`); beyond 512 threads the daemon only continues a thread, which `Pairing.ReportsAreResumedOnce` covers.
- TraceSession.Session.Attach: takes the discovered thread ids to be distinct and at most 512, as the kernel lists them and `discover_tids` limits them.
- Concurrent STREAM sessions: the loop waits for any child, so one session at a time is modelled.
- ParallelScan.AnyScheduleIsSequential: a worker's step is the scan of one pid; list operations inside it are private to the worker.
- ScanCommands.RunParallelScan: runs the workers one after the other; that any other schedule gives the same is `ParallelScan.AnyScheduleIsSequential`. A limit for each list stands for the allocations that fail, as a list is not grown again once it could not be.
- ScanWire.ScanTransfer: assumes that the count and the total fit 64 bits, as `StatsAgreeWithScan` and `ClientSeesScan` do; totals are unbounded integers here, and the daemon's sums could overflow.
- Gathering the pids, user names, access modes and the first line of `comm` are fields of the picture of `/proc`; the lazy loading of them is not modelled.
- Cmdline.JoinArguments: is the join loop alone; opening the file and the fallback to `comm` are not part of it.
- ScanToClient.ClientSeesScan: takes a picture of `/proc` as the kernel gives it (`WellFormed`): texts without NULs, a command line that fits its buffer, and a mode that `fd_mode` can answer.
- The client's JSON reader is modelled for what the daemon prints: no blanks between tokens, no fractions or exponents, no nested values.
- The error replies, the success replies of TRUNCATE, HUP and KILL, and the client's deadlines.
- StreamSession.RunEvents: takes a session that ends without an error and whose sends succeed; what a broken connection leaves of a single line is `ScanWire.Socket.SendLine`. Thread ids, return values and lengths are those of the C types.
- Interleaving.SwapIsIrrelevant: speaks of runs whose table never fills, as `RunIsSolo` does.
- The accept loop and its threads, daemonisation, signals, logging, command-line options and `reclaim.c`.
- Serving.HandleConnection: what each poll finds is an input, a list for each STREAM that attaches; that the tracer polls when it is idle is not modelled.
- PathTree.InsertEntry: splits the source's one loop over the parts into the parts before the last and the last.
- The order in which Go walks a child map is arbitrary; the keys are picked in any order and inserted into place, in the stead of `sort.Strings`.
- App.Application.Update: the table and the tree screen are only present in the stack; what they answer to a key is an input, so every behaviour of theirs is covered. The tree screen itself is `TreeScreen.Screen`; the table's filter, notice and scan results are not modelled.
- App.RunsMatch: speaks of runs in which a push or pop is handled before any other message, as `SentOnlyAfterConfirmation` does; results of requests, scans and streams may come at any time. Runs with late pushes and pops are those of `LateDelivery`, where `pending` need not match.
- App.SentOnlyAfterConfirmation: holds for any text input (the effect of a key or paste on the text is a parameter).
- LateAnswers.MixUpExactly: that a yes can still go wrong needs a text input in which keys lead from any text to the word (`Typable`), as does OneLateKey; that it cannot needs nothing of the input. Later messages that are late themselves are the subject of `AnswersAnother`, event by event.
- Question texts are represented by the action and the entry they ask about; window sizes, rendering, styles and the stream screen's session and lines are not modelled.
