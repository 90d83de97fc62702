# Verified model of the Pageant-to-OpenSSH bridge

The program serves Pageant clients on a named pipe and on the legacy shared mapping, and
answers them from the Windows OpenSSH agent. This project models the code between a client's
bytes and the agent's, the parsers that read what passes by, the text that is shown of it, and
the hand-off to the UI thread, and proves what they keep.

| file | models |
|---|---|
| `SessionMachine.dfy` | `Session` under every interleaving of goroutines; both mutexes and the two unlocked windows are explicit steps |
| `ShutdownMachine.dfy` | acceptor, workers and `closeConnections` under every interleaving; each worker carries a whole `SessionMachine` state |
| `Transport.dfy`, `Agent.dfy` | `exchange` and `Session` at byte level, as classes; each I/O call may be short, and fails where the environment's script says so |
| `Simulation.dfy` | nothing new: it proves that every history of an `Agent.Session` is a run of `SessionMachine` |
| `Bridge.dfy` | `pipeListen`, `queryUsing`, `QueryAgent`, `handleCopyData` |
| `Bytes.dfy`, `Frames.dfy`, `SshStrings.dfy`, `Keys.dfy` | the wire: words, frames, SSH strings, key lists, sign requests, userauth data |
| `WireForms.dfy` | the same wire forms written out byte by byte, with the proof that the parsers accept exactly these bytes |
| `Text.dfy` | UTF-8 in, cleaned and bounded, UTF-16 out |
| `ClientTarget.dfy`, `TcpTable.dfy` | attribution from a command line and from the TCP table |
| `ClientForms.dfy`, `TableForms.dfy` | the command lines that clients have and the tables that Windows gives, written out, with the proof of what is reported of them |
| `UiChannels.dfy` | notices and key refreshes on their way to the UI thread |

How the parts fit. `SessionMachine` and `ShutdownMachine` are transition systems: `Do` takes one
event in one state, a schedule is any sequence of events, and every theorem is about all
schedules. `Agent.Session` models the same Go type again, at byte level and from the side of the
goroutine that holds `queryMu`; other goroutines appear in it as `Interference`, which may only
close the session, as `SessionMachine.OthersOnlyClose` proves of the machine. The two models are
tied together by `Simulation.HistoryIsRun`: whatever a sequence of `Query` and `Close` calls does
on the byte-level session, some schedule of the machine does, with the same bytes sent and read,
the same replies and the same outcomes; so what holds of all runs holds of all histories.
`Bridge.PipeListen` composes `Agent.Session` with the client's stream. A frame is checked on entry and exit by one predicate,
and streams of frames are related to their bytes by `Frames.Split`, for which concatenation and
splitting are proved inverse.

The parsers and the functions that specify them share definitions, so each definition is also
pinned from outside: limits, constants, byte orders, names and option tables stand as numbers and
bytes in statements that do not use it (`Frames.ResponseExact`, `Text.DisplayedExact`, the modules
`WireForms`, `ClientForms` and `TableForms`), and every operation has a statement of what it does
when all goes well (`Bridge.CalmBridge`, `Agent.GenuineIsAnswered`, `ShutdownMachine.AllAreLetIn`,
`UiChannels.RoundsDeliver`).

What can go wrong is fixed before a run and constant during it. A `Transport.Script` says what a
connection's peer sends and at which points of the two streams which calls fail, be it by an
error, a deadline or a Close from another goroutine; an `Agent.World` says whether the pipe is
local, whether the dial is accepted, what connection it gives, and after how many answers other
goroutines may close the session. The sizes of reads and writes, and how much of a failing call
gets through, are arbitrary. The modelled code cannot set any of this, so the completeness
results depend on the environment alone.

Three properties fail, each with a run that shows it and the exact condition under which it holds.

- `Close` does not always wait for the connection to be closed. With two concurrent calls the
  second returns at once while the first has yet to close the connection, and a query in progress
  can still deliver bytes (`SessionMachine.CloseReturnsTooEarly`). A closed session is silent
  exactly when no goroutine is writing while another is in that window
  (`SessionMachine.ClosedIsSilentExactly`).
- A failed `PostMessage` strands a notice in its channel (`UiChannels.NoticeStranded`, exactly
  then by `UiChannels.DrainedUnlessLost`) or leaves refreshing stuck (`UiChannels.RefreshStuck`,
  exactly then by `UiChannels.StuckOnlyWhenLost`).
- An ssh:// destination with a bad port clears a host that was already known
  (`ClientTarget.KnownHostForgotten`); nothing else does (`ClientTarget.DestinationKeeps`).

## Model

| member | source | states |
|---|---|---|
| `SessionMachine.Lifecycle` | openssh/agent.go:71-128 | In every run: at most one dial, each connection closed at most once, a session that has a connection is not closed and that connection is open; when the session is closed and no call runs, every connection dialled was closed exactly once, also one whose dial ended after Close |
| `SessionMachine.ClosedIsAbsorbing` | openssh/agent.go:81-122 | From a closed session no schedule reopens it or dials again |
| `SessionMachine.Pairing` | openssh/agent.go:105-110 | In every run the outcomes are answers, then only failures; the agent received exactly the answered requests in order and at most a prefix of one more; the k-th reply is the k-th frame of the agent's output |
| `SessionMachine.NeverReused` | openssh/agent.go:106-108 | After the first failed query no schedule delivers or consumes another byte on the connection |
| `SessionMachine.StateMuIsShort` | openssh/agent.go:80-103 | A goroutine that waits for stateMu, any Close among them, is one critical section away from it: the holder can leave in one step that waits for nothing and does no I/O |
| `SessionMachine.DeadlockFree` | openssh/agent.go:69-128 | Whenever a goroutine is inside a call, following queryMu and then stateMu leads to one that can step |
| `SessionMachine.OthersOnlyClose` | openssh/agent.go:71-128 | While a query holds queryMu, a step of another goroutine leaves both streams alone and changes the connection fields only by closing the session |
| `SessionMachine.ClosedIsSilentExactly` | openssh/agent.go:112-128 | For any number of goroutines: no schedule delivers a byte from a closed session exactly when no goroutine is in the write loop while another has marked the session closed and not yet closed the connection |
| `SessionMachine.CloseReturnsTooEarly` | openssh/agent.go:112-128 | For every valid request there is a run in which one of two Close calls has returned, the other has not closed the connection yet, and then the first byte of the request is delivered |
| `SessionMachine.LateDialIsClosed` | openssh/agent.go:86-101 | For every valid request there is a run in which a whole Close happens during the dial; the query then closes the connection once, fails, and sends nothing |
| `SessionMachine.AnyShortWrite` | openssh/agent.go:181-190 | A write may take any part of what is left of a request, and the loop goes on with the rest |
| `SessionMachine.CloseSilences` | openssh/agent.go:112-128 | The case of two goroutines: when the one that closed is back, the one that queries can deliver nothing |
| `SessionMachine.SilencedForever` | openssh/agent.go:181-190 | From a silenced state no schedule delivers a byte, and the state stays silenced |
| `SessionMachine.ClosedRefuses` | openssh/agent.go:81-84 | From a closed session with no exchange under way no schedule dials, sends, consumes or answers anything |
| `SessionMachine.SilencedStays` | openssh/agent.go:181-190 | That state is kept by every step of every goroutine, and none delivers a byte |
| `SessionMachine.ExecuteKeepsInv` | openssh/agent.go:71-128 | Locks, connection ownership and streams stay consistent over every schedule |
| `ShutdownMachine.Admission` | pageant/run_windows.go:395-414 | In every run at most 32 clients are registered, and a connection was accepted exactly if it is registered, closed, or in the acceptor's hand |
| `ShutdownMachine.TurnedAwayOnlyWhenFull` | pageant/run_windows.go:402-407 | In every run a connection is turned away only when the server is closing or exactly 32 clients are registered, and let in only when neither holds |
| `ShutdownMachine.AdmissionExact` | pageant/run_windows.go:402-408 | The decision on an accepted connection depends on just these two conditions and changes nothing else |
| `ShutdownMachine.RegistrationExact` | pageant/run_windows.go:427-435 | A worker registers its upstream session exactly when the server is not closing |
| `ShutdownMachine.AllAreLetIn` | pageant/run_windows.go:395-435 | For every n up to 32 some run with n connections registers n clients and n upstreams, closes none and is not closing |
| `ShutdownMachine.ServingRunsSession` | pageant/run_windows.go:438-465 | While a worker serves, its session can run through every schedule of queries by it and writes by the agent |
| `ShutdownMachine.PeerFreeMovesNothing` | pageant/run_windows.go:377-439 | The events by which shutdown completes accept, dial, send, receive and answer nothing |
| `ShutdownMachine.ClosingFreezesMaps` | pageant/run_windows.go:402-406 | Once closing is set no step of anyone registers a client or an upstream, or resets closing |
| `ShutdownMachine.NothingRegisteredAfterClosing` | pageant/run_windows.go:383-434 | Over every schedule from there closing stays set and both maps only lose members |
| `ShutdownMachine.NoDeliveryAfterShutdown` | pageant/run_windows.go:377-438 | Once closeConnections has returned, no schedule delivers another request byte to any agent |
| `ShutdownMachine.AllReleased` | pageant/run_windows.go:409-438 | When all workers have ended and the acceptor holds nothing, both maps are empty, every accepted connection is closed, and every upstream connection dialled was closed exactly once |
| `ShutdownMachine.ShutdownNeedsNoPeer` | pageant/run_windows.go:377-393 | From every state in which closeConnections has begun it can return by locks, critical sections and closes alone; no client, agent or exchange has to move |
| `ShutdownMachine.ShutdownCompletes` | pageant/run_windows.go:377-439 | From every state in which closeConnections has begun some schedule ends the acceptor and all workers with no accepted connection, query, dial, written byte or reply among its events; then both maps are empty and every connection of either side is closed, the upstream ones once |
| `ShutdownMachine.WorkersEnd` | pageant/run_windows.go:409-439 | Once closeConnections has returned and the acceptor has ended, every worker can end without a peer |
| `ShutdownMachine.MuIsReleasedLocally` | pageant/run_windows.go:381-413 | Whoever holds mu, such local steps release it |
| `ShutdownMachine.ExecuteKeepsInv` | pageant/run_windows.go:377-438 | Registry, lock, worker and session bookkeeping stay consistent over every schedule |
| `Simulation.QueryIsRun` | openssh/agent.go:71-110 | Every outcome that a query of the byte-level session can have is reached by a schedule of the machine, in a state that corresponds again and with that outcome on its log |
| `Simulation.CloseIsRun` | openssh/agent.go:113-128 | The same of a Close by the owner, which leaves the wire alone |
| `Simulation.HistoryIsRun` | openssh/agent.go:53-128 | Every sequence of calls on a new session is a run of the machine from its initial state, with the same history and outcomes |
| `Simulation.HistoryAgrees` | openssh/agent.go:53-128 | For every history the machine reaches a state with the same closed, dialled and connected, the same answers and bytes, and no call under way |
| `Transport.ReadFull` | openssh/agent.go:197-208 | For every chunking, empty reads included, the range is filled with the next bytes of the stream and nothing else is touched; it fails only where the script has a fault or the stream ends short |
| `Transport.WriteRequest` | openssh/agent.go:181-190 | For every pattern of short writes, success means that exactly the request was appended to what the peer got, and failure that at most a prefix was; it fails, a nonsensical count included, only where the script has a fault |
| `Transport.Exchange` | openssh/agent.go:174-213 | The reply is the next valid frame of the agent after the whole request was sent; every other outcome is the failure frame with an error, and then the script has a fault on the way or the agent's output has no valid frame next |
| `Agent.Session.constructor` | openssh/agent.go:64-67 | A new session has dialled nothing and exchanged nothing |
| `Agent.Session.Connection` | openssh/agent.go:80-104 | The session's one connection, dialled on first use; a closed session gives none and does not dial; an open one gives none only if the agent refuses the dial or another goroutine may close the session |
| `Agent.Session.Query` | openssh/agent.go:71-110 | An answer extends requests and replies by exactly this pair; otherwise the failure frame, and a valid request that got it has ended answers for good. A closed session or an invalid request is refused with no I/O and no dial, and a request that the environment favours is answered |
| `Agent.GenuineIsAnswered` | openssh/agent.go:71-110 | An undisturbed session on a calm connection whose agent goes on with the framing of p, of 1 to 262144 bytes and no long failure, answers every framing of 1 to 16379 bytes with exactly the framing of p |
| `Agent.Session.Close` | openssh/agent.go:113-128 | The session ends closed and without connection, and the one it had is closed |
| `Bridge.Normalized` | pageant/run_windows.go:330-342 | What goes to a client is always a valid response: the handler's own result exactly when the request is valid, the handler succeeded and its result is valid, and the failure frame otherwise |
| `Bridge.ReadRequest` | pageant/run_windows.go:443-464 | In reads of any size, what is handed on is exactly the next valid request frame of the client's stream; when there is one and it is not handed on, the script has a fault up to its end |
| `Bridge.WriteReply` | pageant/run_windows.go:469-475 | For every pattern of short writes the client gets a prefix of the reply, and all of it unless the script has a fault there |
| `Bridge.ServeOne` | pageant/run_windows.go:440-476 | One turn consumes one request and appends one answer, in order; the loop goes on unless the environment blocks the next frame |
| `Bridge.PipeListen` | pageant/run_windows.go:416-477 | Transparent and complete for every chunking, short write and script of failures and closes; session and client end closed; a worker that finds closing set serves and dials nothing |
| `Bridge.ServedIsTransparent` | pageant/run_windows.go:440-476 | The requests served head the frames of the client's stream; the agent got a prefix of them; the client got a prefix of the answers, the k-th being the agent's k-th frame until the first failure and the 5-byte failure frame from then on |
| `Bridge.ServedIsComplete` | pageant/run_windows.go:440-476 | The first n frames of the client's stream are served and answered in full unless its script has a fault up to the end of frame n; and request k is answered by the agent whenever the pipe is local, the dial accepted, no Close from outside due before k answers, no fault scripted up to the end of request k and of its reply, and a valid k-th frame in the agent's output |
| `Bridge.CalmBridge` | pageant/run_windows.go:416-477 | With no fault on either side, requests of 1 to 16379 bytes and replies of 1 to 262144 bytes that are no long failures: all are served, the agent gets exactly the client's bytes, the client exactly the agent's |
| `Bridge.FirstFramesServed` | pageant/run_windows.go:440-476 | With faults on the client's connection, the frames before the first of them are served and answered |
| `Bridge.FirstRequestsAnswered` | pageant/run_windows.go:440-476 | With faults on the agent's connection, the requests before the first of them get the agent's first frames |
| `Bridge.QueryAgent` | openssh/agent.go:41-48 | No session exactly for the framing of type 27, the 24 bytes of the session-bind name as a string, and data that fits; any other request has its own session, closed on return; success means the agent got exactly the request and its first frame is the reply, and a valid request that the environment favours succeeds |
| `Bridge.SessionBindExact` | openssh/agent.go:130-137 | The check finds exactly those frames |
| `Bridge.HandleCopyData` | pageant/run_windows.go:298-320 | 1 exactly when the mapping was ready, of 5 bytes or more, and began with a length n from 1 to 16379 that fits; then the n + 4 bytes copied reach the handler exactly if their own length is n, and the bridge writes the handler's result if it succeeded, is a valid reply and fits into the mapping and 16383 bytes, and the 5-byte failure otherwise, each step changing its one byte and no other; 0 means it wrote nothing |
| `Bridge.AnswerStands` | pageant/run_windows.go:318 | If the client leaves alone what has been written, the mapping then begins with the whole answer and is the client's behind it |
| `Bridge.MappedAnswer` | pageant/run_windows.go:314-317 | The answer is a valid response that fits the capped view: the handler's result exactly when the handler succeeded and its result is valid and fits, the failure frame otherwise |
| `Bridge.MappedAnswerExact` | pageant/run_windows.go:314-317 | The same in numbers, for a view of any size of which at most 16383 bytes are used |
| `Bridge.RewrittenHeaderIsCaught` | pageant/run_windows.go:309-314 | The copied request is valid exactly when its header is still the one the length was read from |
| `Frames.ValidFrameExact` | openssh/agent.go:161-172 | A frame is valid exactly when it is the framing of its own non-empty payload within the bound |
| `Frames.RequestExact` | openssh/agent.go:145-172 | A request is valid exactly when it has 5 to 16383 bytes and begins with the length of the rest |
| `Frames.ResponseExact` | openssh/agent.go:150-172 | A reply is valid exactly when it has 5 to 262148 bytes and begins with the length of the rest, and a failure, type 5, has no more than its type |
| `Frames.FramedExact` | openssh/agent.go:145-172 | The same of framed payloads: 1 to 16379 bytes, and 1 to 262144 bytes that are no long failure |
| `Bytes.WordExact` | openssh/keys.go:157 | Words have their most significant byte first in both directions |
| `Frames.TruncatedFrameInvalid` | openssh/agent.go:161-172 | No proper truncation of a valid frame is valid |
| `Frames.SplitOfConcat` | pageant/run_windows.go:456-464 | Splitting a concatenation of valid frames returns them, whatever follows |
| `Frames.SplitIsPrefix` | pageant/run_windows.go:456-464 | The frames found make up the head of the stream, and they stop only where no valid frame starts |
| `SshStrings.TakeStringExact` | openssh/keys.go:153-164 | A string and a rest are taken off data exactly when data is the encoding followed by that rest |
| `SshStrings.EncodeStringPrefixFree` | openssh/keys.go:153-164 | String encodings are prefix-free: equal concatenations have equal heads and tails |
| `SshStrings.AsciiExact` | openssh/keys.go:124-128 | The bytes of a literal are its character codes |
| `SshStrings.Cursor.Take` | openssh/keys.go:153-164 | The cursor moves past exactly one string, and stays where it is when there is none |
| `Keys.KeyTypeExact` | openssh/keys.go:166-177 | A type is found exactly in blobs that begin with a name of 1 to 128 graphic ASCII bytes and go on |
| `Keys.PublicKeyType` | openssh/keys.go:166-177 | The loop computes that type and fails on every other blob |
| `Keys.KeyListExact` | openssh/keys.go:39-76 | A reply decodes to a list of entries exactly when it is the framed encoding of that list, in bounds |
| `Keys.DecodeEntriesExact` | openssh/keys.go:59-75 | Data decodes to n entries exactly when it is their concatenated encoding with nothing left over |
| `Keys.EntriesPrefixFree` | openssh/keys.go:59-75 | Encodings of equally long lists of entries are prefix-free |
| `Keys.TruncatedKeyListRejected` | openssh/keys.go:50-75 | No proper prefix of a key-list payload is accepted, also when it is framed again |
| `Keys.ParseKeys` | openssh/keys.go:39-76 | Succeeds exactly on framed encodings of lists, the early count check included, with one key per entry in order: its type, the digest of its blob, its comment bounded for display |
| `Keys.RecogniseExact` | openssh/keys.go:110-151 | Data is recognised as these userauth fields for this key exactly when it is their encoding, plain or host-bound, so the decomposition is unique |
| `Keys.RecognisedIsEncoded` | openssh/keys.go:110-151 | Whatever is recognised has non-empty fields, embeds the signing key and is their whole encoding |
| `Keys.UserauthUsername` | openssh/keys.go:110-151 | The name is non-empty exactly for recognised data, and then it is the display form of the encoded user |
| `Keys.SigningExact` | openssh/keys.go:90-108 | A sign request decodes to its parts exactly when it is their framed encoding within the request bound |
| `Keys.TruncatedSigningRejected` | openssh/keys.go:90-108 | Every proper truncation of an accepted sign request is rejected |
| `Keys.ReframedSigningRejected` | openssh/keys.go:90-108 | No proper prefix of a sign-request payload is accepted, also when it is framed again at its shorter length |
| `Keys.ParseSignRequest` | openssh/keys.go:90-108 | Succeeds exactly on such frames, with the type and digest of the key and a user name exactly for userauth data that signs with that key |
| `WireForms.BlobHasType` | openssh/keys.go:166-177 | Every blob of 1 to 128 graphic ASCII bytes as a string and something behind has that type |
| `WireForms.TypedIsBlob` | openssh/keys.go:166-177 | Nothing else has a type |
| `WireForms.IdentitiesAnswer` | openssh/keys.go:39-76 | A reply decodes to given entries exactly when it is the framing of 12, their number, and blob and comment of each as strings, within 262144 bytes |
| `WireForms.UserauthData` | openssh/keys.go:110-151 | Data is recognised as given fields exactly when it is session, 50, user, the spelled-out service and method, 1, algorithm, key, and the host key of the host-bound form |
| `WireForms.SignRequestBytes` | openssh/keys.go:90-108 | A frame decodes to blob, data and flags exactly when it is the framing of 13, the two strings and four bytes, within 16379 bytes |
| `WireForms.LoginIsNamed` | openssh/keys.go:90-151 | A sign request over genuine userauth data for its own key decodes to them, and the user is found |
| `WireForms.UserIsShown` | openssh/keys.go:150 | The name shown is the display form of the user, of at most 256 runes and an ellipsis |
| `WireForms.KeyIsShown` | openssh/keys.go:72 | A key shows its type, the digest of its blob, and its comment in display form, of at most 1024 runes and an ellipsis |
| `Text.DisplayText` | openssh/keys.go:184-199 | Rune for rune up to the limit with control, format and separator characters blanked, and one ellipsis exactly when there was more |
| `Text.DisplayedExact` | openssh/keys.go:184-199 | The display form in numbers: U+0000..U+001F, U+007F..U+009F, U+2028, U+2029 and the format characters become U+0020, all else stays, and U+2026 stands behind the limit when there was more |
| `Text.VisibleIsUnchanged` | openssh/keys.go:184-199 | A text of at most `limit` visible runes is displayed unchanged |
| `Text.CleanUIText` | pageant/desktop_windows.go:158-170 | The first 2048 runes with control and format characters blanked |
| `Text.CleanedExact` | pageant/desktop_windows.go:158-170 | The same of the UI's cleaning, with the limit 2048 |
| `Text.CleaningIsIdempotent` | pageant/desktop_windows.go:158-170 | Cleaning cleaned text changes nothing |
| `Text.DisplayedIsClean` | openssh/keys.go:184-199 | Cleaning changes nothing in text bounded for display, for every limit below 2048 |
| `Text.DecodeOfEncodedRunes` | pageant/desktop_windows.go:169-177 | Text written as UTF-8 reads back as the same runes |
| `Text.EncodeRuneExact` | pageant/desktop_windows.go:169 | UTF-8: the number of bytes by the size of the rune, their marks, and the rune as the number their low bits make |
| `Text.DecodeRuneExact` | openssh/keys.go:186 | A rune is read exactly where its form stands; where none does, one byte gives U+FFFD |
| `Text.TextReadsOn` | openssh/keys.go:186 | And reading a text goes on behind that form, or at the next byte |
| `Text.Utf16Exact` | pageant/desktop_windows.go:177 | UTF-16: one unit below U+10000, a high and a low surrogate above |
| `Text.FittingIsLongest` | pageant/desktop_windows.go:178-184 | A prefix of the runes fits in the limit exactly up to the length used |
| `Text.CutIsFitting` | pageant/desktop_windows.go:177-184 | Cutting the units at the limit, one earlier when that would split a surrogate pair, leaves exactly the longest rune prefix that fits |
| `Text.CopyUIText` | pageant/desktop_windows.go:172-186 | The buffer holds the UTF-16 form of that prefix of the cleaned text, then zeros to the end, at least one |
| `Text.CopiedTextReadsBack` | pageant/desktop_windows.go:172-186 | For every table of format characters, what is copied decodes to that prefix, so no surrogate is unpaired, and holds no NUL |
| `ClientTarget.ParseDestination` | pageant/client_windows.go:263-301 | A known user or port is kept; a known host is kept exactly when the value is not an accepted ssh:// URL with a bad port |
| `ClientTarget.DestinationKeeps` | pageant/client_windows.go:263-301 | The same of the destination function, and a URL with a bad port leaves no host |
| `ClientTarget.KnownHostForgotten` | pageant/client_windows.go:280-285 | A known host is lost to ssh://h:0 |
| `ClientTarget.LoginIsRead` | pageant/client_windows.go:292-300 | user@host is read back as exactly that user and host, wherever in the user other '@' stand |
| `ClientTarget.ParseClientTarget` | pageant/client_windows.go:173-261 | For every argument list: nothing for other applications, else the target of the specified scan, to which the lemmas below apply |
| `ClientTarget.ScanArguments` | pageant/client_windows.go:178-261 | The scan with its index computes the recursive scan of the remaining arguments |
| `ClientTarget.ScanIgnoresOthers` | pageant/client_windows.go:178-261 | Argument lists that differ only in uninterpreted option values, or behind the end of the scan, give the same target |
| `ClientTarget.SameTarget` | pageant/client_windows.go:173-261 | The same for whole command lines of every application |
| `ClientTarget.SecretsDoNotShow` | pageant/client_windows.go:219-232 | Behind any complete options, the value of an uninterpreted option, as of -pw or -proxycmd, has no effect on the target |
| `ClientTarget.RemoteCommandDoesNotShow` | pageant/client_windows.go:191-204 | For ssh and plink nothing behind the destination has an effect on the target |
| `ClientTarget.DestinationReported` | pageant/client_windows.go:178-204 | For ssh and plink, options, a destination and anything behind it report the options applied in order and then the destination, or nothing when an option's value spoils it |
| `ClientTarget.PuttyReported` | pageant/client_windows.go:178-261 | For putty the options behind the destination are applied as well |
| `ClientTarget.OptionsReport` | pageant/client_windows.go:224-261 | Options alone report what they say |
| `ClientTarget.UnknownOptionSpoils` | pageant/client_windows.go:220-222 | Behind any options an option that the application is not known to have makes the scan report nothing |
| `ClientTarget.ParsedIsSafe` | pageant/client_windows.go:303-323 | For all arguments a reported user or host has passed its filter and a port is in range |
| `ClientForms.WordInListing` | pageant/client_windows.go:213-222 | The substring search in a list of words between spaces finds a word exactly when it is one of them |
| `ClientForms.SshOptionExact` | pageant/client_windows.go:206-222 | For ssh every argument without spaces is a flag, an option with a value, or unknown, as the spelled-out tables say |
| `ClientForms.PuttyOptionExact` | pageant/client_windows.go:212-222 | The same for PuTTY and Plink |
| `ClientForms.AttachedExact` | pageant/client_windows.go:207-209 | For ssh -l and -p take whatever is attached |
| `ClientForms.TwoNamesMatch` | pageant/client_windows.go:213 | An argument with a space inside matches two neighbouring names |
| `ClientForms.PortIsRead` | pageant/client_windows.go:235 | The decimal writing of 1 to 65535, zeros in front or not, is that port |
| `ClientForms.PortIsWritten` | pageant/client_windows.go:235 | Nothing else is a port |
| `ClientForms.HostExact` | pageant/client_windows.go:315-323 | The filter of hosts, character by character |
| `ClientForms.LoginIsTaken` | pageant/client_windows.go:292-300 | user@host with any brackets around the host gives that user, if he passes the filter, and that host |
| `ClientForms.HostIsRead` | pageant/client_windows.go:298-300 | A host with any brackets around it is read as that host |
| `ClientForms.UrlIsRead` | pageant/client_windows.go:264-290 | An ssh:// URL with nothing but a login gives its user, host and port |
| `ClientForms.UrlIsRefused` | pageant/client_windows.go:266-272 | One with a password, a path, a query or a fragment gives nothing |
| `ClientForms.SshLogin` | pageant/client_windows.go:232-233 | Behind any flags, `-l user host`, separate or attached, reports exactly that user and host, whatever follows |
| `ClientForms.SshPort` | pageant/client_windows.go:234-239 | `-p port host` reports exactly that port and host |
| `ClientForms.SshOptionForms` | pageant/client_windows.go:242-257 | `-o` with User, HostName or Port reports exactly that field, and a bad port nothing |
| `ClientForms.PuttyLogin` | pageant/client_windows.go:232-239 | For PuTTY and Plink `-l user -P port host` reports exactly these three |
| `ClientForms.SessionReported` | pageant/client_windows.go:240-241 | `-load session` reports exactly the session |
| `ClientForms.BadPortReportsNothing` | pageant/client_windows.go:235-238 | A port that is not the writing of 1 to 65535 spoils the command line |
| `ClientForms.DashesThenDestination` | pageant/client_windows.go:183-188 | Behind `--` the next argument is the destination and the rest is not looked at |
| `ClientForms.TwoDestinationsReportNothing` | pageant/client_windows.go:191-193 | A second destination spoils the command line of PuTTY |
| `ClientForms.MissingValueReportsNothing` | pageant/client_windows.go:225-229 | So does an option without its value |
| `TcpTable.CountCheckIsExact` | pageant/client_windows.go:484-487 | For both families and every count the check by division holds exactly when all declared rows lie in the buffer |
| `TcpTable.ParseTCPTable` | pageant/client_windows.go:474-510 | Accepts exactly the tables whose declared rows fit, and returns their projection in row order |
| `TcpTable.ProjectionExact` | pageant/client_windows.go:491-508 | A target is returned exactly when some row is an established connection of this process to it with a non-zero port |
| `TableForms.TableReadsBack` | pageant/client_windows.go:474-510 | Every table written out field by field is accepted, and exactly its connections in state 5 of this process to a port other than 0 come out, in order, with address, scope and port |
| `TableForms.AcceptedExactly` | pageant/client_windows.go:474-487 | A table is accepted exactly when as many rows of 24 or 56 bytes as its first word says lie behind it |
| `TcpTable.UniqueTCPTarget` | pageant/client_windows.go:430-448 | A target is found exactly when both families were read and all their endpoints have one address string |
| `TcpTable.OneAddressIsOneEndpoint` | pageant/client_windows.go:438-443 | When address strings tell endpoints apart, one address string means exactly one distinct endpoint |
| `UiChannels.NoticesAreCounted` | pageant/desktop_windows.go:245-293 | In every run a queued notice is about to be posted, has its message pending, or lost its message; at most 16 are queued, and delivery is first in, first out |
| `UiChannels.NoticesAreTaken` | pageant/desktop_windows.go:245-293 | In every run an open desktop lets a producer on, its notice is accepted whenever fewer than 16 are queued and dropped only at 16, and a message takes the oldest |
| `UiChannels.RoundsDeliver` | pageant/desktop_windows.go:245-293 | Any number of notices, one after the other, are all delivered in order |
| `UiChannels.DrainedUnlessLost` | pageant/desktop_windows.go:249-256 | With producers and messages drained, every accepted notice was delivered exactly when no post was lost |
| `UiChannels.NoticeStranded` | pageant/desktop_windows.go:250-252 | A run whose one post is lost leaves its notice queued with nothing left to deliver it |
| `UiChannels.MessagesFindNotices` | pageant/desktop_windows.go:280-292 | A notice message never finds the channel empty |
| `UiChannels.OneRefreshAtATime` | pageant/desktop_windows.go:513-533 | loadingKeys holds exactly while one refresh is under way or was abandoned at close; the one-slot channel is never full at a send |
| `UiChannels.StuckOnlyWhenLost` | pageant/desktop_windows.go:294-303 | Before close and with nothing under way, refreshing is stuck exactly when its post was lost |
| `UiChannels.RefreshStuck` | pageant/desktop_windows.go:514-531 | A run whose one post is lost leaves loadingKeys set with nothing under way, and asking again does nothing |
| `UiChannels.RefreshComesBack` | pageant/desktop_windows.go:513-533 | From every state at rest before close a refresh whose post succeeds ends where it began |

## Left out

- Windows, tray icon, menus, fonts and layout; process, token, registry and command-line queries; pipe names and access lists; console, build and packaging: calls into the operating system.
- Bridge.HandleCopyData: the checks on the mapping's name, owner and view are one input `ready`. The length and the request are each read from one contents of the mapping; rewriting in the middle of a read is covered by this, since bytes read one by one are the bytes of some contents.
- Bridge.PipeListen: writes on the client assume io.Writer's contract that a count lies within what was given (the source would panic otherwise); waits have no duration, so a deadline is a call that may fail.
- Transport.ReadFull: reads that report neither a byte nor an error may come any number of times, but not without end.
- SessionMachine.Pairing: reading a reply is one step of the machine; its fragments are modelled in `Transport`.
- ShutdownMachine.NoDeliveryAfterShutdown: custom request handlers and one-shot sessions are not registered as upstreams and stay outside; closing the listener does not make Accept fail in the model, so it covers more runs than the program has. A client's own requests are arbitrary bytes here; how they are read is in `Bridge`.
- Agent.Session.Query: the check on the pipe name is a boolean of the environment.
- Keys.ParseKeys: the SHA-256 fingerprint is represented by a constructor over the blob; error texts are one failure.
- Text.DisplayText: the Unicode category Cf is a parameter, assumed to hold neither the space nor the ellipsis where that matters; categories Cc, Zl and Zp are written out.
- ClientTarget.ParseDestination: url.Parse, net.ParseIP, case folding, splitting of -o values and the character filter of safeTargetField are parameters; strings are sequences of characters.
- ClientTarget.ScanArguments: the option lists keep the substring test, so an argument with spaces inside can match several names; one option's effect is a function on values.
- TcpTable.UniqueTCPTarget: the text of addresses and of host and port together are parameters; the call that fetches the table and its retries are not modelled.
- UiChannels.NoticesAreCounted: other senders of the two messages are not modelled; a failed post is a lost message.
- signingNotice, resolvePuttySession, capiObfuscateString, options and constructors would only add easy members.
