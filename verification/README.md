# A verified model of TinyWebServer

TinyWebServer is a small HTTP server: one main thread runs an edge-triggered epoll loop and does all
reads and writes, a pool of workers parses requests and builds responses, a sorted timer list closes
idle connections, and a pool of MySQL connections answers logins. Beside it stand two programs it
grew out of, a bounded producer/consumer queue and a `poll` server. This project models the logic of
these parts in Dafny and proves what they promise.

| file | what it is about |
|---|---|
| `Text.dfy` | `std::string::find`, token extraction, `std::stoi`, `std::to_string` |
| `Request.dfy` | the incremental parser and what cutting up its input does to it |
| `LoginForm.dfy` | printing a request and parsing it back; the login form |
| `Response.dfy` | the responses, and a client that reads them back from one byte stream |
| `Outgoing.dfy` | the iovec, `writev` and `write()` |
| `HttpConn.dfy` | the class `HttpConn`: its fields and methods |
| `Timer.dfy` | the timer list, the full-scan prototype, runs with a clock |
| `Reactor.dfy` | the server as a transition system: main thread, epoll, task queue, workers |
| `Ownership.dfy` | EPOLLONESHOT as an ownership token |
| `Sharing.dfy` | when two threads take the same descriptor |
| `WireStream.dfy` | whole runs: bytes on the wire, mappings, ownership, timer |
| `Answers.dfy` | whole runs: what clients asked and what they get back |
| `Lifetime.dfy` | what closes a connection; the order of events |
| `Deadline.dfy` | runs with a clock: tasks, ticks and the idle limit |
| `StaleEvent.dfy` | a run in which a stale event breaks ownership |
| `OneClient.dfy` | runs in which a bad length and a hard error break it |
| `WebServer.dfy` | the main thread's handlers and the worker's task, on connection objects, as methods that take the steps of the transition system |
| `SafeQueue.dfy` | the bounded queue with two condition variables |
| `ThreadPool.dfy` | `submit`, the worker loop and the destructor |
| `MySQLPool.dfy` | `get_conn`, `return_conn` and the scope guard |
| `PollTable.dfy` | the `pollfd` array that is compacted while it is walked |

Classes carry the fields of the original and their methods are proved against functions on values;
what those functions promise is proved as lemmas. Threads are modelled as interleaved atomic steps,
one per region that holds a mutex, with sleeping threads, woken threads and owed notifications
written out. The kernel, the clock, the file system and `check_login` are parameters: every theorem
holds for all their answers. `Safe` in `Ownership.dfy` is the one standing assumption of the
theorems about safe runs: a tick closes only descriptors that are armed in epoll, no task meets a
`Content-Length` that `stoi` rejects, and `writev` fails only with EAGAIN. For the first two, lemmas
show that ownership is kept if and only if they hold. `Deadline.dfy` discharges the first for tasks:
if each of them ends less than 15 seconds after the read that submitted it, what is left to ask of a
tick concerns only events that are fetched and not yet dispatched.

## What the proofs found

- **A CRLF in a request body.** `get_line` also runs in the CONTENT state
  (`WebServer_Proj/HttpConn/HttpConn.cpp:230`), so a CRLF behind the header block is skipped together with what
  precedes it. A body of exactly the announced length is delivered if and only if it holds no CRLF (`BodyInPieces`);
  with one, the server waits for bytes that never come. `FragmentationIndependence` gives the exact
  streams on which the chunks TCP delivers do not matter, `TwoAnswers` a family of streams and `TwoBodies`
  one stream where they do.
- **NUL bytes.** `read()` appends each `recv` as a C string, so bytes behind a NUL are lost, how many
  depends on the chunks. `ReadIndependence` gives the exact condition.
- **A Content-Length that `std::stoi` rejects** throws out of `process()`; the descriptor is then
  armed nowhere and queued nowhere (`FinishOwnsExactly`, `BadLengthOrphans`). `ThrowsExactly` says for which
  texts this happens, however they are cut. Only the timer can still reach the descriptor, and does
  (`TickCollects`).
- **Header names** are searched for anywhere in the line and with their exact case, where section 5.1
  of RFC 9110 makes them case-insensitive and puts them in front of the colon. The model follows the
  code: what `ParseHeaderLine` calls another header line is one that does not hold the exact name.
- **A stale event closes a fresh connection.** `Docs/Learning_Notes.md:518` says EPOLLONESHOT keeps
  two threads from taking the same descriptor. The code does not guarantee it: a tick can close a
  descriptor whose event is still in the current batch, `accept` can hand out the same descriptor
  in that batch, and the old event is then dispatched to the new connection
  (`StaleEventClosesFreshConnection`). Over every run no descriptor ever has two owners if and only if
  `accept` never hands out one that still has an event in the batch or a task (`NeverTwoExactly`). The
  model follows the code. Timer, open connections and user count agree even then (`TimerAgreesAlways`).
- **A hard `writev` error** releases the mapping, keeps the iovec and arms the descriptor for output
  again. The iovec then points into memory that is gone if and only if the response was a file with
  content (`HardErrorDangles`, `RequestedFileDangles`).
- **Capacity 0** is the only capacity at which `SafeQueue` can deadlock (`DeadlockExactly`); a
  **pool without workers** is the only one whose destructor may never return (`DestructorReturnsExactly`).
- **A stale `revents`.** The poll server does not clear `revents` of a slot it reuses: an accepted
  client finds there the flag of the entry that was last in its slot (`PollServer.Append`). So a client can
  be taken for readable in the pass that accepted it (`StaleRun`).

## Model

| member | source | states |
|---|---|---|
| Text.FindMeaning | WebServer_Proj/HttpConn/HttpConn.cpp:217-220 | the search for a pattern finds a match with no earlier match at or after the start, and fails only if there is none |
| Text.FindAppend | WebServer_Proj/HttpConn/HttpConn.cpp:217-222 | bytes that arrive later never move a line end that was already found |
| Text.FindAppendNew | WebServer_Proj/HttpConn/HttpConn.cpp:217-222 | a line end that appears only after more bytes arrived reaches into the new bytes |
| Text.ExtractToken | WebServer_Proj/HttpConn/HttpConn.cpp:235-236 | stream extraction skips white space and yields exactly the token that was printed there, and stops behind it |
| Text.DecimalRoundTrip | WebServer_Proj/HttpConn/HttpConn.cpp:369 | a length printed by `to_string` reads back as the same number |
| Text.StoiOfDecimal | WebServer_Proj/HttpConn/HttpConn.cpp:262 | `stoi` understands a printed length if and only if it fits an `int`; otherwise it throws |
| Text.StoiText | WebServer_Proj/HttpConn/HttpConn.cpp:262 | `stoi` of any text made of white space, an optional sign, zeros, a printed number and a rest that does not begin with a digit: the number with its sign, or an exception outside `int` |
| Text.StoiNoNumber | WebServer_Proj/HttpConn/HttpConn.cpp:262 | behind white space and an optional sign, a text that does not begin with a digit makes `stoi` throw |
| Request.HeadFacts | WebServer_Proj/HttpConn/HttpConn.cpp:230-266 | reading lines never touches the buffer or moves back; it stops for want of a line only when none is left; it reaches the body only behind the first line and with a non-zero length |
| Request.HeadAppend | WebServer_Proj/HttpConn/HttpConn.cpp:227-281 | a verdict or a complete header block is not affected by later bytes, and an incomplete one is resumed as if they had been there from the start |
| Request.HeadCut | WebServer_Proj/HttpConn/HttpConn.cpp:227-281 | the header block is complete as soon as its last byte has arrived, and not earlier |
| Request.FeedAgrees | WebServer_Proj/HttpConn/HttpConn.cpp:216-281 | on a stable stream, repeated calls over any chunks, from any state between lines, report what one call on everything reports |
| Request.FeedSettled | WebServer_Proj/HttpConn/HttpConn.cpp:268-274 | when the body reads the same wherever a call may take it, the calls that receive it chunk by chunk report that reading |
| Request.UnstableCuts | WebServer_Proj/HttpConn/HttpConn.cpp:216-281 | for every unstable stream there are chunks on which the parser ends with another verdict or other fields than on the whole |
| Request.FragmentationIndependence | WebServer_Proj/HttpConn/HttpConn.cpp:108-112 | all ways of cutting a stream give the verdict, method, url, version, keep-alive flag and body of a single call if and only if the stream is stable: the body reads the same behind the header block, where a call may take it, and behind every line end after it |
| Request.NoCrlfAfterHeaderIsStable | WebServer_Proj/HttpConn/HttpConn.cpp:230-273 | a stream without a CRLF behind its header block is stable |
| Request.ExactBody | WebServer_Proj/HttpConn/HttpConn.cpp:268-274 | in one call that has all of it, a body of the announced length is delivered unchanged if and only if it holds no CRLF, and otherwise the call asks for more |
| Request.BodyInPieces | WebServer_Proj/HttpConn/HttpConn.cpp:268-274 | however a body of the announced length is cut, it is delivered unchanged if and only if it holds no CRLF, and otherwise never |
| Request.ParseThrows | WebServer_Proj/HttpConn/HttpConn.cpp:244-264 | in any state, a call throws if and only if, of the header lines still to be read, the first that is blank or has a length `stoi` rejects is of the second kind, behind a request line with method and url if that is still to come |
| Request.ThrowsExactly | WebServer_Proj/HttpConn/HttpConn.cpp:227-264 | from a fresh connection, however the text is cut, some call throws if and only if the text has such a line |
| Request.CString | WebServer_Proj/HttpConn/HttpConn.cpp:110-111 | what is appended is the longest prefix of a `recv` without NUL |
| Request.ReadIndependence | WebServer_Proj/HttpConn/HttpConn.cpp:102-129 | the buffer does not depend on how `recv` cut the bytes if and only if no other byte follows a NUL |
| LoginForm.SeparatorPosition | WebServer_Proj/HttpConn/HttpConn.cpp:286-287 | the first match of a separator without self-overlap is the printed one or lies inside the text before it |
| LoginForm.FormRoundTrip | WebServer_Proj/HttpConn/HttpConn.cpp:285-295 | the form yields user and password as they were written if and only if the user name does not hold `&password=` |
| LoginForm.FormAnywhere | WebServer_Proj/HttpConn/HttpConn.cpp:285-295 | the form may stand anywhere in the body: user and password are what stands behind the first places where the two names are found |
| LoginForm.SwappedForm | WebServer_Proj/HttpConn/HttpConn.cpp:289-294 | a form that begins with the password gives as user everything behind `user=`, because the length given to `substr` wraps around |
| LoginForm.NoForm | WebServer_Proj/HttpConn/HttpConn.cpp:285-290 | a body holds no login exactly if one of the two names does not occur in it |
| LoginForm.ParseRequestLine | WebServer_Proj/HttpConn/HttpConn.cpp:234-241 | a request line printed with single blanks is read back token by token |
| LoginForm.ParseLooseLine | WebServer_Proj/HttpConn/HttpConn.cpp:234-241 | so it is with any white space before, between and behind the three tokens, and anything behind that |
| LoginForm.ParseTwoTokens | WebServer_Proj/HttpConn/HttpConn.cpp:234-241 | a line of two tokens is accepted, and the version stays what it was |
| LoginForm.ParseShortLine | WebServer_Proj/HttpConn/HttpConn.cpp:237-240 | a line with at most one token is answered with 400 |
| LoginForm.ParseHeaderLine | WebServer_Proj/HttpConn/HttpConn.cpp:255-264 | a header line other than a length changes nothing but the keep-alive flag, which it sets if it holds both words |
| LoginForm.ParseOtherLine | WebServer_Proj/HttpConn/HttpConn.cpp:255-264 | a header line that holds no length and not both words leaves every field alone |
| LoginForm.ParseCloseLine | WebServer_Proj/HttpConn/HttpConn.cpp:255-259 | `Connection: close` leaves the flag as it was |
| LoginForm.ParseFormType | WebServer_Proj/HttpConn/HttpConn.cpp:255-264 | the media type a browser sends with a form leaves every field alone |
| LoginForm.ParseKeepAliveLine | WebServer_Proj/HttpConn/HttpConn.cpp:255-259 | the keep-alive header sets the flag and nothing else |
| LoginForm.ParseLengthLine | WebServer_Proj/HttpConn/HttpConn.cpp:261-263 | the length header sets the length if it fits an `int` and throws otherwise |
| LoginForm.ParseLengthText | WebServer_Proj/HttpConn/HttpConn.cpp:261-263 | any text as length: what `stoi` makes of it, a negative number wrapping around in 64 bits, or the exception |
| LoginForm.ParsePrinted | WebServer_Proj/HttpConn/HttpConn.cpp:227-281 | a printed request with a body, and any other header lines before and behind its length, is delivered whole, field for field, or not at all, and the former if and only if the length fits and the body holds no CRLF; it is kept alive if and only if one of the lines asks for it |
| LoginForm.BareRoundTrip | WebServer_Proj/HttpConn/HttpConn.cpp:227-250 | a printed request without a length, with any header lines, is complete at its blank line, whatever bytes follow, and comes back as printed |
| LoginForm.LoginRoundTrip | WebServer_Proj/HttpConn/HttpConn.cpp:227-295 | a printed login request with any other header lines comes back with method, url, version, keep-alive flag, user and password if and only if the form fits an `int` length, neither part holds CRLF and the user name does not hold the separator |
| LoginForm.LoginAnyChunks | WebServer_Proj/HttpConn/HttpConn.cpp:227-295 | the same, both directions, for every way of cutting the request |
| LoginForm.BodyAnyChunks | WebServer_Proj/HttpConn/HttpConn.cpp:227-281 | a printed request with any body that fits an `int` length and holds no CRLF comes back as printed for every way of cutting it |
| LoginForm.BareAnyChunks | WebServer_Proj/HttpConn/HttpConn.cpp:227-250 | a printed request without a length, with any header lines, comes back as printed for every way of cutting it and what follows it |
| LoginForm.ShortAnyChunks | WebServer_Proj/HttpConn/HttpConn.cpp:234-241 | a first line with at most one token is answered with 400 for every way of cutting it and what follows it |
| LoginForm.WordThrows | WebServer_Proj/HttpConn/HttpConn.cpp:261-263 | every printed request, with any header lines before it, whose length is a text without CRLF that `stoi` rejects makes the call that sees it throw |
| LoginForm.StoiOfWord | WebServer_Proj/HttpConn/HttpConn.cpp:262 | `stoi` rejects a length that starts with neither white space nor a digit nor a sign |
| LoginForm.WordThrowsAnyChunks | WebServer_Proj/HttpConn/HttpConn.cpp:227-264 | such a request makes the parser throw however it is cut |
| LoginForm.TwoAnswers | WebServer_Proj/HttpConn/HttpConn.cpp:230-273 | a printed request with a body, followed by CRLF and as many other bytes, delivers those bytes when it arrives at once and the body when it is cut behind it; so the stream is not stable |
| LoginForm.TwoBodies | WebServer_Proj/HttpConn/HttpConn.cpp:230-273 | one concrete such stream, from a fresh connection |
| Response.LengthOfHead | WebServer_Proj/HttpConn/HttpConn.cpp:368-369 | in every kind of response the length a client finds is the length of the body |
| Response.StatusOfHead | WebServer_Proj/HttpConn/HttpConn.cpp:352 | in every kind of response the status line a client finds is `200 OK`, or the code and reason of the error |
| Response.TypeOfHead | WebServer_Proj/HttpConn/HttpConn.cpp:354-360 | in every kind of response the media type a client finds is HTML, except for an image, which is JPEG |
| Response.ConnectionOfHead | WebServer_Proj/HttpConn/HttpConn.cpp:362-366 | in every kind of response the announced connection type is what the server will do |
| Response.ReadHeadOfLines | WebServer_Proj/HttpConn/HttpConn.cpp:388-396 | the first empty line ends the header block, so the client gets its lines and everything behind |
| Response.ReadOne | WebServer_Proj/HttpConn/HttpConn.cpp:337-446 | a client framing by Content-Length cuts exactly one response off the front of any stream, with its status line, media type and body |
| Response.FramingRoundTrip | WebServer_Proj/HttpConn/HttpConn.cpp:337-446 | from the bytes of any list of responses the client recovers in order their status lines, media types and bodies and, for each, whether the connection persists |
| Outgoing.AdvanceDrops | WebServer_Proj/HttpConn/HttpConn.cpp:147-159 | shifting and trimming the iovec drops exactly the written bytes from what is pending, reads the second entry only while it counts, and empties the iovec when everything is written, zero-length bodies included |
| Outgoing.WrittenConserves | WebServer_Proj/HttpConn/HttpConn.cpp:142-168 | after one `writev` the sent and the pending bytes are what was pending before, and the counters match |
| Outgoing.WriteConserves | WebServer_Proj/HttpConn/HttpConn.cpp:133-179 | over a whole call, for any sequence of short writes and EAGAIN, sent bytes followed by pending bytes are what was pending before; true is returned exactly when nothing is left, and then the mapping is released |
| Outgoing.WriteFillsRoom | WebServer_Proj/HttpConn/HttpConn.cpp:133-179 | a call hands over as many bytes as the kernel has room for before it blocks, and finishes exactly if that is all of them |
| Outgoing.NothingToSend | WebServer_Proj/HttpConn/HttpConn.cpp:134-136 | with nothing to send the call is done and touches nothing |
| HttpConn.ReadDelivers | WebServer_Proj/HttpConn/HttpConn.cpp:102-129 | reading up to EAGAIN leaves all received pieces in the buffer in order and reports a closed or failed socket, and an empty buffer, as failure |
| HttpConn.InstallPending | WebServer_Proj/HttpConn/HttpConn.cpp:377-446 | whatever response is set up, `writev` is offered header followed by body, the counters match, and only files are mapped, with the length `munmap` will use |
| HttpConn.HardErrorDangles | WebServer_Proj/HttpConn/HttpConn.cpp:174-176 | after any calls and short writes that did not finish a response, a hard error leaves an iovec that can be sent on if and only if the response is not a file with content |
| HttpConn.LoginAnswered | WebServer_Proj/HttpConn/HttpConn.cpp:321-333 | a printed login request, however its bytes were cut and whatever other headers it has, gets from a client's point of view the page for the verdict of `check_login` on exactly the user and password that were printed, on a connection that persists |
| HttpConn.LoginSays | WebServer_Proj/HttpConn/HttpConn.cpp:298-333 | a post to `/login` whose body lacks one of the two names gets the failure page, like a wrong password |
| HttpConn.FileAnswered | WebServer_Proj/HttpConn/HttpConn.cpp:337-385 | any other printed request without a body gets exactly the named file, or the home page, with the media type of its name and the connection type the client asked for; or a 404 page that closes |
| HttpConn.HttpConn.constructor | WebServer_Proj/HttpConn/HttpConn.cpp:8-22 | a new connection is in the parser's initial state with nothing to send and nothing mapped |
| HttpConn.HttpConn.Reset | WebServer_Proj/HttpConn/HttpConn.cpp:63-80 | every field but the mapping goes back to its initial value |
| HttpConn.HttpConn.ReleaseMapping | WebServer_Proj/HttpConn/HttpConn.cpp:94-99 | the mapping is gone and nothing else changed |
| HttpConn.HttpConn.Read | WebServer_Proj/HttpConn/HttpConn.cpp:102-129 | the loop refines the function `ReadCall`, of which `ReadDelivers` speaks |
| HttpConn.HttpConn.GetLine | WebServer_Proj/HttpConn/HttpConn.cpp:216-224 | a line is the bytes up to the first CRLF, and the index moves behind it; without a CRLF nothing changes |
| HttpConn.HttpConn.OnFirstLine | WebServer_Proj/HttpConn/HttpConn.cpp:234-241 | the field updates are those of the request-line function, with a 400 when method or url is missing |
| HttpConn.HttpConn.OnHeader | WebServer_Proj/HttpConn/HttpConn.cpp:244-265 | the field updates are those of the header-line function, including the exception |
| HttpConn.HttpConn.OnBody | WebServer_Proj/HttpConn/HttpConn.cpp:268-274 | the body is cut out when enough bytes are there, and otherwise nothing changes |
| HttpConn.HttpConn.ParseRequest | WebServer_Proj/HttpConn/HttpConn.cpp:227-281 | the loop ends and refines the function `Parse`, of which the fragmentation theorems speak |
| HttpConn.HttpConn.AdvanceIov | WebServer_Proj/HttpConn/HttpConn.cpp:147-159 | the in-place shifting of the iovec refines the function `Advance`, of which `AdvanceDrops` speaks |
| HttpConn.HttpConn.Write | WebServer_Proj/HttpConn/HttpConn.cpp:133-179 | result, new state and bytes handed to the kernel are those of the function of which `WriteConserves` speaks |
| HttpConn.HttpConn.SendFile | WebServer_Proj/HttpConn/HttpConn.cpp:351-384 | the fields describe the file response, header in one entry and mapping in the other |
| HttpConn.HttpConn.SendBuffer | WebServer_Proj/HttpConn/HttpConn.cpp:388-446 | the fields describe the error or login response in one entry, and the keep-alive flag is what the response announces |
| HttpConn.HttpConn.ServeStaticFile | WebServer_Proj/HttpConn/HttpConn.cpp:337-385 | the response set up is the file the url names or the 404 |
| HttpConn.HttpConn.BuildResponse | WebServer_Proj/HttpConn/HttpConn.cpp:321-333 | the response set up is the one the dispatcher chooses for the parsed fields |
| HttpConn.HttpConn.Process | WebServer_Proj/HttpConn/HttpConn.cpp:182-212 | the whole task, including the event it arms for, refines `AfterProcess` |
| Timer.InsertSorted | WebServer_Proj/Timer/Timer.cpp:89-105 | insertion keeps the list sorted by expiry |
| Timer.InsertNodes | WebServer_Proj/Timer/Timer.cpp:89-105 | insertion adds exactly the new node and keeps descriptors distinct |
| Timer.RemoveNodes | WebServer_Proj/Timer/Timer.cpp:120-127 | deletion removes exactly the node of the descriptor, and nothing if it has none |
| Timer.AdjustNodes | WebServer_Proj/Timer/Timer.cpp:108-117 | a refresh changes the expiry of one descriptor and nothing else |
| Timer.ExpiredNodes | Timer/timer_test.cpp:62-78 | the full scan reports exactly the due descriptors and keeps exactly the others |
| Timer.ExpiredOnce | WebServer_Proj/Timer/Timer.cpp:130-147 | no descriptor is reported twice |
| Timer.PrefixIsScan | WebServer_Proj/Timer/Timer.cpp:134-143 | in a sorted list, stopping at the first live node finds and leaves what the full scan finds and leaves |
| Timer.Timer.AddTimer | WebServer_Proj/Timer/Timer.cpp:89-105 | the loop inserts stably, behind every node that expires no later, and keeps the list sorted |
| Timer.Timer.AdjustTimer | WebServer_Proj/Timer/Timer.cpp:108-117 | the node of the descriptor moves to the place of its new expiry; an unknown descriptor changes nothing |
| Timer.Timer.DelTimer | WebServer_Proj/Timer/Timer.cpp:120-127 | the first node of the descriptor leaves the list, which stays sorted |
| Timer.Timer.Tick | WebServer_Proj/Timer/Timer.cpp:130-147 | the early-stopping loop has the result and the remainder of the full scan |
| Timer.TimerTest.Tick | Timer/timer_test.cpp:62-78 | the prototype's loop, on any list, reports the due descriptors in list order and keeps the others |
| Timer.StaysSorted | WebServer_Proj/Timer/Timer.cpp:87-147 | every operation, with any clock reading, keeps the list sorted |
| Timer.FastRunIsScanRun | WebServer_Proj/Timer/Timer.cpp:87-147 | over any run, even with a clock running backwards, every early-stopping tick reports and leaves what the full scan does |
| Timer.ActivityOrder | WebServer_Proj/Timer/Timer.cpp:98-117 | in every run with a clock that does not run backwards the list is in order of last activity, and the next add or refresh goes to its end |
| Timer.ClockRun | WebServer_Proj/Timer/Timer.cpp:89-147 | over any run with such a clock every expiry is last activity plus 15, and lies ahead of the last tick |
| Timer.IdleWindow | WebServer_Proj/Timer/Timer.cpp:89-147 | in such a run, a tick at most 5 after the previous one reports exactly the descriptors idle for 15, and none has been idle for 20 |
| Reactor.FinishIsProcess | WebServer_Proj/HttpConn/HttpConn.cpp:182-212 | the step that ends a task is the task function on that connection, arming the descriptor as it asks |
| Reactor.CloseAgrees | WebServer_Proj/WebServer/WebServer.cpp:236-240 | closing, even a descriptor closed before, keeps timer, connections and user count in agreement |
| Reactor.TickEffect | WebServer_Proj/WebServer/WebServer.cpp:217-233 | a tick closes exactly the connections idle for 15 and changes nothing else |
| Reactor.StepAgrees | WebServer_Proj/WebServer/WebServer.cpp:144-240 | every step of every thread keeps one timer node per open connection, due 15 after its last activity, and the user count equal to their number |
| Ownership.StepOwns | WebServer_Proj/WebServer/WebServer.cpp:101-131 | every safe step keeps each open descriptor in exactly one place and closed ones in none |
| Ownership.FinishOwnsExactly | WebServer_Proj/HttpConn/HttpConn.cpp:182-212 | a task that ends keeps ownership if and only if the bytes it has to parse hold no length `stoi` rejects; otherwise the descriptor is nowhere |
| Ownership.TickOwnsExactly | WebServer_Proj/WebServer/WebServer.cpp:229-232 | a tick keeps ownership if and only if it closes only armed descriptors |
| Sharing.AcceptOwnsExactly | WebServer_Proj/WebServer/WebServer.cpp:144-177 | an accepted descriptor gets one more owner than it had, and is owned once if and only if no event in the batch and no task was left over for it |
| Sharing.StepShares | WebServer_Proj/WebServer/WebServer.cpp:101-240 | of all steps, safe or not, only the accept of a descriptor with a leftover event or task gives one a second owner |
| Sharing.NeverTwoExactly | WebServer_Proj/WebServer/WebServer.cpp:101-240 | over every run, safe or not, no descriptor ever has two owners if and only if no such accept happens |
| Ownership.TickCollects | WebServer_Proj/WebServer/WebServer.cpp:217-233 | wherever its token is, an open connection is closed by the first tick 15 after its last activity and by no earlier one |
| Ownership.InBatchOnce | WebServer_Proj/WebServer/WebServer.cpp:101-103 | a descriptor epoll reports at most once is counted at most once, and counted exactly if it is reported |
| WireStream.FinishOk | WebServer_Proj/HttpConn/HttpConn.cpp:195-210 | on an idle connection a task leaves it idle or sets up one response, dropping no bytes and no mapping |
| WireStream.WriteOk | WebServer_Proj/WebServer/WebServer.cpp:196-214 | one call of `write` keeps sent plus pending bytes equal to the finished responses and the current one, and moves the current one to the finished ones exactly when it is complete |
| WireStream.StepKeepsInv | WebServer_Proj/WebServer/WebServer.cpp:81-240 | every safe step keeps the invariant: agreement, ownership, phase of every owned connection, byte and mapping accounts |
| WireStream.TimerAgreesAlways | WebServer_Proj/WebServer/WebServer.cpp:166-240 | in every reachable state, safe or not, timer nodes, open connections and user count agree |
| WireStream.OneOwnerAlways | WebServer_Proj/HttpConn/HttpConn.cpp:47-60 | in every reachable state of a safe run each open descriptor is armed, in the batch, with the main thread, queued or running, and in only one of these |
| WireStream.WireAlways | WebServer_Proj/WebServer/WebServer.cpp:180-214 | in every reachable state of a safe run the bytes on the wire are the finished responses in order and the first `m_bytes_have_send` bytes of the current one |
| WireStream.ClientSeesResponses | WebServer_Proj/WebServer/WebServer.cpp:199-209 | in every reachable state of a safe run, on every connection, open or closed, a client framing by Content-Length has read exactly the bodies of the finished responses and then a prefix of at most one more; on an open connection all of them are announced as keep-alive, on a closed one all but the last |
| WireStream.MappingsBalance | WebServer_Proj/HttpConn/HttpConn.cpp:83-99 | in every reachable state of a safe run nothing is mapped when a task runs, one mapping was made for every file response with the length of the file, and every mapping of a closed connection was released once with its own length |
| WireStream.NobodyForgotten | WebServer_Proj/WebServer/WebServer.cpp:144-177 | over every run, safe or not, the open connections and the closed ones together are exactly as many as were accepted |
| Lifetime.EndsExactly | WebServer_Proj/WebServer/WebServer.cpp:180-240 | in every reachable state of a safe run the next step closes an open connection if and only if the peer hung up, it is a tick 15 after the last activity, a read fails or finds nothing, or the kernel has room for the rest of a response that told the client to leave |
| Lifetime.EventsInOrder | WebServer_Proj/WebServer/WebServer.cpp:99-131 | over every run, safe or not, the main thread takes each event that `epoll_wait` returned once and in that order |
| Deadline.PromptTasksAreSpared | WebServer_Proj/WebServer/WebServer.cpp:184-193 | in every run with a clock that does not run backwards, safe or not, in which each task ends less than 15 after the read that submitted it, no tick reports a descriptor whose task waits or runs |
| Deadline.SubmittedIsLast | WebServer_Proj/WebServer/WebServer.cpp:189-193 | in every state of a safe run the last activity of a connection whose task waits or runs is the read that submitted it |
| Deadline.DeadlineRuns | WebServer_Proj/WebServer/WebServer.cpp:217-233 | the runs with such prompt tasks are safe if and only if no request has a length `stoi` rejects, `writev` fails only with EAGAIN, and no tick meets an undispatched event of a connection idle for 15 |
| Deadline.ServerIdleWindow | WebServer_Proj/WebServer/WebServer.cpp:217-233 | in every run with a clock that does not run backwards, safe or not, a tick at most 5 after the previous one closes an open connection if and only if 15 have passed since its last activity in the run, and for none have 20 passed |
| Deadline.TasksInOrder | WebServer_Proj/WebServer/WebServer.cpp:189-193 | in every run with such a clock the task queue is in the order of the reads that submitted the tasks |
| Answers.AnswersInOrder | WebServer_Proj/WebServer/WebServer.cpp:180-214 | in every reachable state of a safe run, on every connection, open or closed, the responses sent in full are, in order, the answers to the bytes read before each of them, each for the files and users its own task found |
| Answers.ViewsAreFound | WebServer_Proj/HttpConn/HttpConn.cpp:298-385 | in every run those files and users are some that a task of the run found, so if they never change neither do those behind the answers |
| Answers.ChunkIsReceived | WebServer_Proj/HttpConn/HttpConn.cpp:102-129 | what a read adds to those bytes is what `recv` delivered, each piece up to its first NUL |
| Answers.ClientGetsAnswers | WebServer_Proj/HttpConn/HttpConn.cpp:182-212 | in every reachable state of a safe run, a client that sent printed requests, one for each response, with any other header lines and cut in any way, has read in order: for a file its content, media type and connection type, or the 404 page; for a login the page that `check_login` decides on the user and password it typed; for a post to `/login` without a form the failure page; for a short request line the 400 page; and then a prefix of at most one more response, on a connection that is open, was closed behind a response, or was closed in the middle of one |
| StaleEvent.StaleEventClosesFreshConnection | WebServer_Proj/WebServer/WebServer.cpp:101-131 | a reachable state in which a fresh connection is both armed and with the main thread, which closes it without having read from it |
| OneClient.RejectedIsOrphan | WebServer_Proj/HttpConn/HttpConn.cpp:182-193 | for every request with a length `stoi` rejects there is a run after which the descriptor is open and in no place at all |
| OneClient.BadLengthOrphans | WebServer_Proj/HttpConn/HttpConn.cpp:261-263 | such a run for one short request |
| OneClient.RequestedFileDangles | WebServer_Proj/HttpConn/HttpConn.cpp:174-176 | for every printed request for a file with content there is a run after which the connection is armed for output with an iovec that points into the released mapping |
| WebServer.WebServer.AddClient | WebServer_Proj/WebServer/WebServer.cpp:166-177 | a new connection object takes the accept step and the agreement is kept; a descriptor of 65536 or more changes nothing |
| WebServer.WebServer.HandleClose | WebServer_Proj/WebServer/WebServer.cpp:236-240 | the handler takes the close step on the connection object, also for a descriptor that is closed already |
| WebServer.WebServer.HandleTimer | WebServer_Proj/WebServer/WebServer.cpp:217-233 | the loop is stopped exactly if 15, which is SIGTERM, is among the first 64 bytes of a piece read from the pipe; the early-stopping tick and the loop over its result take the tick step and keep the agreement |
| WebServer.WebServer.HandleRead | WebServer_Proj/WebServer/WebServer.cpp:180-194 | calling `read()` on the connection object, the handler takes the read step: refresh and queue, or close |
| WebServer.WebServer.HandleWrite | WebServer_Proj/WebServer/WebServer.cpp:196-214 | calling `write()` on the connection object, the handler takes the write step: re-arm, or refresh and reset, or close |
| WebServer.WebServer.RunTask | WebServer_Proj/WebServer/WebServer.cpp:191-193 | a worker's call of `process()` on the connection object takes the step that ends a task |
| SafeQueue.StepKeepsInv | Base/Mutex/producer_consumer_fixed.cpp:24-54 | every locked region and every spurious wakeup keeps: no lost wakeup on either side, first in first out, never more than `max_size` values |
| SafeQueue.NobodySleepsInVain | Base/Mutex/producer_consumer_fixed.cpp:24-47 | in every reachable state with no woken thread on its way, producers sleep only before a full queue and consumers only before an empty one; after stop nobody sleeps |
| SafeQueue.ValuesComeOut | Base/Mutex/producer_consumer_fixed.cpp:24-47 | over every run what `pop` handed out, followed by what is queued, are in order the values of calls of `push`, none used twice; and a waiting producer still holds the value of its last call |
| SafeQueue.DeadlockExactly | Base/Mutex/producer_consumer_fixed.cpp:17-47 | some run ends with both sides asleep and nobody woken if and only if the capacity is 0 |
| SafeQueue.StopReleases | Base/Mutex/producer_consumer_fixed.cpp:29-46 | one step after stop: a woken thread that gets the mutex leaves for good, and a pop takes one queued value or finds everything delivered |
| SafeQueue.StopDrains | Base/Mutex/producer_consumer_fixed.cpp:29-54 | in any run after stop each woken thread gets the mutex at most once more, nothing is accepted, and everything accepted has been delivered exactly if the run popped at least as often as values were queued |
| SafeQueue.EverybodyLeaves | Base/Mutex/producer_consumer_fixed.cpp:49-54 | after stop some run of the woken threads' returns alone ends with nobody left |
| SafeQueue.SafeQueue.Push | Base/Mutex/producer_consumer_fixed.cpp:24-34 | pushes its value at the end, goes to sleep holding it, or fails exactly when stopped; keeps the invariant |
| SafeQueue.SafeQueue.PushAgain | Base/Mutex/producer_consumer_fixed.cpp:26-33 | a woken producer re-tests its predicate with the value it came with, and goes back to sleep holding that |
| SafeQueue.SafeQueue.Pop | Base/Mutex/producer_consumer_fixed.cpp:36-47 | yields the oldest value, goes to sleep, or reports the end only when stopped and everything accepted was delivered |
| SafeQueue.SafeQueue.PopAgain | Base/Mutex/producer_consumer_fixed.cpp:38-46 | the same for a woken consumer |
| SafeQueue.SafeQueue.Stop | Base/Mutex/producer_consumer_fixed.cpp:49-54 | wakes everybody and keeps the invariant |
| ThreadPool.StepKeepsInv | WebServer_Proj/Thread_Pool/Thread_Pool.h:43-113 | every step of submitters, workers and the destructor keeps accounting, no lost wakeup, submit order, run-once and the shutdown facts |
| ThreadPool.LogsAreTrue | WebServer_Proj/Thread_Pool/Thread_Pool.h:43-113 | the logs the invariant speaks of are, over every run, the tasks of the submit calls, of the workers' pops and of their completions, in order |
| ThreadPool.EveryReachableState | WebServer_Proj/Thread_Pool/Thread_Pool.h:43-55 | in every reachable state the counter does not underflow, a queued task beside a sleeper has a notification owed or a worker on its way, the tasks of the submit calls are in order those the workers started and then those queued, and none has finished more often than it was submitted |
| ThreadPool.ReturnedMeansAllRan | WebServer_Proj/Thread_Pool/Thread_Pool.h:68-88 | when the destructor has returned, the tasks of the submit calls were started in order, each has run as often as it was submitted, and every worker has left |
| ThreadPool.WorkDecreases | WebServer_Proj/Thread_Pool/Thread_Pool.h:68-113 | once stopped, every step reduces a measure of the work left |
| ThreadPool.NeverStuck | WebServer_Proj/Thread_Pool/Thread_Pool.h:68-113 | once stopped, some thread can take a step until the destructor has returned |
| ThreadPool.ShutdownIsBounded | WebServer_Proj/Thread_Pool/Thread_Pool.h:68-113 | no run after the stop is longer than the work that was left |
| ThreadPool.DestructorReturnsExactly | WebServer_Proj/Thread_Pool/Thread_Pool.h:78-87 | a stopped pool can finish its destructor if and only if it has a worker or nothing queued |
| ThreadPool.ThreadPool.Submit | WebServer_Proj/Thread_Pool/Thread_Pool.h:43-56 | queues the task behind all others, counts it and owes a notification, or changes nothing exactly when stopped |
| ThreadPool.ThreadPool.NotifyOne | WebServer_Proj/Thread_Pool/Thread_Pool.h:55 | pays one owed notification and wakes the chosen sleeper |
| ThreadPool.ThreadPool.TakeTask | WebServer_Proj/Thread_Pool/Thread_Pool.h:95-107 | the locked region of the worker loop: sleep, leave, or take the oldest task |
| ThreadPool.ThreadPool.FinishTask | WebServer_Proj/Thread_Pool/Thread_Pool.h:110 | the task a worker took is recorded as run, once |
| ThreadPool.ThreadPool.SetStopFlag | WebServer_Proj/Thread_Pool/Thread_Pool.h:69-72 | from here on submits are refused; nobody is woken yet |
| ThreadPool.ThreadPool.CountDown | WebServer_Proj/Thread_Pool/Thread_Pool.h:111 | the decrement never takes the counter below zero |
| ThreadPool.ThreadPool.NotifyEverybody | WebServer_Proj/Thread_Pool/Thread_Pool.h:75 | from here on no worker sleeps |
| ThreadPool.ThreadPool.DestructorStep | WebServer_Proj/Thread_Pool/Thread_Pool.h:78-87 | each turn of the spin or of the join loop takes a step of the protocol or changes nothing |
| MySQLPool.StepKeepsInv | WebServer_Proj/MySQL_Pool/MySQL_Pool.cpp:87-114 | taking, waiting, timing out and returning keep every created connection idle once or held by one guard |
| MySQLPool.RunConserves | WebServer_Proj/MySQL_Pool/MySQL_Pool.h:53-71 | the same over every run, for the set of connections that was created |
| MySQLPool.OpenedAre | WebServer_Proj/MySQL_Pool/MySQL_Pool.cpp:44-53 | the pool begins with a connection for every attempt that succeeded and for no other, in order |
| MySQLPool.SufficientExactly | WebServer_Proj/MySQL_Pool/MySQL_Pool.cpp:91-100 | some use by the given threads finds the queue empty if and only if there are more threads than attempts that succeeded |
| MySQLPool.EightAreEnough | WebServer_Proj/MySQL_Pool/MySQL_Pool.cpp:91-100 | when all eight attempts succeeded and at most eight threads use the pool, nobody ever waits |
| MySQLPool.LongestIdleFirst | WebServer_Proj/MySQL_Pool/MySQL_Pool.cpp:102-113 | over every run the connections handed out, followed by the idle ones, are those created and then those returned, in that order: the one idle longest is handed out first |
| MySQLPool.MySQLPool.constructor | WebServer_Proj/MySQL_Pool/MySQL_Pool.cpp:44-53 | after eight attempts the queue holds exactly the connections that succeeded, and the count agrees |
| MySQLPool.MySQLPool.GetConn | WebServer_Proj/MySQL_Pool/MySQL_Pool.cpp:87-105 | yields the oldest idle connection if there is one and otherwise waits |
| MySQLPool.MySQLPool.WaitTimedOut | WebServer_Proj/MySQL_Pool/MySQL_Pool.cpp:92-100 | after the wait null is returned only if the queue is still empty |
| MySQLPool.MySQLPool.ReturnConn | WebServer_Proj/MySQL_Pool/MySQL_Pool.cpp:108-114 | the connection is idle again, nobody holds it, and one waiter is woken |
| MySQLPool.MySQLPool.Destroy | WebServer_Proj/MySQL_Pool/MySQL_Pool.cpp:33-41 | exactly the connections no guard holds are closed, each once |
| PollTable.SurvivorsFilter | IO-Models/TCP_Server_Poll.cpp:58-92 | in whatever order entries were examined, one survives unless it was readable and its peer had hung up |
| PollTable.SwapRemoveFds | IO-Models/TCP_Server_Poll.cpp:88-89 | swap-remove drops exactly one descriptor and keeps the rest distinct |
| PollTable.PollServer.Poll | IO-Models/TCP_Server_Poll.cpp:49 | exactly the entries in use get the kernel's answer |
| PollTable.PollServer.Append | IO-Models/TCP_Server_Poll.cpp:64-72 | the client becomes the last entry, readable if and only if the entry that was last in its slot was |
| PollTable.PollServer.Drop | IO-Models/TCP_Server_Poll.cpp:86-90 | exactly the client at the index leaves, and the freed slot keeps the `revents` of the entry that was in it |
| PollTable.StaleRun | IO-Models/TCP_Server_Poll.cpp:56-94 | three passes after which a client just accepted is examined as readable although `poll` reported the listening socket alone |
| PollTable.PollServer.Pass | IO-Models/TCP_Server_Poll.cpp:56-94 | a pass ends, accepts a positive descriptor at every size below 1024, examines every entry present or appended exactly once despite swap-remove, removes exactly the readable ones that hung up, keeps the listening socket at index 0, at most 1024 entries and no duplicates, and the table equal to listener plus open clients |

## Left out

- Response.FramingRoundTrip: the client reads the status line, the media type, the length and the connection type; there are no other header fields.
- WireStream.WireAlways: speaks of safe runs, as do OneOwnerAlways, ClientSeesResponses, MappingsBalance and the theorems of `Answers.dfy`; outside them `FinishOwnsExactly`, `TickOwnsExactly` and `StaleEventClosesFreshConnection` say what breaks.
- The hard-error branch of `write` is modelled in `Outgoing.dfy` and `HttpConn.dfy` but excluded from safe runs.
- What a task still does to a connection object that was closed under it; `Finish` on a closed descriptor changes nothing here.
- The exception that the future of a throwing task keeps.
- `mmap` always succeeds; a zero-length file is a zero-length mapping, where the real `mmap` fails and the server sends an empty body all the same; a directory that `stat` accepts is a file here.
- `users_` is an array of objects that are reused; here the object of a connection is created when it opens and dropped when it closes, and the class `HttpConn` has no descriptor field.
- `accept`, `recv`, `writev`, `epoll_wait`, `stat`, `mmap`, the clock and signals are answers of the environment; `recv` pieces are not limited to 4095 bytes and a batch not to its maximal size.
- The test of `is_running_` by the loop: a stopped loop is a run that ends with its batch.
- Closing the listening socket, socket options, address printing, the logger, HTML and SQL texts.
- `check_login` is an arbitrary function of user and password; its use of one `ConnGuard` is the pool's `Get` and `Return`.
- MySQLPool.MySQLPool.Destroy: says nothing of connections returned afterwards; the program never destroys its pool.
- Buffer sizes, indices and counters are unbounded natural numbers, except `Content-Length`, whose `int` and `size_t` widths are modelled.
- Pipelined requests (section 9.3.2 of RFC 9112): `reset` discards unread bytes.
- Template and `std::future` machinery of `submit`; a task is a value that finishes.
- The `producer` and `consumer` loops and `get_size`: they only call the queue.
- The reply the poll server sends.
- The select, epoll and `Network` servers, earlier copies of the same classes, and the mutex exercises.
