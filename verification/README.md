# LayerSmith: verified models

LayerSmith builds container images and downloads language models, and moves both to hosts
that are hard to reach: archives travel in parts under 1 GB, build logs are followed over
connections that break. This project models the code those promises rest on and proves them.

- **Split download.** `Streams`, `Decimal` and `Text` are the ground. `Splitting` cuts and
  hashes a chunked stream in one pass, and `CutterLoop` says when that ends. `Vtar` describes
  a tar archive that is never written and serves any range of it. `Ranges` is one HTTP range
  over content cut on the fly. `Transfer` puts them together, from a model's folder to what
  the receiver unpacks, and `ChangingModel` does so while files change between requests.
  `SplitJobs` is the background service while archives are replaced under it.
- **Build log.** `BuildLog` is the writer under its cap and the log endpoint, `Follower` the
  client under every interleaving with writer, handler steps and lost requests, `Poll` the
  same as running code with its termination, `WaitForBuild` the waiting loop around it and
  `FollowBuild` the two together. `LogBus` and `WebSocket` are the second reader: subscribe,
  replay, check, drain.
- **Lifecycles.** `Builds` runs and recovers build rows, `Lifecycle` is every run of
  requests, worker, recovery and deletion, `Versions` the version texts and their order,
  `Repositories` the names of projects and images. `Deletion` is what deleting a build
  removes, `Paths` the spellings of paths it compares. `Models` downloads, resumes and
  verifies a model.
- **Texts.** `References` parses image references and drops tags next to digests.
  `Patterns` is what it means to match a regular expression, and `Grammars` proves that the
  predicates used everywhere are the expressions of the source, written as data.
  `LockFile` reads and writes requirement blocks, `LockStack` locks a training stack.

Bytes are numbers below 256. Hash functions, tar headers, the dependency resolver, HTTP
servers and the file system's answers are parameters, so every theorem holds for all of
them; where one needs a contract (a header must read back, a resolver must keep to its
constraints) the contract is a named predicate. Interleavings are state machines over
events: an event that does not apply changes nothing, and a theorem about a run holds for
every sequence of events, or names the sequences it holds for. Code that updates objects
is a class or a method with its loops.

Results that are not what one would expect, each proved:

- A file that the listing says is empty is never created by the download, and verification
  then fails to open it: a model with one can never become ready
  (`Models.ModelService.Run` says exactly when a model does). The same contract shows that
  a folder left by a crash between the rename and `ready` is never taken over.
- `hash_parts` terminates exactly on streams no longer than announced
  (`CutterLoop.TerminatesExactly`); both producers keep the bound.
- A socket whose queue is full when `done` is announced never sends it and never closes;
  room at that moment is exactly what it takes (`WebSocket.DoneIsKeptExactly`), and the
  queue can be full (`WebSocket.AFullQueueMissesDone`).
- Deletion compares paths as text, and pathlib keeps "..". When the image directory was
  "/srv/../images" and is "/images" now, two builds of one name and version have one archive
  under two stored spellings, and deleting the older takes it from the newer
  (`Deletion.SecondSpelling`). While no stored path contains "..", which the settings page
  sees to and the environment variable does not, every build that is left keeps its files
  (`Deletion.StraightIsOneSpelling`, `Deletion.DeleteAll`).
- Add-on locks agree on every package of the joint lock. That they name no others needs more
  than a resolver that keeps to its constraints: it must pin only what is required
  (`LockStack.AnySubsetHasOneVersion`,
  `LockStack.OutsideTheJointLockVersionsCanClash`).
- The suggested version is above everything ever built and never collides, but after patch
  999999 the suggestion is refused (`Lifecycle.SuggestionNeverCollides`).
- Cloning a project checks the clone's name and not the repository made of it: a clone
  called "my--app" is created, and refuses every build, with any version, until its
  repository is changed. Its first build is accepted exactly if its name has no hyphen at
  the end or next to another (`Lifecycle.CloneBuildsExactly`, `Lifecycle.StaysRefused`, with a run in
  `Lifecycle.UnbuildableClone`).
- `wait_for_build` promises to retry lost connections, but its last poll of the log is
  outside the retrying part: a finished build is returned for certain exactly if there is
  no log left to follow (`WaitForBuild.LastPollDecides`, with an input in
  `WaitForBuild.ReadyBuildCanBeLost`); and a clock that reads exactly zero when
  the connection is lost starts the wait over (`WaitForBuild.ZeroClockStartsOver`).
- A range whose end is before its start is answered with 416, where section 14.1.1 of
  RFC 9110 calls it invalid; `Ranges.RangedIsExact` follows the code.

## Model

| member | source | states |
|---|---|---|
| Splitting.PartSize | backend/layersmith/services/splitting.py:48-50 | the part size is always within its limits, and the configured one whenever that is |
| Splitting.PlanTiles | backend/layersmith/services/splitting.py:53-57 | the ranges tile the archive from 0 to its end without gap or overlap, all full but the last, none empty unless the archive is |
| Splitting.TilesInside | backend/layersmith/services/splitting.py:53-57 | every planned range lies inside the archive, starts where the one before ends, and only the last reaches the end |
| Splitting.SlicesCover | backend/layersmith/services/splitting.py:53-57 | the first k slices, concatenated, are the archive up to the end of the k-th |
| Splitting.PlanRejoins | backend/layersmith/services/splitting.py:53-57 | concatenating the slices of a plan in order gives back the archive, for every part size |
| Splitting.PartNamesSort | backend/layersmith/services/splitting.py:60-63 | part names are distinct and sort in index order, for every count, past 1000 too |
| Splitting.PartNameSays | backend/layersmith/services/splitting.py:60-63 | a part's name is the archive's, `.part-` and at least three digits that say its index |
| Splitting.FeedPiece | backend/layersmith/services/splitting.py:281-287 | one piece of a chunk is never empty inside the stream, extends the current part by exactly the next bytes, and fills it exactly when the stream reaches the part's end |
| Splitting.GoodStep | backend/layersmith/services/splitting.py:281-291 | one turn of the inner loop keeps parts, digests and position consistent with the stream, also when it finishes a part |
| Splitting.CutChunk | backend/layersmith/services/splitting.py:280-291 | the inner loop takes a whole chunk, whatever parts it spans, and terminates |
| CutterLoop.ChunkSettles | backend/layersmith/services/splitting.py:280-291 | for a chunk of any length, after as many turns of the inner loop as the chunk has bytes, exactly the bytes the plan has room for are taken and further turns change nothing |
| CutterLoop.OverlongStreamStalls | backend/layersmith/services/splitting.py:279-291 | on every stream longer than announced a chunk is reached whose loop never uses it up, and whose turns stop changing anything |
| CutterLoop.TerminatesExactly | backend/layersmith/services/splitting.py:269-299 | for every chunking, all inner loops end exactly if the stream is no longer than announced |
| Splitting.HashParts | backend/layersmith/services/splitting.py:269-299 | for every chunking, the one pass gives each part's offset, size, name and hash as slicing first would, and the whole hash; a short stream is always the length error |
| Splitting.ReadChunks | backend/layersmith/services/splitting.py:138-148 | the read loop yields exactly the window of the file, and fails exactly when the file ends before it |
| Splitting.FileChunks | backend/layersmith/services/splitting.py:258-266 | never more than `total` bytes, the bound `hash_parts` needs, and an error exactly when the archive is shorter |
| Splitting.ReadRange | backend/layersmith/services/splitting.py:138-148 | a part served straight from the archive is exactly its range, or the error for an archive that ends first |
| Vtar.PositionIsLength | backend/layersmith/services/vtar.py:79-83 | in a contiguous layout a segment's recorded offset is the length of everything before it |
| Vtar.ReadSegment | backend/layersmith/services/vtar.py:46-59 | one touched segment yields exactly its share of the range, and fails exactly when its file is gone or too short, after a prefix of that share |
| Vtar.ArchiveLength | backend/layersmith/services/vtar.py:35 | the layout's size is the length of the archive it describes |
| Vtar.ReadEndWindow | backend/layersmith/services/vtar.py:39 | a range past the end reads what the archive has of it |
| Vtar.SkipStep | backend/layersmith/services/vtar.py:42-43 | skipping a segment that ends before the range, or is empty, loses nothing |
| Vtar.BreakStep | backend/layersmith/services/vtar.py:44-45 | stopping at the first segment past the range loses nothing, because offsets only grow |
| Vtar.TouchStep | backend/layersmith/services/vtar.py:46-59 | a touched segment extends what was read by exactly the next bytes of the range |
| Vtar.Read | backend/layersmith/services/vtar.py:37-59 | for all offsets and lengths, the chunks are exactly the range of the archive, cut at its end; an error exactly when a file the range needs lacks bytes, and then after a correct prefix |
| Vtar.Add | backend/layersmith/services/vtar.py:79-83 | appending a segment keeps the layout contiguous and appends its bytes to what it describes |
| Vtar.AddMember | backend/layersmith/services/vtar.py:87-94 | one entry adds header, contents at the recorded size, and zeros up to a whole block |
| Vtar.MakeLayout | backend/layersmith/services/vtar.py:74-97 | the layout is contiguous and describes the tar stream of the folder whatever is on disk; with the recorded files there, all of it can be read |
| Vtar.UnpackMember | backend/layersmith/services/vtar.py:87-94 | a tar reader takes one member off the front with its name and contents and goes on with the rest |
| Vtar.TarStreamUnpacks | backend/layersmith/services/vtar.py:74-97 | unpacking the stream gives the folder, under the name the reader gives it, and then exactly the listed names and contents in order, if the headers of these members read back |
| Vtar.SomeReaderReads | backend/layersmith/services/vtar.py:62-71 | headers in whole non-zero blocks of which none goes on as another have a reader that reads each of them back, whatever follows |
| Vtar.TarStreamIsBlocks | backend/layersmith/services/vtar.py:92-96 | headers of whole blocks make a stream of whole 512-byte blocks |
| Ranges.PartialIsExact | backend/layersmith/api.py:1474-1477 | a 206 body is exactly the selected bytes, and Content-Range and Content-Length agree with it |
| Ranges.MissSelectsNothing | backend/layersmith/api.py:1472-1473 | a 416 is only given when the range selects no byte |
| Ranges.RangedIsExact | backend/layersmith/api.py:1455-1479 | for every size and header: 206 exactly when the range selects something, 416 exactly when it misses the content, everything when no range is asked for, and the body is right in each case |
| Ranges.MatchExactly | backend/layersmith/api.py:1465-1466 | the numbers are read from a header exactly if, without white space around it, it is `bytes=` with them and a hyphen between |
| Ranges.GroupsAnswer | backend/layersmith/api.py:1466-1477 | by its numbers alone: from a to b and not past the end, from a on, or the last n bytes, with matching Content-Range and Content-Length; 416 if that is empty |
| Ranges.FromTo | backend/layersmith/api.py:1467-1477 | for all a and b, `bytes=a-b` gives exactly the bytes from a to b that there are |
| Ranges.LastBytes | backend/layersmith/api.py:1470-1477 | for all n, `bytes=-n` gives exactly the last n bytes, or all of them |
| Ranges.OtherwiseWhole | backend/layersmith/api.py:1478-1479 | every other header is as if there were none |
| Ranges.MatchResume | backend/layersmith/api.py:1465-1469 | the header a resuming client sends is read as the range from its length on |
| Ranges.ResumeCompletes | backend/layersmith/api.py:1458-1479 | the first k bytes and the answer to `bytes=k-` are the content; with all of it, the answer is 416 |
| Transfer.ReadStream | backend/layersmith/services/llm_models.py:324-327 | reading the layout without a range gives the whole tar stream or an error, and an error only if a file is missing bytes |
| Transfer.ComputeParts | backend/layersmith/services/llm_models.py:324-331 | the manifest is the one of the tar stream, its size, hash and part hashes; a missing file never gives a manifest |
| Transfer.CurrentParts | backend/layersmith/services/llm_models.py:333-346 | the stored split is served exactly while every file has its recorded size and mtime, and then every part can be served |
| Transfer.ReadPart | backend/layersmith/services/llm_models.py:348-350 | deriving the layout anew for a request changes nothing: a part is its range of the same stream, or a prefix of it before an error |
| Transfer.FetchParts | backend/layersmith/services/llm_models.py:348-350 | every part of a manifest, fetched in order, is its range of the stream |
| Transfer.ServedPartsRejoin | backend/layersmith/services/splitting.py:272-275 | the served parts, concatenated in index order, are the stream whose hash the manifest names |
| Transfer.ServedPartsMatchChecksums | backend/layersmith/services/splitting.py:289-299 | each part of the manifest has the checksum and size of exactly what is served for it |
| Transfer.SortedGlobIsIndexOrder | backend/layersmith/services/splitting.py:60-63 | a sorted listing of the part files is in index order |
| Transfer.TransferModel | backend/layersmith/services/llm_models.py:321-350 | end to end: described, split, served, rejoined and unpacked, a model is its folder and exactly the recorded files in order, for headers of its own members that read back |
| Transfer.PartReaderServes | backend/layersmith/api.py:1622-1623 | reading at the part's offset plus the range's start serves every sub-range of the part |
| Transfer.ServeModelPart | backend/layersmith/api.py:1621-1623 | the answer is the range of the part that was asked for, or a prefix of it when a file lacks bytes |
| Transfer.ServeArchivePart | backend/layersmith/api.py:1359-1363 | the same from an archive on disk: what it still has of the range, and all of it while it is long enough |
| Transfer.AskedIsRanged | backend/layersmith/api.py:1458-1479 | what a range asks of a part is the body and the Content-Length that the range rules give |
| Transfer.Resume | backend/layersmith/api.py:1458-1479 | a client that keeps what it has and asks for the rest, however often answers are cut short by either side, always holds a prefix of the part, and one uncut answer from complete files completes it |
| Transfer.PartResumes | backend/layersmith/api.py:1359-1363 | the first k bytes of a part and the answer to a request from k on are the part |
| ChangingModel.UnchangedIsSameStream | backend/layersmith/services/llm_models.py:333-346 | files that pass the check of sizes and mtimes give the described stream, exactly if none got other bytes of its old size without a new mtime |
| ChangingModel.Request | backend/layersmith/api.py:1599-1623 | a part request at any later moment is refused exactly when a file changed its size or mtime, and otherwise gets what it asks of the part that was described |
| ChangingModel.Gather | backend/layersmith/api.py:1599-1623 | over any requests at different moments: a part is served exactly if some request for it found the files unchanged, each served part is the described one, and all of them in order are the stream of the manifest's checksum |
| SplitJobs.WriteKeeps | backend/layersmith/services/splitting.py:82-84 | replacing an archive keeps every stored and computed manifest true of what it was computed from, if contents are told apart by name, size and mtime |
| SplitJobs.ReadKeeps | backend/layersmith/services/splitting.py:258-266 | while the archive is unchanged, what a job has read is a prefix of it, however the reads are cut |
| SplitJobs.RestatKeeps | backend/layersmith/services/splitting.py:247-255 | the second look at the archive and the checksum test let only a true description through |
| SplitJobs.CommitKeeps | backend/layersmith/services/splitting.py:229-235 | what is committed describes the content its size and mtime name, whatever the row points at by then |
| SplitJobs.ClaimKeeps | backend/layersmith/services/splitting.py:204-210 | claiming a build under the lock keeps one running job per build |
| SplitJobs.StepKeeps | backend/layersmith/services/splitting.py:188-255 | every step of requests, jobs, archive changes, row changes and restarts keeps the invariant |
| SplitJobs.ManifestSafety | backend/layersmith/services/splitting.py:87-105 | in every run in which different contents under one file name differ in size or mtime and no path gets an earlier pair back, a manifest that is served has the size, hash and part hashes of the archive on disk at that moment |
| SplitJobs.OneJobPerBuild | backend/layersmith/services/splitting.py:188-211 | at most one job per build is alive at any time, in every run whatsoever |
| SplitJobs.ClaimedExactly | backend/layersmith/services/splitting.py:204-210 | in every run, a request for an archive that is there becomes a job exactly if no job for its build is alive: no build stays marked as running without one |
| SplitJobs.JobsEnd | backend/layersmith/services/splitting.py:225-240 | a job that ends, fails or is cut off by a restart is no longer alive, and its build no longer marked as running |
| SplitJobs.NeverTooMuch | backend/layersmith/services/splitting.py:258-266 | in every run, a job never takes more bytes than its archive had when it was measured, whatever is read while it is replaced |
| SplitJobs.ManifestsChange | backend/layersmith/services/splitting.py:229-235 | a stored manifest changes only when a job for that build commits its own |
| SplitJobs.SplitOnce | backend/layersmith/services/splitting.py:188-255 | a run that writes, registers and splits an archive ends with exactly its manifest |
| SplitJobs.ReusedIdentityIsNotNoticed | backend/layersmith/services/splitting.py:100-104 | why contents must be told apart: for every archive there is a run in which a replacement of the same size and mtime is served under the old manifest |
| BuildLog.LogKeepsFirstLines | backend/layersmith/services/builds.py:304-318 | every log is the first lines emitted, in order, then at most one marker as the last line, and the marker is there exactly when the cap was passed |
| BuildLog.LogIsBounded | backend/layersmith/services/builds.py:304-318 | the log never exceeds the cap by more than one line and the marker |
| BuildLog.LogFile.Emit | backend/layersmith/services/builds.py:304-318 | appends the line, and the marker if that passes the cap; nothing once the log is over it |
| BuildLog.WriterStepKeeps | backend/layersmith/services/builds.py:332-335 | the log only grows, a final status stays, and a failed build's log is complete when `failed` is committed |
| BuildLog.RunWithinCap | backend/layersmith/services/builds.py:304-318 | the bound holds at every moment while only the worker writes, also halfway through a line |
| BuildLog.WriterWritesLines | backend/layersmith/services/builds.py:304-318 | in every run that is not cut off, what is in the log and what is on its way are what emitting the lines one by one makes |
| BuildLog.EmitArrives | backend/layersmith/services/builds.py:313-318 | a line that is emitted is in the log once what is pending has been written |
| BuildLog.Endings | backend/layersmith/services/builds.py:332-335 | how a build ends by its worker, and by a restart after the process died |
| BuildLog.DeadWritesNothing | backend/layersmith/services/builds.py:504-517 | a process that dies loses what it had not written and writes no more |
| BuildLog.AnswerIsFaithful | backend/layersmith/api.py:853-889 | whatever the log was when status and size were read, the text is the log between the two offsets named, and `complete` means a final status and the whole size |
| BuildLog.AnswerAdvances | backend/layersmith/api.py:876-888 | a slice asked for inside the log always advances, so no answer stalls a reader |
| BuildLog.AnswerStartsOnLine | backend/layersmith/api.py:866-879 | a tail starts at the beginning of the log, just after a newline, or in a window without one |
| BuildLog.TailBegins | backend/layersmith/api.py:866-879 | a tail begins exactly `tail` bytes before the size that was read, or at 0; or after the first newline from there, and only one broken line is given up |
| BuildLog.CutExactly | backend/layersmith/api.py:880-886 | a slice is `limit` bytes or what there is; while more is to come it ends with the last newline among them, if there is one |
| Follower.LinesSayText | client/layersmith_client/ops.py:221-225 | the complete lines of a text, each with its newline, are the text up to its last newline |
| Follower.LinesHaveNoNewline | client/layersmith_client/ops.py:221-225 | every yielded line is one line |
| Follower.YieldsSayText | client/layersmith_client/ops.py:221-229 | what was pending and the answer's text are yielded or kept, and nothing else is |
| Follower.AbsorbExact | client/layersmith_client/ops.py:215-229 | a faithful answer loses, repeats and reorders nothing |
| Follower.AnswerToIsFaithful | backend/layersmith/api.py:853-889 | the answer put together from three reads at three moments is faithful to the log as it is when it is sent |
| Follower.DeliverFinished | client/layersmith_client/ops.py:226-231 | after an answer, `finished` means that everything up to where the build ended has been yielded |
| Follower.StepKeeps | client/layersmith_client/ops.py:210-233 | every step of writer, handler, network and client keeps the invariant |
| Follower.FollowerIsExact | client/layersmith_client/ops.py:210-233 | under every interleaving, the lines yielded and the pending text are exactly the log from the starting point to the offset |
| Follower.FollowerStartsOnLine | backend/layersmith/api.py:866-879 | a follower that starts from the tail starts on a line whenever its window has a newline |
| Follower.FirstReplyBegins | backend/layersmith/api.py:866-879 | in every run, a follower of the tail starts where the tail begins, or after the first newline in what the server looked at |
| Follower.NoticeIsExact | client/layersmith_client/ops.py:217-218 | in every run, a follower that starts inside the log says first how many bytes it leaves out, and says so only once; one that starts at the beginning says nothing |
| Follower.OneRequest | client/layersmith_client/ops.py:210-233 | from every state, an undisturbed request takes in the answer to what is wanted next: the tail first, then from the offset on |
| Follower.WriterGoesOn | backend/layersmith/api.py:842-889 | requests never touch the build: its log is where its own steps lead |
| Follower.CompleteAnswerYieldsAll | client/layersmith_client/ops.py:226-231 | the answer that is complete leaves nothing pending: the log from the starting point to its end, which covers the size it was computed with, is yielded |
| Follower.FinishedIsComplete | client/layersmith_client/ops.py:226-231 | `finished` means everything written before the final status has been yielded; for a failed build, the whole log |
| Poll.Server.Interfere | backend/layersmith/services/builds.py:304-335 | the worker may write and finish at any time; what was in the log stays |
| Poll.Server.Serve | backend/layersmith/api.py:842-889 | three reads with the worker running in between, and an answer that may be lost, still name bytes of the log, with a size no smaller than it was at the request |
| Poll.LogFollower.Update | client/layersmith_client/ops.py:216-231 | one answer: the yielded lines and the new fields are those of the client model |
| Poll.LogFollower.Take | client/layersmith_client/ops.py:216-231 | a faithful answer keeps what was yielded and what is pending exactly the log from the starting point on |
| Poll.LogFollower.Turn | client/layersmith_client/ops.py:211-233 | a turn that asks for another has advanced the offset; a lost request changes nothing |
| Poll.LogFollower.PollOffset | client/layersmith_client/ops.py:210-233 | the poll loop ends even while the build writes, by the cap on the log; it yields exactly the log, and without an error all there was when it began; if the build had ended by then, the follower is finished |
| WaitForBuild.Wait | client/layersmith_client/ops.py:260-298 | ends in the first round that has a final status or in which the loss lasted too long; it returns a status exactly if that is final and the last poll of the log came through, and tells exactly the changes of status |
| WaitForBuild.LastPollDecides | client/layersmith_client/ops.py:293-297 | a final answer is returned whatever the connection does next, exactly if there is no log to follow or it has been followed to its end |
| WaitForBuild.ReadyBuildCanBeLost | client/layersmith_client/ops.py:293-297 | a concrete round in which a ready build is reported as unreachable although no time was given to reconnect |
| WaitForBuild.SinceIsLost | client/layersmith_client/ops.py:279-283 | the recorded start of a loss is the time of a round since which nothing got through |
| WaitForBuild.GivesUpExactly | client/layersmith_client/ops.py:279-283 | it gives up exactly when the loss has lasted longer than the patience, for a clock that never reads zero |
| WaitForBuild.ZeroClockStartsOver | client/layersmith_client/ops.py:281 | for every loss that begins when the clock reads zero, the wait is counted from the round after |
| WaitForBuild.ToldOnlyChanges | client/layersmith_client/ops.py:288-292 | no status is reported twice in a row |
| LogBus.Channel.PutNowait | backend/layersmith/services/builds.py:252-256 | a full queue drops the message and keeps the others |
| LogBus.Bus.Subscribe | backend/layersmith/services/builds.py:235-239 | a new, empty queue is added for the build, and no other changes |
| LogBus.Bus.Unsubscribe | backend/layersmith/services/builds.py:241-247 | exactly that queue is gone, other builds keep theirs, and a build without listeners has no entry |
| LogBus.Bus.Publish | backend/layersmith/services/builds.py:249-256 | every listener of the build gets the message once unless its queue is full; nobody else does |
| WebSocket.SentKept | backend/layersmith/api.py:1850-1856 | what was sent stays the replay, then what was drained in order, then the answer of the check if that ended it |
| WebSocket.HeardKept | backend/layersmith/services/builds.py:249-256 | the queue takes what is published since the subscription, all of it unless a message met a full queue |
| WebSocket.ClosedKept | backend/layersmith/api.py:1844-1858 | a socket that has sent `done` is closed, and the other way round |
| WebSocket.ReplayIsSent | backend/layersmith/api.py:1834-1843 | from the replay on, in every state: up to 5000 lines of the file as it was are sent as they are, of more the last 5000 after a note, first and in order |
| WebSocket.EmittedLine | backend/layersmith/services/builds.py:304-319 | an emitted line is in the file exactly if the cap leaves room, is published or waits to be, and neither is taken back |
| WebSocket.ReplayKept | backend/layersmith/api.py:1832-1843 | subscribing before the replay means a line published earlier that went to the file is in the replay or older than it |
| WebSocket.RunKeeps | backend/layersmith/api.py:1825-1862 | the invariant holds in every run of worker and socket |
| WebSocket.DeliveryIsExact | backend/layersmith/api.py:1832-1858 | in every state, closed ones included: what was sent, what waits, and that both are what was published since the subscription |
| WebSocket.ClosedHasSentDone | backend/layersmith/api.py:1844-1858 | a socket the server has closed has sent `done` with the final status, once and last |
| WebSocket.CheckedIsDone | backend/layersmith/api.py:1844-1849 | if the build is finished before the socket checks, then in every continuation it never drains, and when it closes it has sent the replay and that `done` |
| WebSocket.DoneIsNotMissed | backend/layersmith/services/builds.py:249-256 | a `done` announced to a draining socket waits or is sent in every continuation if the queue has room; otherwise in every continuation it is never sent and the socket never closes |
| WebSocket.DoneIsKeptExactly | backend/layersmith/services/builds.py:249-256 | `done` is kept in all continuations exactly if the queue has room when it is announced |
| WebSocket.DrainsInOrder | backend/layersmith/api.py:1850-1858 | what waits in the queue of a draining socket is sent in order, up to the first `done`, and with that it closes |
| WebSocket.KeptReaderFinishes | backend/layersmith/api.py:1850-1858 | a reader whose queue holds `done` gets to its end |
| WebSocket.GoneForGood | backend/layersmith/api.py:1859-1862 | a reader that goes away is sent nothing more |
| WebSocket.AFullQueueMissesDone | backend/layersmith/services/builds.py:252-256 | a run in which ten thousand lines wait and the `done` of a ready build is lost for ever |
| WebSocket.EachLineAtMostTwice | backend/layersmith/api.py:1826-1831 | in every state a line has been sent as often as it is in the replay and in what was drained, never more than twice |
| WebSocket.NothingFromTheWindowOnIsLost | backend/layersmith/api.py:1826-1831 | a line that went to the file before the subscription, or that the queue took after it, is sent or waits unless it is older than the replay, whatever else was dropped or truncated |
| WebSocket.EverythingBeforeDoneIsSent | backend/layersmith/api.py:1850-1858 | once a socket that never met a full queue has closed on its `done`, every line published before it is sent, but those not in the file before the subscription and those older than the replay |
| FollowBuild.Round | client/layersmith_client/ops.py:274-297 | one round against a server that works on: a final answer without loss means the log as the build ended was handed over, all of it for a failed build |
| FollowBuild.Watch | client/layersmith_client/ops.py:260-298 | with a callback for lines, a build returned as finished has that status on the server, and every byte of its log from the starting point to the build's end was handed over, of a failed build's log every byte there is, however often connections were lost |
| Versions.ParseOfShow | backend/layersmith/core/spec.py:25 | a version text reads back as its three numbers exactly while they have at most 4, 4 and 6 digits |
| Versions.NextIsAccepted | backend/layersmith/core/spec.py:97-99 | the next patch of an accepted version is accepted exactly unless the patch was 999999 |
| Versions.LessIsLessNumber | backend/layersmith/core/spec.py:102-103 | versions in range compare as the numbers (major * 10000 + minor) * 1000001 + patch |
| Grammars.VersionIsPattern | backend/layersmith/core/spec.py:25 | a text is accepted as a version exactly if it matches VERSION_RE |
| Builds.BuildService.SetStatus | backend/layersmith/services/builds.py:321-330 | sets the one row, and does nothing for a build that is gone |
| Builds.BuildService.Fail | backend/layersmith/services/builds.py:332-335 | the row fails with the first 4000 characters of the message and nothing else changes; a build that is gone is left alone |
| Builds.BuildService.MakeImage | backend/layersmith/services/builds.py:423-459 | up to the image: the first failing call decides the error, and exactly these rows are committed on the way |
| Builds.BuildService.ExportImage | backend/layersmith/services/builds.py:461-483 | from the checks to `ready`: image and archive fields are committed together with `ready` or not at all |
| Builds.BuildService.Try | backend/layersmith/services/builds.py:406-483 | up to the first failing call or to `ready`: the error, the final row and every row committed in between |
| Builds.BuildService.Run | backend/layersmith/services/builds.py:406-495 | a queued build ends ready with every field its calls returned, or failed with the first error, by exactly these commits, whichever call fails; any other row is untouched |
| Builds.FirstFailureDecides | backend/layersmith/services/builds.py:406-495 | for each call: if it is the first that fails, the build fails with that call's message, up to 4000 characters, after exactly the statuses that come before that call |
| Builds.AllSucceed | backend/layersmith/services/builds.py:406-495 | if every call succeeds the build goes through every status to `ready` |
| Builds.CommitsGoForward | backend/layersmith/services/builds.py:406-495 | whatever the calls answer, every commit of a run is on an active build, never goes back, keeps project, version and image reference, and is `ready` only with digest, image and archive |
| Builds.BuildService.RecoverInterrupted | backend/layersmith/services/builds.py:504-517 | exactly the active rows are failed as interrupted, and their number is returned |
| Builds.NothingActiveAfterRecovery | backend/layersmith/services/builds.py:504-517 | after recovery no row is active and finished rows are as they were |
| Lifecycle.RunIsWork | backend/layersmith/services/builds.py:406-495 | all commits of a run, as events, are steps of the lifecycle machine and leave the row where the run leaves it, with nothing else changed |
| Lifecycle.StartKeeps | backend/layersmith/api.py:770-809 | accepting a build keeps one active build per project and the suggestion above every version |
| Lifecycle.StepKeeps | backend/layersmith/api.py:770-809 | requests, worker steps, recovery and deletion keep the invariant |
| Lifecycle.OneActiveBuildPerProject | backend/layersmith/api.py:782-786 | in every reachable state a project has at most one active build |
| Lifecycle.NothingTwice | backend/layersmith/api.py:658-659 | in every reachable state no two builds of a project have the same version, and no two projects that are not deleted the same name |
| Lifecycle.ExplicitVersion | backend/layersmith/api.py:771-793 | a build asked for by its version is accepted exactly if project and repository are valid, the version is one and not there yet, and nothing is running; then exactly its row is new |
| Lifecycle.Created | backend/layersmith/api.py:638-666 | a created project has the stripped name and repository, by default the name in the namespace |
| Lifecycle.Cloned | backend/layersmith/api.py:742-758 | a clone has its own name and the repository made of that and the source's |
| Lifecycle.ProjectDeleted | backend/layersmith/api.py:762-767 | a deleted project is not found any more and its builds stay |
| Lifecycle.EndedAndDeleted | backend/layersmith/services/builds.py:504-540 | deleting takes exactly a build that has ended, and a restart fails exactly the builds that had not |
| Lifecycle.ReadyIsDownloadable | backend/layersmith/services/builds.py:479-483 | in every reachable state a ready build has a valid repository with its version for a reference, and digest, image and archive |
| Lifecycle.SuggestionNeverDecreases | backend/layersmith/api.py:795-798 | between any two points of a run a project's suggested version, as a number, never goes back |
| Lifecycle.SuggestionIsAboveAll | backend/layersmith/api.py:797-798 | the suggestion is, as a number, above every version the project ever started, out of order and deleted ones included |
| Lifecycle.SuggestionAfterBuild | backend/layersmith/api.py:795-798 | after an accepted build the suggestion's number is the larger of what it was and the built version's plus one |
| Lifecycle.StartedStaysBelow | backend/layersmith/api.py:795-798 | a version that was started is below every later suggestion of its project in every continuation |
| Lifecycle.SuggestionNeverCollides | backend/layersmith/api.py:774-786 | a build without an explicit version is never refused as taken: it is accepted exactly if the patch is below 1000000, the repository is valid and no build is running, and otherwise the first of these decides the answer |
| Lifecycle.CloneBuildsExactly | backend/layersmith/api.py:742-759 | in every reachable state, the first build of a clone is accepted exactly if the clone's name has no hyphen at its end or next to another, and refused for its repository otherwise |
| Lifecycle.StaysRefused | backend/layersmith/api.py:774-779 | a project with an invalid repository refuses every build, with any version, in every continuation that does not change the repository to a valid one |
| Lifecycle.UnbuildableClone | backend/layersmith/api.py:742-759 | a run of two requests after which a project exists that refuses every build |
| Repositories.NameIsComponent | backend/layersmith/core/spec.py:23-24 | a project name is a repository component exactly if it has no hyphen at its end or next to another |
| Repositories.SplitBeside | backend/layersmith/api.py:754-755 | a clone's repository is the source's with the clone's name for its last component |
| Repositories.BesideIsNearly | backend/layersmith/api.py:748-755 | only the last component of a project's repository can fail the pattern, and a clone's repository is valid exactly if its name is a component |
| Repositories.NearlyIsTight | backend/layersmith/core/spec.py:48-52 | stripping changes no project's repository |
| Grammars.NameIsPattern | backend/layersmith/core/spec.py:23 | a text is a project name exactly if it matches NAME_RE |
| Grammars.RepositoryIsPattern | backend/layersmith/core/spec.py:24 | a text is a repository exactly if it matches REPOSITORY_RE |
| Deletion.Unique | backend/layersmith/services/builds.py:538-539 | each path once, and no path lost |
| Deletion.UniqueInOrder | backend/layersmith/services/builds.py:538-539 | and in the order in which the paths came first |
| Deletion.BuildStore.RemoveFiles | backend/layersmith/services/builds.py:536-554 | removes exactly the build's own paths that no other build names and that lie inside a root, and the bytes freed are exactly those removed |
| Deletion.BuildStore.Delete | backend/layersmith/services/builds.py:519-569 | refuses unknown and running builds and then changes nothing; otherwise the row is gone, the disk lost exactly the doomed files, the sum of sizes is conserved, exactly the build's own image goes, if that was asked for and no remaining build is of it, and the notes name exactly what was kept |
| Deletion.OthersFilesStay | backend/layersmith/services/builds.py:532-545 | a file another build names is kept exactly unless the deleted build names the same file by a spelling no other build uses |
| Deletion.OutsideStays | backend/layersmith/services/builds.py:544-546 | nothing outside the allowed roots is removed |
| Deletion.DeleteAll | backend/layersmith/services/builds.py:519-569 | over any sequence of deletions: running builds stay, nothing outside the roots goes, the freed bytes add up, every image that a remaining build is of stays, an image goes with the last build of it if asked for, and while no path is spelled in two ways every remaining build keeps all its files |
| Deletion.SecondSpelling | backend/layersmith/services/builds.py:532-546 | for every image directory: two builds whose stored paths reach one archive by that directory and by way of another; deleting the one takes the archive from the other, and no other file |
| Deletion.SrvImages | backend/layersmith/services/builds.py:473-480 | "/srv/../images/a.tar" and "/images/a.tar" are such paths |
| Deletion.StraightIsOneSpelling | backend/layersmith/services/builds.py:532-546 | without symbolic links, stored paths without ".." never spell one file in two ways |
| Deletion.ArchiveIsStraight | backend/layersmith/services/storage.py:44-51 | in an image directory without "..", as the settings page requires, every archive gets such a path |
| Paths.PathTextIsStored | backend/layersmith/services/builds.py:480 | what str() makes of a path it leaves as it is |
| Paths.FileIn | backend/layersmith/services/builds.py:473-474 | a file in a directory has the directory's parts and its name |
| Paths.EntryIsItself | backend/layersmith/services/builds.py:544 | a stored path resolves to itself exactly if it has no ".." |
| Paths.WalkCancels | backend/layersmith/services/builds.py:544 | wherever they are, a part and the ".." after it cancel, and ".." at the root is nothing |
| Paths.InsideItself | backend/layersmith/services/builds.py:544 | a directory is inside itself, and so is what is below it |
| Models.Write | backend/layersmith/services/llm_models.py:284-295 | chunks are appended until an empty one, and writing stops with the chunk that outgrows the listed size |
| Models.Download | backend/layersmith/services/llm_models.py:269-297 | a partial file is continued, or started over if the range was ignored; what is on disk stays a prefix of the remote file, complete means the listed size, and a full answer completes it |
| Models.SettleExactly | backend/layersmith/services/llm_models.py:284-297 | a download ends as complete exactly with the listed size, and a larger file is refused exactly when it outgrows it |
| Models.SizesAdd | backend/layersmith/services/llm_models.py:227-230 | the sizes that the space check compares add up file by file, each file counting with what of it is there and no more than its listed size |
| Models.DownloadEntry | backend/layersmith/services/llm_models.py:233-240 | one turn of the loop over files leaves the other files alone |
| Models.DownloadAll | backend/layersmith/services/llm_models.py:233-240 | all files have their listed sizes when the loop completes; an honest server never gets anything foreign onto the disk |
| Models.Verify | backend/layersmith/services/llm_models.py:299-317 | passes exactly if the file is there and has the published SHA-256, or failing that the published blob id; a refused file is removed |
| Models.VerifyAll | backend/layersmith/services/llm_models.py:242-245 | refuses exactly if some file does not pass, removing only that one; otherwise records every file's SHA-256 |
| Models.GotAllPasses | backend/layersmith/services/llm_models.py:271-278 | fully fetched files all pass exactly if none is listed as empty |
| Models.ModelService.Retry | backend/layersmith/services/llm_models.py:139-144 | asking again queues a failed model and changes no other |
| Models.ModelService.Recover | backend/layersmith/services/llm_models.py:176-186 | every unfinished model is queued again, whatever it was doing |
| Models.ModelService.Publish | backend/layersmith/services/llm_models.py:242-254 | becomes ready exactly if every file passes and no folder is in the way, and then the folder is what was staged |
| Models.ModelService.Run | backend/layersmith/services/llm_models.py:215-267 | ready always means complete, recorded and verified files; an existing folder is never replaced; with a server that answers in full and a right listing, the attempt succeeds exactly if no folder is in the way and no file is listed as empty |
| Models.ReadyIsRemote | backend/layersmith/services/llm_models.py:215-254 | where the listed size is right, a ready file is the remote file and its recorded SHA-256 is the remote file's |
| Models.Live | backend/layersmith/services/llm_models.py:176-267 | over any sequence of attempts, restarts, crashes and requests, every staged and published file is a prefix of the remote one |
| Models.ReadyIsPresent | backend/layersmith/services/llm_models.py:321-327 | every part of a ready model can be served |
| Models.ReceivedMatchesRecord | backend/layersmith/services/llm_models.py:251-254 | what a receiver unpacks has the recorded SHA-256 and matches what is published |
| References.JoinOfSplit | backend/layersmith/core/spec.py:81-86 | splitting at slashes and joining again is the same text |
| References.AcceptedIsWellFormed | backend/layersmith/core/spec.py:66-94 | whatever is accepted is the whole trimmed input put together again, and its record is well formed |
| References.WellFormedIsAccepted | backend/layersmith/core/spec.py:66-94 | the text of every well-formed record is accepted and gives that record |
| References.ParseIsInverse | backend/layersmith/core/spec.py:66-94 | a text is accepted with a record exactly if the record is well formed and the trimmed text is its text |
| References.Reparses | backend/layersmith/core/spec.py:89-94 | parsing the source of an accepted reference gives the same record |
| References.ByDigestRenders | backend/layersmith/backends/cli.py:103-116 | dropping the tag leaves registry, repository and digest, also for a registry with a port |
| References.ByDigestKeepsIdentity | backend/layersmith/backends/cli.py:103-116 | parsed again, the reference without its tag has the same registry, repository and digest, and no tag |
| References.ByDigestOnce | backend/layersmith/backends/cli.py:110-116 | dropping twice is dropping once, and a reference without a digest is unchanged |
| References.RegistryIsTaken | backend/layersmith/core/spec.py:81-85 | what comes before the first slash is the registry if it has a dot or a colon in it or is localhost |
| References.RegistryWasFirst | backend/layersmith/core/spec.py:81-85 | and only then: a registry is always that |
| Grammars.ReferenceIsPattern | backend/layersmith/core/spec.py:72 | the characters of a reference are checked exactly by its pattern |
| Grammars.TagIsPattern | backend/layersmith/core/spec.py:26 | a text is a tag exactly if it matches TAG_RE |
| Grammars.DigestIsPattern | backend/layersmith/core/spec.py:35 | a text is a digest exactly if it matches DIGEST_RE |
| Grammars.RegistryIsPattern | backend/layersmith/core/spec.py:36 | a text is a registry exactly if it matches REGISTRY_RE |
| Grammars.ComponentIsPattern | backend/layersmith/core/spec.py:86 | a text is a path component exactly if it matches the component pattern |
| Grammars.SafeNameIsPattern | backend/layersmith/services/splitting.py:41 | an archive name is safe exactly if it matches SAFE_NAME |
| LockFile.LinesOfEnded | backend/scripts/lock_training.py:64 | lines written with newlines are read back as the same lines |
| LockFile.LinesAtBreak | backend/scripts/lock_training.py:64 | a line ends at every line break, and "\r\n" is one |
| LockFile.NormaliseOnce | backend/scripts/lock_training.py:48-49 | a normal name is its own normal form |
| LockFile.NormaliseIsNormal | backend/scripts/lock_training.py:48-49 | a normal form is lower case, with single dashes for separators |
| LockFile.NormaliseKeepsNormal | backend/scripts/lock_training.py:48-49 | such a name is its own normal form |
| LockFile.NormaliseIgnores | backend/scripts/lock_training.py:48-49 | case, and what and how many separators stand between two parts, make no difference |
| LockFile.RequirementIs | backend/scripts/lock_training.py:45 | a name, extras or none, and then a pin is a requirement for the package of that name |
| LockFile.RequirementParts | backend/scripts/lock_training.py:45 | and every requirement is that |
| LockFile.Blocks | backend/scripts/lock_training.py:61-78 | the one-pass loop computes the dictionary of the file's groups, or fails at the first line that is no requirement |
| LockFile.BlocksAreWellFormed | backend/scripts/lock_training.py:61-78 | every block starts with a requirement for its package, goes on with indented lines only, and no package has two blocks |
| LockFile.BlocksAreTheLines | backend/scripts/lock_training.py:61-78 | when no package comes twice, the lines of all blocks in order are exactly the lines of the text from the first requirement on that have something on them and are no comment: no hash is lost |
| LockFile.FailsAtFirst | backend/scripts/lock_training.py:70-72 | reading fails with the first line that starts a block and is no requirement |
| LockFile.OtherwiseSucceeds | backend/scripts/lock_training.py:61-78 | and succeeds if there is none |
| LockFile.LastBlockIsKept | backend/scripts/lock_training.py:67-77 | of several blocks for one package the last is kept |
| LockFile.RenderReadsBack | backend/scripts/lock_training.py:139-142 | any such dictionary is read back exactly, in order, from the file written for it |
| LockFile.RoundTrip | backend/scripts/lock_training.py:61-83 | reading, writing and reading again gives the same packages and blocks in the same order |
| LockStack.StripKeepsPackage | backend/scripts/lock_training.py:81-83 | stripping the line continuation keeps the package a requirement is for |
| LockStack.StripExactly | backend/scripts/lock_training.py:83 | exactly the spaces and backslashes at the end are stripped |
| LockStack.PinsReadBack | backend/scripts/lock_training.py:81-83 | the constraints file has every package of the lock at the same pin |
| LockStack.LookupBeyond | backend/scripts/lock_training.py:139 | an add-on keeps a package's block exactly when the base lacks the package |
| LockStack.AddonFile | backend/scripts/lock_training.py:139-142 | the written add-on lock pins what the combined lock pins, less the base's packages |
| LockFile.HeaderChangesNothing | backend/scripts/lock_training.py:144-145 | the comment header in front of a lock changes nothing of what is read from it |
| LockStack.LockAddon | backend/scripts/lock_training.py:136-142 | one turn of the loop over add-ons, from the resolver's answer to the file |
| LockStack.LockStack | backend/scripts/lock_training.py:121-145 | base and add-on locks are what the resolver gives under the joint lock's pins |
| LockStack.FilesAgree | backend/scripts/lock_training.py:10-16 | every file of a stack has the joint lock's pin for every package both name, if the resolver keeps to the joint pins |
| LockStack.AnyCombinationAgrees | backend/scripts/lock_training.py:10-16 | no two files of a stack pin a package of the joint lock differently |
| LockStack.LockIsPart | backend/scripts/lock_training.py:10-16 | a lock of fewer inputs at the joint pins, in which every package has a reason, is part of the joint lock |
| LockStack.FilesAreWithin | backend/scripts/lock_training.py:10-16 | every file of a stack is part of the one joint resolution, if the resolver pins what is required and nothing else |
| LockStack.AnySubsetHasOneVersion | backend/scripts/lock_training.py:10-16 | merging any files of a stack gives at most one version of a package, the joint lock's |
| LockStack.MergeIsComplete | backend/scripts/lock_training.py:10-16 | the base and any add-ons together contain whatever they ask for or require |
| LockStack.AddonsCompleteTheBase | backend/scripts/lock_training.py:139 | add-ons repeat nothing of the base and lose nothing of their combined lock |
| LockStack.OutsideTheJointLockVersionsCanClash | backend/scripts/lock_training.py:10-16 | a concrete stack in which two add-ons clash although the resolver kept to the joint pins; no reading of the packages' requirements makes that resolver a dependency resolver |

## Left out

- SplitJobs.ManifestSafety: holds for runs in which archives of the same file name with different contents differ in size or modification time, wherever they lie, and no path gets a size and time back that it had before; `SplitJobs.ReusedIdentityIsNotNoticed` is a run without that.
- SplitJobs.StepKeeps: threads and requests are steps of one state value, not objects with a lock; the lock's critical section is one step. Progress counters and `status` are not modelled.
- Follower.FinishedIsComplete: for a ready build only what was written before the status was committed, because "Image ready" is emitted after it.
- BuildLog.RunWithinCap: covers the worker's writes; API requests that append to a finished build's log at the same time can pass the cap together.
- WebSocket.EverythingBeforeDoneIsSent: a socket that finds a final status at its check sends that and closes without draining its queue; lines still queued then are not claimed.
- Builds.BuildService.Run: writing to the log is taken to succeed. A write that fails after the commit of `ready` reaches the same handler as a failing call and turns the ready row into a failed one.
- Lifecycle.OneActiveBuildPerProject: requests are atomic steps; two that race between the check and the commit are not modelled, nor is the database's unique constraint.
- Models.ModelService.Run: one model at a time; deleting a model while its download finishes is not modelled, and a folder left by a crash after the rename stays in the way.
- Deletion.OthersFilesStay: files are directory entries under a function from paths to entries; hard links and symbolic links are not modelled; for a symbolic link the code asks for the size of what it points to and removes the link only. `Paths` is about absolute paths with one leading slash. The texts of the notes, the log file and the build context are left out.
- Transfer.TransferModel: the tar headers are a parameter under a contract for the members of the stream (whole blocks, not all zero, read back to kind, name and size), and concatenation stands for the assembling script.
- UTF-8: log text is bytes. Decoding each slice on its own is faithful only if no slice ends inside a character.
- The follower for older servers, which searches for an overlap of texts, and the copy of the log kept in the build's record when the file is gone.
- Ranges.RangedIsExact: numbers are read whatever their length; Python refuses to convert more than 4300 digits, and the answer is then a server error.
- WebSocket.DeliveryIsExact: the log file is a list of whole lines. A replay that reads the file inside a multi-byte character fails to decode and ends the socket without `done`; lines with other line breaks inside, which the replay splits, and the pings while nothing happens are left out.
- ChangingModel.Request: a request finds the disk in one state; files that change while a manifest is computed or while one answer is sent are not modelled.
- FollowBuild.Watch: the messages about lost connections are left out, and requests that fail in other ways than by a lost connection.
- Digits and white space outside ASCII in versions, ranges, references and lock lines.
- The wording of HTTP headers other than the range numbers, the generated scripts, file names' quoting, and the permission bits of archives and files.
- Containers, registries, vulnerability scans, air-gap bundles, recipes, catalogues, the web pages and the command line: calls into them are parameters of the model, or easier copies of what is proved here.
- LockStack.AnySubsetHasOneVersion: what a package requires depends on its name and pin alone; extras that ask for more of a package are not modelled.
- Which wheels exist for a package, and the intermediate files of a lock run that fails halfway.
