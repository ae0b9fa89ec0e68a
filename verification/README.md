# Verification of the remote-hosting path

This project models, in Dafny, how a gateway keeps a remote copy of a source tree in step with
the local one, how the admission gate in front of the remote host decides who gets through, and
the string codecs and small state machines around them. `dafny verify dfyconfig.toml` checks all
of it.

| file | about |
|---|---|
| `Text`, `Ordering`, `Clock` | searching, splitting, trimming, decimal numbers; sorted traversals; saturating durations |
| `Mirror` | the remote mirror as a disk: files, directories, and what stands in a write's way |
| `Supply` | fingerprints, scans with hash reuse, delivering a snapshot |
| `Watch`, `WatchRuns` | the gateway's poll loop as a step system, and when its runs stay in step |
| `EventOrder` | when the order of a poll's events matters on the disk |
| `Staleness`, `LostChanges`, `Convergence` | how old a reused hash can be, which changes are lost, and when the mirror catches up |
| `Upload`, `Ingest`, `FullPass`, `RoundPass` | the two sides of a full pass, both together, and the pass within a poll round |
| `BatchErrors` | what a batch refuses and what it may write, for any pieces whatever |
| `PassHistory` | histories of interrupted and faulty passes |
| `HostedRuns` | runs of the poll loop with the host's staging and index, each pass with its batches |
| `RateLimit`, `TokenList`, `TokenGrammar`, `Admission` | the limiter, the token list and what it accepts, the decision pipeline and its counters |
| `Query`, `Paths`, `GatewayPaths` | printers of queries and paths, their readers in another crate, and which routes a gateway token may call |
| `EnvPlaceholders`, `ExpansionStops`, `SinglePassExpansion` | in-place placeholder expansion, when it stops, and when it is one pass |
| `SearcherCache` | the epoch-keyed cache under every interleaving |
| `RetryState` | the per-file retry state machine |
| `Position`, `Percentile`, `ErrorJson` | byte positions, interpolated percentiles, JSON escaping |

Code that changes state is a class or a method with loops (`Watcher.Poll`, `UploadPass.UploadPaths`,
`IngestHost.HandleIngestBatch`, `AdmissionGate.Handle`, `RateLimiter.CheckRate`, and so on). Its
contract ties the new state to a function of the old one, and the results are about that function.

## Main results

- **Poll loop.** A run stays in step (the baseline has the identities and hashes of the mirror) exactly
  when no round loses a change (`RunInStepIff`). A round loses a change when a read is dropped, the disk
  fails, a file is blocked by another or by a directory, a pass that succeeds has files to remove, or a
  pass that fails has delivered something new.
- **Convergence.** Suppose there is no cache file, baseline and mirror are in step, no file and directory
  have changed places, no chunks of the snapshot are staged, and the index records no hash of it that the
  mirror lacks. Once edits stop, 61 successful rounds bring every file of the tree to the mirror, through
  failed polls and pushes and through passes that are refused, cut short, or not committed, as long as
  the host's disk writes what it is asked to write (`SteadyRunConverges`). That a successful pass then
  leaves out nothing the mirror lacks is proved from what each round leaves in the staging and in the
  index (`TurnOmitsHeld`, `TurnKeepsHost`); `Converges` is the same with this assumed.
- **Hidden changes.** Without a cache file, a change that a poll does not see has the size and time of an
  earlier scan, whose content the poll still reports, and the last full scan is at most 60 scans and less
  than 300 s plus the length of a pass back (`HiddenChangeIsRecent`).
- **Full pass.** Whatever its batches meet and wherever it is cut short, a pass delivers some of the files
  it was asked for and changes nothing else (`DeliveredIsAsked`); without an error it has delivered them
  all (`CleanPassDelivers`). It succeeds exactly if nothing on its way failed (`SyncOnce`), and a pass that
  can succeed does, leaving the mirror with every file (`TruePassHolds`). After any history of such passes, a pass over a sound host has no error, and
  the files it leaves missing are characterised exactly (`ResumedPassDelivers`).
- **Damage.** An event whose bytes are not those of its hash changes nothing (`DamageIsRefused`). Of a file
  one piece of which is damaged or out of range, or two pieces of which clash, a batch stages and writes
  nothing and reports an error, and only of such files and of those the disk fails (`GroupRefusedIff`,
  `BatchRefuses`, `BatchStages`).
- **Event order.** The order of events matters exactly when a write that some order lets through has a
  file above it (`OrderFreeIff`).
- **Admission.** Which request of a run is let through, and why another is not, is said in terms of the
  configured entries and the token's own earlier requests alone (`AdmittedInRunIff`, `RejectedInRunIff`).
  Project scope holds for a request exactly when every project it mentions is one the middleware reads
  (`ScopeIsEnforcedIff`, for queries `AllNamedAreReadIff`). Of all project routes of the API a gateway token
  gets through to the four ingest routes only (`RouteIsGatewayIff`, `GatewayTokenOnRoute`). A token gets at most `(k + 1) * limit - 1`
  requests through in any interval of `k` minutes (`GateSlidingBound`), and this number is reached
  (`SlidingBoundIsMet`).
- **Placeholders.** If no name or no value holds a dollar, the loop stops on every input and is the single
  left-to-right pass exactly when no dollar of a value, or in front of one, completes a placeholder
  (`IsSinglePassIff`); with dollars in both, that is enough but not needed (`CompletingCanBeHarmless`). It stops on every
  input exactly when it stops on every value with any number of dollars before it (`StopsOnAllIff`).
- **Cache.** The searcher cache is invisible under every interleaving exactly when an epoch determines its
  index (`TransparentIff`).
- **Token lists.** What the list accepts, what it makes of it and why it refuses the rest is said in terms of
  the text alone (`ItemAcceptedIff`, `ItemEntry`, `ListAcceptedIff`).
- **Codecs.** Percent encoding, token lists, expanded paths, positions and error envelopes are inverted by
  their readers, with the exact condition where they are not total.

## Where the code does not do what its documentation says

- `read_event` is documented to drop drifted reads "so the next poll can reconverge"
  (crates/app/cce-gateway/src/watch.rs:219-223). The baseline advances all the same. The next poll repairs
  the file exactly when its content differs from what the dropped event's scan saw
  (`LostChanges.RetriedIff`): a lasting drift is sent (`DriftIsSentNext`), but one that goes back is not,
  ever (`DriftAndBackStaysLost`), and the same holds for a file that could not be read at all
  (`UntouchedWhileUnchanged`).
- A full pass never removes a file from the mirror: neither the manifest, the batch nor the commit entry
  deletes one. When a poll falls back to a full pass, its removals are lost for good although the baseline
  drops them (`LostChanges.FallbackForgetsRemovals`; exact conditions `Watch.PassInStepIff`,
  `Convergence.TrueRoundSettlesIff`).
- A full pass that fails has already written completed files, while the baseline stays: if the tree goes
  back, what it wrote stays on the mirror (`LostChanges.FailedPassStays`; `Watch.FailedPassInStepIff`).
- A file whose chunks are all staged counts as received even if its mirror file could not be written. Until
  a commit drops the staging, passes succeed without it (`PassHistory.MissingIff`, `RetryForgets`); the
  commit of the next pass makes the one after it ask again (`CommitAsksAgain`).
- The events of a poll are sent with creations first. Where a file has become a directory, the creation is
  blocked and the deletion then takes the old file away (`EventOrder.FileBecomesDirectory`). Where a
  directory has become a file, the file never arrives (`WatchRuns.DirectoryStays`).
- The bound on hash reuse documented at crates/app/cce-gateway/src/watch.rs:25-30 is 300 s plus the time
  a pass takes after its scan, because the loop notes the time at which the pass is over; and there is no
  bound at all with a cache file (`Staleness.AlwaysFreshIff`, `Staleness.SlowPass`).
- Project scope is documented to be "enforced uniformly" from the query string too
  (crates/app/cce-admission/src/middleware.rs:4-7). The reader gives up at the first pair without an equals
  sign and stops at the first `project_id`, so the query `x&project_id=9` is let through for tokens that do
  not cover 9, and a second `project_id` is not checked (`Query.AllNamedAreReadIff`, `NamedButNotRead`,
  `Admission.UncheckedProjectIsAdmitted`).
- A rate limit of `u32::MAX` limits nothing, because the count saturates (`RateLimit.BoundedIff`).
- A dead letter can return to retrying (`RetryState.DeadLetterCanRetry`).

## Model

| member | source | states |
|---|---|---|
| Supply.TrueScan | crates/infra/cce-scanner/src/walker.rs:1083-1105 | a scan that reuses no wrong hash gives what a full scan gives, stands for the tree's contents, and leaves entries that are right again |
| Supply.DeliverIsSnapshotIff | crates/app/cce-server/src/api/handlers/ingest/manifest.rs:62-107 | after a delivery the mirror is the snapshot exactly when it held nothing else and already held what was not written |
| Watch.PollEventsExact | crates/app/cce-gateway/src/watch.rs:121-152 | each identity has at most one event, and exactly the events its baseline entry, its current entry and its read call for |
| Watch.EventKindIff | crates/app/cce-gateway/src/watch.rs:124-152 | created, modified and deleted say which side has the identity; exactly the deletions carry no content |
| Watch.SentUnderHash | crates/app/cce-gateway/src/watch.rs:224-247 | every created or modified event carries the bytes read, within the bound, under the snapshot's hash of its path, which is theirs |
| Watch.DamageIsRefused | crates/app/cce-server/src/api/handlers/ingest/event.rs:78-92 | with any other bytes, or none, such an event changes nothing on the server; with its own it writes them where nothing blocks |
| Watch.EventWritesVerified | crates/app/cce-server/src/api/handlers/ingest/staging.rs:326-354 | whatever an event says, only a file within the bound and with the event's hash is written |
| Watch.CollectEvents | crates/app/cce-gateway/src/watch.rs:121-152 | the two loops collect exactly the specified events, in order |
| Watch.ChangeEvent | crates/app/cce-gateway/src/watch.rs:124-142 | the branch taken for a current file yields the event its baseline entry calls for |
| Watch.ApplyAllAt | crates/app/cce-server/src/api/handlers/ingest/event.rs:58-112 | with distinct paths, what stands at a path is the effect of its own event on the disk its predecessors leave |
| Watch.WritesKeepBlocked | crates/app/cce-server/src/api/handlers/ingest/event.rs:78-92 | writes of one tree's files do not get in each other's way |
| Watch.PollEffectAt | crates/app/cce-gateway/src/watch.rs:121-152 | after a poll's events a path holds what was read, nothing if gone, or what it held if its event was dropped, failed or blocked from the start |
| Watch.NoEventsIff | crates/app/cce-gateway/src/watch.rs:153-157 | under verified reads the list is empty exactly when baseline and snapshot match |
| Watch.DiffExactIff | crates/app/cce-gateway/src/watch.rs:121-153 | on a mirror in step, verified events on a sound disk give exactly the current snapshot when and only when no file to be written is blocked |
| Watch.LossFreeKeepsStep | crates/app/cce-gateway/src/watch.rs:194-208 | a push that loses nothing keeps mirror and baseline in step, hash-less entries included |
| Watch.KeepsStepIff | crates/app/cce-gateway/src/watch.rs:194-208 | the baseline advances whatever was dropped, failed or blocked; it stays in step exactly when nothing was |
| Watch.InStepIsSnapshotIff | crates/app/cce-gateway/src/watch.rs:37-43 | in step with a hashed baseline means being what the baseline stands for |
| Watch.PassInStepIff | crates/app/cce-gateway/src/watch.rs:169-186 | a fallback pass that succeeds ends in step exactly when the mirror had no file to be removed and nothing lacking was left out |
| Watch.FailedPassInStepIff | crates/app/cce-gateway/src/watch.rs:187-193 | one that fails leaves the old baseline in step exactly when it delivered nothing the baseline does not have |
| Watch.RemoteHost.PostEvent | crates/app/cce-server/src/api/handlers/ingest/event.rs:37-130 | a request that fails changes nothing; one that is taken applies its events in turn |
| Watch.Watcher.constructor | crates/app/cce-gateway/src/watch.rs:57-62 | the loop starts from the first pass, with the time at which that is over |
| Watch.Watcher.Poll | crates/app/cce-gateway/src/watch.rs:88-216 | one round of the loop takes baseline, entries, counters and the mirror through exactly one step of the model |
| Watch.StepKeepsStep | crates/app/cce-gateway/src/watch.rs:88-216 | every kind of round that loses nothing keeps baseline and mirror in step |
| Watch.RunKeepsStep | crates/app/cce-gateway/src/watch.rs:88-216 | so does every run of rounds, through failed rescans, pushes and passes |
| EventOrder.BlockedIffNotLive | crates/app/cce-server/src/api/handlers/ingest/event.rs:78-92 | without a clash a write is blocked at its turn exactly when no order lets it through |
| EventOrder.NoClashIsOrderFree | crates/app/cce-server/src/api/handlers/ingest/event.rs:58-112 | without a clash every order of the events leaves the same files |
| EventOrder.ClashWithMirror | crates/app/cce-server/src/api/handlers/ingest/event.rs:93-110 | a write below a file that is to go fails or succeeds with the order |
| EventOrder.ClashOfWrites | crates/app/cce-server/src/api/handlers/ingest/event.rs:78-92 | of two writes one above the other the first wins |
| EventOrder.OrderFreeIff | crates/app/cce-server/src/api/handlers/ingest/event.rs:58-112 | events with distinct paths leave the same files in every order exactly when no write that can take effect has a file above it, on the mirror or among the other such writes |
| EventOrder.FileBecomesDirectory | crates/app/cce-gateway/src/watch.rs:124-152 | the order a poll produces loses a file whose directory was a file; the reverse order does not |
| WatchRuns.StepKeepsStepIff | crates/app/cce-gateway/src/watch.rs:88-216 | a round from a hashed baseline in step stays in step exactly when it loses nothing, passes that fail half-way included |
| WatchRuns.RunInStepIff | crates/app/cce-gateway/src/watch.rs:88-216 | a run is in step after every round exactly when no round loses a change |
| WatchRuns.RunFromFirstPass | crates/app/cce-gateway/src/watch.rs:57-62 | from the first pass over any earlier mirror: always in step exactly when that pass left nothing to remove or deliver and no round loses a change |
| WatchRuns.StepStaysOnDisk | crates/app/cce-gateway/src/watch.rs:88-216 | every round leaves a mirror that a disk can hold, with no directory fewer |
| WatchRuns.DirectoryStays | crates/app/cce-server/src/api/handlers/ingest/event.rs:93-108 | where a directory once was, no run ever puts a file |
| Staleness.StepIsFresh | crates/app/cce-gateway/src/watch.rs:91-114 | without a cache file a round keeps the reuse bound and the meaning of both counters |
| Staleness.RunIsFresh | crates/app/cce-gateway/src/watch.rs:31-34 | without a cache file and with passes that last at most d, every reusing scan of every run has a full scan at most 60 scans and less than 300 s plus d before it |
| Staleness.RunIsSeen | crates/app/cce-gateway/src/watch.rs:91-117 | without a cache file, every entry the loop keeps was what a full scan would have made of the file at one of the scans since the last full one |
| Staleness.HiddenChangeIsRecent | crates/app/cce-gateway/src/watch.rs:27-30 | a change that a poll does not see has the size and time of a scan since the last full one, whose content the poll reports, and that full scan is at most 60 scans and less than 300 s plus d back |
| Staleness.ToggleStep | crates/app/cce-gateway/src/watch.rs:169-186 | a round that falls back reuses hashes in its poll, and in its pass exactly when there is a cache file; the loop notes when the pass is over |
| Staleness.ToggleTrace | crates/app/cce-gateway/src/watch.rs:169-193 | with a cache file some runs of any length, with the loop's sleep between their rounds, consist of reusing scans only |
| Staleness.NeverFullAgain | crates/app/cce-gateway/src/sync.rs:36-46 | so with a cache file no reuse bound holds |
| Staleness.SlowPass | crates/app/cce-gateway/src/watch.rs:172-179 | a pass that takes d after its scan lets a poll reuse hashes that are 300 s plus d, less a nanosecond, old |
| Staleness.AlwaysFreshIff | crates/app/cce-gateway/src/watch.rs:88-193 | with passes that last at most d and any sleep below 300 s between rounds, reused hashes are always less than a limit old exactly when there is no cache file and the limit is at least 300 s plus d |
| LostChanges.QuietStep | crates/app/cce-gateway/src/watch.rs:153-157 | once the baseline tells the truth, a round over the unchanged tree touches nothing |
| LostChanges.LostStaysLost | crates/app/cce-gateway/src/watch.rs:208-208 | so what the mirror lacks then it lacks for good, forced full scans notwithstanding |
| LostChanges.UntouchedWhileUnchanged | crates/app/cce-gateway/src/watch.rs:124-142 | while one file is scanned with the fingerprint the baseline has, no run of polls touches it on the mirror, whatever happens to other files |
| LostChanges.RetriedIff | crates/app/cce-gateway/src/watch.rs:219-247 | after a poll that drops a file's event, the next one repairs the file exactly when its content has changed since the first one's scan |
| LostChanges.DriftAndBackStaysLost | crates/app/cce-gateway/src/watch.rs:235-240 | a read that drifts is dropped; if the file goes back to what was scanned, no later poll sends it |
| LostChanges.DriftIsSentNext | crates/app/cce-gateway/src/watch.rs:219-223 | where the drift lasts, the next poll sends it |
| LostChanges.FallbackForgetsRemovals | crates/app/cce-gateway/src/watch.rs:169-193 | a file removed in a round that falls back stays on the mirror through every later round |
| LostChanges.FailedPassStays | crates/app/cce-gateway/src/watch.rs:187-193 | what a failed pass has delivered stays if the tree goes back to what the baseline describes |
| Convergence.ClearIfTreesAgree | crates/app/cce-server/src/api/handlers/ingest/staging.rs:326-354 | nothing blocks a tree's files if no path of it is a directory of one the mirror ever held, or the other way round |
| Convergence.SoundKept | crates/app/cce-gateway/src/watch.rs:121-153 | events read from an unchanging tree never credit the mirror with content it lacks |
| Convergence.ClearStays | crates/app/cce-gateway/src/watch.rs:88-216 | over an unchanging tree nothing ever comes to stand in a file's way |
| Convergence.Progress | crates/app/cce-gateway/src/watch.rs:88-216 | without a cache file, every round over an unchanging tree whose pass leaves out nothing lacking settles the mirror or comes no further from it, and a successful one comes closer |
| Convergence.RunSettles | crates/app/cce-gateway/src/watch.rs:88-216 | as many such successful rounds as the counters still allow settle the mirror, failed ones in between or not |
| Convergence.LeftoversShrink | crates/app/cce-gateway/src/watch.rs:88-216 | no round over an unchanging tree adds a file that the tree does not hold |
| Convergence.Converges | crates/app/cce-gateway/src/watch.rs:88-216 | without a cache file, from a state in step in which no file and directory have changed places, 61 successful rounds over an unchanging tree, whose successful passes leave out nothing that the mirror lacks, deliver every file of it, whatever stale hashes were reused, and nothing else remains if nothing waited to be removed |
| Convergence.ConvergesByEvents | crates/app/cce-gateway/src/watch.rs:169-208 | when the threshold covers every known file, no pass is taken, nothing is assumed of passes, and removals arrive too: the mirror becomes the tree |
| Convergence.TrueRoundSettlesIff | crates/app/cce-gateway/src/watch.rs:88-216 | without a cache file, the first successful round with true hashes brings the mirror to the tree exactly when its changes go as events of which none is blocked, or a pass that leaves out nothing lacking meets no blocked file and nothing waited to be removed |
| HostedRuns.SkippedIsHeld | crates/app/cce-server/src/api/handlers/ingest/manifest.rs:66-93 | a host with a sound staging and index asks for every file of the snapshot that its mirror lacks |
| HostedRuns.TruePassHolds | crates/app/cce-gateway/src/sync.rs:71-157 | over a sound host, such a pass succeeds and leaves the mirror with every file of the snapshot |
| HostedRuns.BatchesKeep | crates/app/cce-server/src/api/handlers/ingest/batch.rs:94-181 | the batches of a pass, refused or cut short or with chunks that cannot be staged, keep the staging sound and lose no file of the mirror |
| HostedRuns.SameMirror | crates/app/cce-gateway/src/watch.rs:169-208 | the mirror that a round's batches or events leave is the one of the loop's step |
| HostedRuns.TurnOmitsHeld | crates/app/cce-gateway/src/watch.rs:169-186 | over an unchanging tree and a sound host, a successful pass leaves out nothing that the mirror lacks |
| HostedRuns.TurnKeepsHost | crates/app/cce-server/src/api/handlers/ingest/staging.rs:470-513 | every round over an unchanging tree keeps the host sound, with its batches or events, its commit and its index run |
| HostedRuns.SteadyRunIsStatic | crates/app/cce-gateway/src/watch.rs:88-216 | so does every run, whose loop does what the loop's own run does and whose passes leave out nothing lacking |
| HostedRuns.SteadyRunConverges | crates/app/cce-gateway/src/watch.rs:88-216 | the convergence of the loop with nothing assumed of what passes leave out, from a sound host whose disk writes what it is asked to |
| Upload.ChunksReassemble | crates/app/cce-gateway/src/sync.rs:221-233 | the chunk slices of a file are in range and concatenate to its bytes |
| Upload.WantedIff | crates/app/cce-gateway/src/sync.rs:173-187 | a chunk is wanted exactly when its whole file is to be uploaded or it is missing on its own |
| Upload.UploadPass.Flush | crates/app/cce-gateway/src/sync.rs:306-328 | posts and empties the batch, moves no piece, and accounts for the answer |
| Upload.UploadPass.Push | crates/app/cce-gateway/src/sync.rs:237-260 | adds one piece to what is sent and leaves no batch that is due |
| Upload.UploadPass.UploadFile | crates/app/cce-gateway/src/sync.rs:194-262 | one file contributes its wanted pieces in order, or exactly one error |
| Upload.UploadPass.ReportVanished | crates/app/cce-gateway/src/sync.rs:263-267 | every upload that left the snapshot is reported |
| Upload.UploadPass.UploadPaths | crates/app/cce-gateway/src/sync.rs:164-283 | the posted batches together are exactly the wanted pieces, the local errors exactly the problems, every batch is bounded and all but the last were due, and there is no error exactly when no file had a problem or vanished and every batch was accepted |
| Upload.SentExactly | crates/app/cce-gateway/src/sync.rs:173-262 | each wanted chunk of a verified file below its total is sent exactly once, in (identity, index) order, and nothing else |
| Upload.AllPiecesExact | crates/app/cce-gateway/src/sync.rs:192-262 | the same for any sorted list of files |
| Upload.ProblemsExact | crates/app/cce-gateway/src/sync.rs:196-220 | the reported problems are exactly those of the wanted files |
| Upload.NoProblemIff | crates/app/cce-gateway/src/sync.rs:196-220 | a file can be sent exactly when it is read as it was scanned and is within the bound |
| Upload.PieceCarriesSlice | crates/app/cce-gateway/src/sync.rs:228-248 | a piece carries its slice or a shorter packing of it, packed exactly when asked for and shorter, under the hashes of slice and file and with the file's total |
| Upload.WholeFileSentOrReported | crates/app/cce-gateway/src/sync.rs:194-262 | a file to upload whole is reported, or all its chunks are sent and give back its bytes |
| Upload.CountsBound | crates/app/cce-gateway/src/policy.rs:18-22 | full batches and heavy batches are bounded by the chunks and the bytes sent |
| Upload.FullBatchesBounded | crates/app/cce-gateway/src/policy.rs:18-22 | all batches but the last are at most chunks / 16 plus wire bytes / budget many |
| Ingest.HandleIngestManifest | crates/app/cce-server/src/api/handlers/ingest/manifest.rs:59-112 | the loop collects exactly the two specified lists, which ask for exactly the specified chunks |
| Ingest.ManifestAnswer | crates/app/cce-server/src/api/handlers/ingest/manifest.rs:62-112 | the first list has exactly the manifest's files that are not recorded as they are and of which nothing is received, the second exactly the chunks not received of those partly received, each once and in order |
| Ingest.RecordedAsksNothing | crates/app/cce-server/src/api/handlers/ingest/manifest.rs:66-83 | of a snapshot that the index records nothing is asked |
| Ingest.AskedIff | crates/app/cce-server/src/api/handlers/ingest/manifest.rs:62-107 | asked for are exactly the chunks below the total that are not yet staged, of the files neither fresh nor fully received |
| Ingest.SomethingAsked | crates/app/cce-server/src/api/handlers/ingest/manifest.rs:89-107 | of every file that is not skipped some chunk is asked for |
| Ingest.IngestHost.HandleIngestBatch | crates/app/cce-server/src/api/handlers/ingest/batch.rs:94-181 | groups the batch by file, takes each group in order, counts those it completes and reports those that fail |
| BatchErrors.GroupRefusedIff | crates/app/cce-server/src/api/handlers/ingest/staging.rs:384-439 | a file's group is refused exactly when one of its pieces is damaged or out of range, two of them clash in index, total or file hash, or its chunks cannot be kept |
| BatchErrors.BatchRefuses | crates/app/cce-server/src/api/handlers/ingest/batch.rs:94-181 | of such a file nothing is staged, nothing is written and an error is reported; a file not mentioned is untouched and not reported |
| BatchErrors.BatchStages | crates/app/cce-server/src/api/handlers/ingest/batch.rs:94-181 | of every other file all pieces are staged, whatever is wrong elsewhere in the batch |
| BatchErrors.BatchWritesVerified | crates/app/cce-server/src/api/handlers/ingest/staging.rs:326-354 | whatever a batch holds, it changes the mirror only to files within the bound with the hash that all their pieces give |
| BatchErrors.DamagedIsAskedAgain | crates/app/cce-server/src/api/handlers/ingest/staging.rs:295-322 | a chunk that was asked for and came damaged is asked for again |
| FullPass.StageGroupShape | crates/app/cce-server/src/api/handlers/ingest/staging.rs:384-513 | of a file's group all or nothing is staged, and its mirror file is written exactly when all chunks are there and it can be, with the hashed content |
| FullPass.BatchTook | crates/app/cce-server/src/api/handlers/ingest/batch.rs:94-181 | what a batch does to one file, with and without errors; files it does not mention it leaves alone |
| FullPass.BatchesTook | crates/app/cce-server/src/api/handlers/ingest/staging.rs:470-513 | the same for the batches of a pass, however files are split over them and whichever batches are refused |
| FullPass.PassDelivers | crates/app/cce-server/src/api/handlers/ingest/staging.rs:470-513 | whatever becomes of its batches, a pass leaves the mirror as a delivery of the files it completed |
| FullPass.SentOf | crates/app/cce-gateway/src/sync.rs:173-262 | a pass sends nothing of a file not asked for, and every chunk still missing of one that was |
| FullPass.DeliveredIsAsked | crates/app/cce-server/src/api/handlers/ingest/batch.rs:94-181 | cut short anywhere and with any faults, a pass delivers some of the files asked for that nothing blocked, and nothing else |
| FullPass.CleanPassDelivers | crates/app/cce-server/src/api/handlers/ingest/staging.rs:458-513 | a pass without an error delivers exactly the files it was asked for; nothing is removed |
| FullPass.UploadAsked | crates/app/cce-gateway/src/sync.rs:86-124 | what is posted is what the manifest's answer asks for, in bounded batches, without an error exactly when every file asked for could be sent and every batch was accepted |
| FullPass.SyncOnce | crates/app/cce-gateway/src/sync.rs:36-157 | manifest, uploads and commit over the scan's snapshot: what is posted and what the host is left with are those of the manifest's answer, success is exactly that nothing on the way failed, some of the files asked for are delivered whatever comes of it, and all of them if it succeeds and the answers were the host's |
| FullPass.NothingAskedSucceeds | crates/app/cce-gateway/src/sync.rs:109-124 | a retry of which nothing is asked sends nothing and has no error |
| RoundPass.PassIsRound | crates/app/cce-gateway/src/watch.rs:169-193 | every such pass, its batches cut short anywhere, is one the poll loop's step allows for, with the same mirror and the same outcome |
| RoundPass.CleanPassOmits | crates/app/cce-gateway/src/watch.rs:172-177 | what a clean pass leaves out is held exactly when the host already has every file it did not ask for |
| PassHistory.AssembledIsSlices | crates/app/cce-server/src/api/handlers/ingest/staging.rs:514-533 | reassembly of true chunks in index order is the file's slices |
| PassHistory.StageGroupTrue | crates/app/cce-server/src/api/handlers/ingest/staging.rs:384-513 | true pieces on top of true chunks leave true chunks, and fail only where the disk does |
| PassHistory.BatchesTrue | crates/app/cce-server/src/api/handlers/ingest/batch.rs:94-181 | so do the batches of a pass under any faults; without faults none of them has an error |
| PassHistory.FaultlessPassIsClean | crates/app/cce-server/src/api/handlers/ingest/batch.rs:94-181 | chunks that are cut, packed, batched, unpacked, staged and put together again raise no error on a host without faults |
| PassHistory.TruePassSucceeds | crates/app/cce-gateway/src/sync.rs:71-157 | with true reads, a host without faults and its own answers, what is posted succeeds exactly if the commit does and delivers exactly what was asked for |
| PassHistory.PassesAccounted | crates/app/cce-server/src/api/handlers/ingest/staging.rs:470-513 | over every history of passes a file complete in the staging was written, or could not be written since the staging was last dropped |
| PassHistory.MissingIff | crates/app/cce-server/src/api/handlers/ingest/manifest.rs:89-93 | after any history of passes over a snapshot, an error-free one leaves missing exactly the files missing at first, never written since, and wrongly recorded as indexed or complete but unwritten since the staging was last dropped |
| PassHistory.UnwrittenIsNotAskedAgain | crates/app/cce-server/src/api/handlers/ingest/manifest.rs:89-93 | a file whose last chunk comes when its mirror file cannot be written is not asked for again |
| PassHistory.RetryForgets | crates/app/cce-server/src/api/handlers/ingest/manifest.rs:89-93 | for a snapshot of that file the retry has no error and leaves it missing |
| PassHistory.CommitAsksAgain | crates/app/cce-server/src/api/handlers/ingest/commit.rs:198-200 | a commit that drops the staging makes every file that is not fresh be asked for again |
| PassHistory.CommitSettlesIndex | crates/app/cce-server/src/api/handlers/ingest/manifest.rs:66-83 | a commit after which the index records the snapshot leaves nothing to ask for |
| PassHistory.ResumedPassDelivers | crates/app/cce-server/src/api/handlers/ingest/manifest.rs:15-20 | after any interrupted and faulty passes over one snapshot, a pass over a sound host has no error and leaves missing exactly the files that MissingIff names |
| RateLimit.RateLimiter.CheckRate | crates/app/cce-admission/src/middleware.rs:91-107 | a request changes only its token's bucket, as one hit of a window opened on demand |
| RateLimit.TokensAreIndependent | crates/app/cce-admission/src/middleware.rs:95-106 | what a token gets depends on its own requests alone |
| RateLimit.BoundFromInside | crates/app/cce-admission/src/middleware.rs:101-106 | from an open window on, at most its rest and one limit per window that still fits are admitted |
| RateLimit.BoundFromBefore | crates/app/cce-admission/src/middleware.rs:101-106 | a window opened before the interval has already spent one request |
| RateLimit.SlidingBound | crates/app/cce-admission/src/middleware.rs:91-107 | in any interval of k minutes at most (k + 1) * limit - 1 requests of a token are admitted |
| RateLimit.SlidingBoundIsMet | crates/app/cce-admission/src/middleware.rs:91-107 | for every limit and k some run reaches that number |
| RateLimit.ExtremeLimitsAdmitAll | crates/app/cce-admission/src/middleware.rs:92-106 | limits zero and u32::MAX admit everything |
| RateLimit.BoundedIff | crates/app/cce-admission/src/middleware.rs:91-107 | the sliding bound holds exactly for limits strictly between them |
| TokenList.SortDedupSorts | crates/app/cce-admission/src/config.rs:262-263 | the project list becomes strictly ascending with the same elements |
| TokenList.ParseProjects | crates/app/cce-admission/src/config.rs:254-261 | the id loop reads exactly the non-empty trimmed parts, failing at the first that is no id |
| TokenList.ParseTokenItem | crates/app/cce-admission/src/config.rs:223-268 | one item is parsed as the grammar says, with the reason of each failure |
| TokenList.ParseTokenEnv | crates/app/cce-admission/src/config.rs:219-276 | the whole list likewise |
| TokenList.ParsePrint | crates/app/cce-admission/src/config.rs:219-276 | parsing a printed list returns its entries with normalised project lists |
| TokenList.ParsePrintParse | crates/app/cce-admission/src/config.rs:219-276 | on every accepted input, quota-only scopes included, entries are well formed and parse after print after parse is parse |
| TokenList.PrintReadsBackIff | crates/app/cce-admission/src/config.rs:219-276 | a list survives exactly when it is non-empty and its entries are printable |
| Text.ParseI64Iff | crates/app/cce-admission/src/config.rs:255-259 | a text is read as an i64 exactly when it is the number's decimal digits with any zeros and a fitting sign before them |
| TokenGrammar.ItemAcceptedIff | crates/app/cce-admission/src/config.rs:223-268 | for any token, comma-free project parts and quota: the item is accepted exactly when the token is not blank, the quota is a positive u64 and every part that is not blank is an i64, and the reason for a refusal is the first of these that fails |
| TokenGrammar.ItemEntry | crates/app/cce-admission/src/config.rs:223-268 | the entry has the trimmed token, the quota, and exactly the parts' numbers in ascending order |
| TokenGrammar.BareItem | crates/app/cce-admission/src/config.rs:223-230 | an item without a scope is a token without projects and quota |
| TokenGrammar.ItemForm | crates/app/cce-admission/src/config.rs:226-254 | every item with a scope has that form |
| TokenGrammar.ListAcceptedIff | crates/app/cce-admission/src/config.rs:219-276 | a list is accepted exactly when some item is not blank and all that are not are accepted; its entries are theirs in order |
| TokenGrammar.BadProjectIsRefused | crates/app/cce-admission/src/config.rs:255-259 | one project that is no number makes the whole list be refused |
| Admission.AdmittedInRunIff | crates/app/cce-admission/src/middleware.rs:177-311 | a request of a run is let through as the holder of a configured entry exactly when it presents that entry's token on a path it may call, while the window of the token's own requests has room, with a bounded body, and every project it names is covered by the entry |
| Admission.OnlyHoldersAdmitted | crates/app/cce-admission/src/middleware.rs:197-221 | nobody else is let through |
| Admission.OwnBucket | crates/app/cce-admission/src/middleware.rs:91-107 | a token's bucket is what its own requests leave, whatever other requests do |
| Admission.BucketIs | crates/app/cce-admission/src/middleware.rs:97-106 | a bucket holds the opener of the last window and the number of hits since |
| Admission.EqualHashes | crates/app/cce-admission/src/token.rs:25-31 | the accumulated difference is zero exactly for equal digests |
| Admission.Validate | crates/app/cce-admission/src/config.rs:177-215 | accepts exactly the configurations with tokens of sufficient length, positive projects, distinct digests and no empty prefix, and gives a reason that holds of any other |
| Admission.FindHashIsFindEntry | crates/app/cce-admission/src/token.rs:69-104 | the hashed store finds what a search of the plain entries would |
| Admission.AuthenticatesEntries | crates/app/cce-admission/src/token.rs:96-104 | under a valid configuration each store authenticates exactly its own tokens |
| Admission.IdentifiesConfigured | crates/app/cce-admission/src/middleware.rs:197-207 | a request is exactly who its presented token says, management tokens first |
| Admission.BearerWins | crates/app/cce-admission/src/middleware.rs:136-158 | a well-formed bearer header decides, whatever the other header holds |
| Admission.BearerIff | crates/app/cce-admission/src/middleware.rs:136-150 | an authorization header counts exactly when its scheme reads bearer in any case and its token is not blank, and then decides |
| Admission.ApiTokenCounts | crates/app/cce-admission/src/middleware.rs:151-158 | otherwise the other header's text between white space does, if there is any |
| Admission.AdmissionMetrics.Record | crates/app/cce-admission/src/metrics.rs:21-62 | an outcome bumps its own counter and no other |
| Admission.CollectCandidates | crates/app/cce-admission/src/middleware.rs:250-289 | collects path, query and body ids in order, and fails exactly for an inspected body over the bound |
| Admission.AdmissionGate.constructor | crates/app/cce-admission/src/middleware.rs:67-79 | the gate starts with no bucket and zero counters over the configured stores |
| Admission.AdmissionGate.Handle | crates/app/cce-admission/src/middleware.rs:177-311 | the middleware takes exactly the specified decision, charges exactly the specified bucket and counts it once |
| Admission.HolderOutcome | crates/app/cce-admission/src/middleware.rs:177-311 | in a run, what becomes of a configured holder's request depends on the request, its entry and its own earlier requests alone |
| Admission.RejectedInRunIff | crates/app/cce-admission/src/middleware.rs:182-306 | a request of a run is rejected for want of a token exactly when it presents no configured one, for its rate exactly when the window of the token's own requests is full, for its body or its scope exactly when there is room and the body is too long, or the path or a project it names is not the holder's |
| Admission.GatewayTokenStaysInIngest | crates/app/cce-admission/src/middleware.rs:222-234 | in a run, a gateway token's request to a path without /ingest/ before its query is rejected, whatever its projects |
| Admission.GatewayTokenOnRoute | crates/app/cce-admission/src/middleware.rs:222-234 | so to every project route of the API but the four ingest routes, for any project and query |
| Admission.PublicPathIff | crates/app/cce-admission/src/context.rs:75-79 | a public path is a configured prefix, alone or with whole segments behind it |
| Admission.JsonBodyIsChecked | crates/app/cce-admission/src/middleware.rs:256-306 | in a run, a JSON body is rejected exactly when it is over the bound and not a GET's, and a request whose body names a project not covered is rejected |
| Admission.ScopeIsEnforcedIff | crates/app/cce-admission/src/middleware.rs:4-7 | every token that a request passes for covers every project it mentions exactly when all of these are among those the middleware reads |
| Admission.AdmittedWithinScope | crates/app/cce-admission/src/middleware.rs:250-306 | in a run, who is let through covers every project that path, query and body mention, if the query's are all read |
| Admission.UncheckedProjectIsAdmitted | crates/app/cce-admission/src/middleware.rs:161-170 | with the query `x&project_id=9` a holder is let through whether it covers 9 or not |
| Admission.CounterCounts | crates/app/cce-admission/src/metrics.rs:21-62 | each counter has counted its own outcomes modulo 2^64 |
| Admission.KindsPartition | crates/app/cce-admission/src/middleware.rs:177-311 | every request has exactly one kind of outcome |
| Admission.CountersConserve | crates/app/cce-admission/src/metrics.rs:21-62 | in every run the five counters add up to the requests outside the public paths |
| Admission.AdmittedAreHits | crates/app/cce-admission/src/middleware.rs:236-309 | what the gate admits of a token the limiter has admitted |
| Admission.GateSlidingBound | crates/app/cce-admission/src/middleware.rs:177-311 | the whole gate keeps the sliding bound, in every run of every mix of requests |
| Query.UrlencodingSanitize | crates/app/cce-transport/src/query.rs:8-19 | the loop writes the specified encoding |
| Query.DecodeEncode | crates/app/cce-transport/src/query.rs:8-19 | percent-decoding undoes it for every byte string, and it writes only canonical text |
| Query.EncodeDecode | crates/app/cce-transport/src/query.rs:8-19 | every canonical text is an encoding: encoder and decoder are inverse bijections |
| Query.CanonicalChars | crates/app/cce-transport/src/query.rs:11-16 | only unreserved characters and percent signs are written |
| Query.GraphQuery.Param | crates/app/cce-transport/src/query.rs:62-65 | parameters accumulate in declaration order |
| Query.GraphQuery.Build | crates/app/cce-transport/src/query.rs:68-85 | the loop writes the path, then the pairs joined by ampersands |
| Query.ReadBuilt | crates/app/cce-transport/src/query.rs:45-86 | splitting a built query returns the path and every parameter in order |
| Query.RenderedValueReadsBackIff | crates/app/cce-transport/src/query.rs:34-43 | a rendered value reads back exactly unless it is a list that is empty or has a comma in an element |
| Query.ProjectIdFromQuery | crates/app/cce-admission/src/middleware.rs:161-170 | the reader's loop scans to the first project_id, giving up at a pair without a value |
| Query.ScanStopsAtFirst | crates/app/cce-admission/src/middleware.rs:161-170 | the reader gets the id of the first project_id pair if every pair before it has an equals sign, else nothing |
| Query.AllNamedAreReadIff | crates/app/cce-admission/src/middleware.rs:4-7 | the reader gets every project id that a query's pairs name exactly when they name none, or all pairs before the first project_id have an equals sign, its value is an i64, and later ones repeat it or are no such number |
| Query.NamedButNotRead | crates/app/cce-admission/src/middleware.rs:161-170 | two queries that name project 9 although the reader gets nothing, or another project |
| Query.ScanOfPairs | crates/app/cce-admission/src/middleware.rs:161-170 | on rendered pairs that scan finds the first parameter with the key |
| Query.ProjectIdOfBuilt | crates/app/cce-admission/src/middleware.rs:161-170 | from every built query the reader gets the first project_id number that fits an i64, and nothing when the key is absent |
| Paths.ExpandedShape | crates/app/cce-api/src/paths.rs:115-117 | expanding a project-scoped template puts the id into the third segment |
| Paths.ThirdSegment | crates/app/cce-admission/src/context.rs:90-100 | the reader's segments of such a path are api, project and the id |
| Paths.PathReaderRecoversId | crates/app/cce-admission/src/context.rs:90-100 | for any suffix, id and built query the reader recovers the id exactly when it is an i64 |
| Paths.EveryTemplateRecoversId | crates/app/cce-api/src/paths.rs:21-110 | every project-scoped template of the API is read back for every i64 id |
| Paths.IngestRoutesAreGatewayPaths | crates/app/cce-admission/src/context.rs:60-63 | every ingest route, for any id and query, is reachable with a gateway token |
| GatewayPaths.GatewayPathIff | crates/app/cce-admission/src/context.rs:60-63 | a gateway path is one that holds /ingest/ with no question mark before it |
| GatewayPaths.RouteIsGatewayIff | crates/app/cce-api/src/paths.rs:21-110 | of all project routes of the API, for any id and query, exactly the four ingest routes are gateway paths |
| GatewayPaths.PathReaderIs | crates/app/cce-admission/src/context.rs:90-100 | from any path of whole segments the reader gets the third one's number exactly behind api and project |
| EnvPlaceholders.ResolveEnvPlaceholders | crates/core/cce-config/src/env_loader.rs:424-444 | wherever the loop stops, it leaves the text of the final state of the step system |
| EnvPlaceholders.FinalIsUnique | crates/core/cce-config/src/env_loader.rs:428-441 | a run has one final state |
| EnvPlaceholders.ResolvePlaceholder | crates/core/cce-config/src/env_loader.rs:434-438 | a set placeholder is replaced and its surroundings searched again: the loop stops on one string exactly when on the other, with the same result |
| EnvPlaceholders.ResolveUnresolved | crates/core/cce-config/src/env_loader.rs:440-440 | an unset one is left and only what follows is searched |
| EnvPlaceholders.ResolveCopies | crates/core/cce-config/src/env_loader.rs:428-441 | text without a placeholder that cannot start one is copied, whatever follows |
| ExpansionStops.ShrinkingStops | crates/core/cce-config/src/env_loader.rs:428-441 | the loop stops on every input if, by some weights of the characters, every placeholder weighs more than its value |
| ExpansionStops.FreeOfOneStops | crates/core/cce-config/src/env_loader.rs:428-441 | it is enough that one of the dollar and the two braces is in no value |
| ExpansionStops.ShorterStops | crates/core/cce-config/src/env_loader.rs:428-441 | or that every value is shorter than its placeholder |
| ExpansionStops.StopsWithinDollars | crates/core/cce-config/src/env_loader.rs:428-441 | without dollars in the values it stops within as many iterations as the input has dollars |
| ExpansionStops.SelfReferenceNeverStops | crates/core/cce-config/src/env_loader.rs:434-438 | on a value that begins with its own placeholder it never stops |
| ExpansionStops.StopsBehind | crates/core/cce-config/src/env_loader.rs:428-441 | text behind one on which the loop stops changes nothing until the loop reaches into that text |
| ExpansionStops.StopsOnAllIff | crates/core/cce-config/src/env_loader.rs:424-444 | the loop stops on every input exactly when it stops on every value with any number of dollars before it |
| ExpansionStops.OneDollarIsNotEnough | crates/core/cce-config/src/env_loader.rs:424-444 | the values alone and after a lone dollar do not decide it: an environment that needs two |
| SinglePassExpansion.SafeIsCopied | crates/core/cce-config/src/env_loader.rs:434-438 | text whose dollars complete nothing is copied although the loop searches it again |
| SinglePassExpansion.StopsAsSinglePass | crates/core/cce-config/src/env_loader.rs:424-444 | if no value completes a placeholder, the loop stops on every input and is the single pass |
| SinglePassExpansion.PartCompletes | crates/core/cce-config/src/env_loader.rs:434-438 | a value that ends in the beginning of a placeholder makes the two differ, or the loop go on forever |
| SinglePassExpansion.WholeCompletes | crates/core/cce-config/src/env_loader.rs:434-438 | so does a value that holds a whole one |
| SinglePassExpansion.IsSinglePassIff | crates/core/cce-config/src/env_loader.rs:424-444 | for environments whose names or values hold no dollar: the loop stops on every input and is the single pass exactly when no value completes a placeholder |
| SinglePassExpansion.CompletingCanBeHarmless | crates/core/cce-config/src/env_loader.rs:424-444 | with dollars in names and values alike, an environment in which a value completes a placeholder and the loop is the single pass on every input all the same |
| SinglePassExpansion.PlainValuesAreCopied | crates/core/cce-config/src/env_loader.rs:424-444 | in particular for values without a dollar that are not empty and do not begin with a brace |
| SearcherCache.StepKeepsInv | crates/app/cce-server-shared/src/context.rs:64-109 | every atomic step keeps cached searchers and calls to published snapshots |
| SearcherCache.RunKeepsInv | crates/app/cce-server-shared/src/context.rs:64-109 | so does every interleaving |
| SearcherCache.StaleRunIsNotTransparent | crates/app/cce-server-shared/src/context.rs:82-98 | an epoch that names two indices makes a call return the searcher of the other one |
| SearcherCache.TransparentIff | crates/app/cce-server-shared/src/context.rs:58-98 | the cache is invisible under every interleaving, late stores of older epochs included, exactly when an epoch determines its index |
| SearcherCache.InvalidationHolds | crates/app/cce-server-shared/src/context.rs:100-109 | whatever calls are under way, an entry a project has after an invalidation was stored after it |
| SearcherCache.CannotServeIsEmpty | crates/app/cce-server-shared/src/context.rs:69-73 | a call for a project that cannot serve ends with the empty searcher, whatever runs beside it |
| SearcherCache.PublicationIsRead | crates/app/cce-server-shared/src/context.rs:74-81 | a call that can serve goes on with the last snapshot published, or ends empty if there is none |
| SearcherCache.SharedContext.GetRelationSearcher | crates/app/cce-server-shared/src/context.rs:64-98 | one undisturbed call: a hit changes nothing, a miss builds and stores, and no snapshot gives the empty searcher |
| SearcherCache.SharedContext.InvalidateRelationSearcher | crates/app/cce-server-shared/src/context.rs:101-104 | removes exactly the project's entry |
| SearcherCache.SharedContext.InvalidateRelationSearcherAll | crates/app/cce-server-shared/src/context.rs:107-109 | removes every entry |
| RetryState.FileUpdateState.constructor | crates/app/cce-orchestrator/src/index_state.rs:477-503 | all five modules start pending |
| RetryState.FileUpdateState.MarkModuleSuccess | crates/app/cce-orchestrator/src/index_state.rs:579-586 | only that module's record changes, keeping count, code and truncation |
| RetryState.FileUpdateState.MarkModuleFailed | crates/app/cce-orchestrator/src/index_state.rs:593-612 | only that module's record changes, counting the failure and choosing retry or dead letter |
| RetryState.FileUpdateState.SetModuleTruncated | crates/app/cce-orchestrator/src/index_state.rs:616-621 | only that module's truncation flag changes |
| RetryState.FileUpdateState.GetStatusSummary | crates/app/cce-orchestrator/src/index_state.rs:670-697 | the loop counts each class of states |
| RetryState.SummaryAgrees | crates/app/cce-orchestrator/src/index_state.rs:624-697 | the counts partition the five modules and agree with both flags |
| RetryState.RunIs | crates/app/cce-orchestrator/src/index_state.rs:579-621 | after any history of marks every record, with its time and message, is what its last outcome, its failures and its truncations say |
| RetryState.StatesImply | crates/app/cce-orchestrator/src/index_state.rs:600-607 | retrying implies one or two failures, a dead letter three or a last failure that is permanent |
| RetryState.TruncateCandidateIff | crates/app/cce-orchestrator/src/index_state.rs:410-418 | a candidate is exactly a never truncated dead letter whose last failure was the token limit |
| RetryState.TruncatedForGood | crates/app/cce-orchestrator/src/index_state.rs:614-621 | a truncated module is never a candidate again |
| RetryState.DeadLetterStaysIff | crates/app/cce-orchestrator/src/index_state.rs:600-607 | a further failure keeps a dead letter exactly when it is permanent or the third |
| RetryState.DeadLetterCanRetry | crates/app/cce-orchestrator/src/index_state.rs:600-607 | a permanent and then a transient failure leave a module retrying |
| Position.FloorCharBoundary | crates/core/cce-utils/src/text.rs:70-76 | the loop finds the last character boundary up to the offset |
| Position.PositionAt | crates/app/cce-plugin-runtime/src/pattern.rs:133-142 | row and column count newlines and bytes since the last one |
| Position.PositionInverse | crates/app/cce-plugin-runtime/src/pattern.rs:133-142 | the start of the row's line plus the column is the offset again, on every character boundary |
| Position.LessIff | crates/app/cce-plugin-runtime/src/pattern.rs:133-142 | positions are ordered as their boundaries are, strictly and in both directions |
| Position.SpanReadsBack | crates/app/cce-plugin-runtime/src/pattern.rs:123-130 | a span keeps its bytes, and both its positions lead back to the boundaries below them |
| Position.SpansKeepOrder | crates/app/cce-plugin-runtime/src/pattern.rs:123-130 | spans of ordered byte ranges are ordered |
| Percentile.PercentileMonotone | e2e/scripts/analyze_results.py:282-290 | the percentile is monotone in p, across segment borders too |
| Percentile.PercentileEnds | e2e/scripts/analyze_results.py:282-290 | it is the minimum at 0 and the maximum at 100 |
| Percentile.InterpolateIsLinear | e2e/scripts/analyze_results.py:282-290 | between two neighbours the value moves in proportion from the one to the other |
| Percentile.MedianIs | e2e/scripts/analyze_results.py:275-275 | the 50th percentile is the middle value or the mean of the two in the middle |
| Percentile.PercentileOrderFree | e2e/scripts/analyze_results.py:267-277 | it does not depend on the order of the data |
| Percentile.SortedIsUnique | e2e/scripts/analyze_results.py:267-267 | the sorted form of a multiset is unique |
| Percentile.RoundMonotone | e2e/scripts/analyze_results.py:272-277 | rounding half to even at two decimals keeps order |
| Percentile.StatsOrdered | e2e/scripts/analyze_results.py:263-279 | the rounded minimum, median, p95, p99 and maximum are ordered, and the rounded mean lies between the extremes |
| Percentile.StatsAtRanks | e2e/scripts/analyze_results.py:263-279 | of a hundred times m values and one, minimum, median, p95, p99 and maximum are those of their ranks |
| Percentile.MeanIff | e2e/scripts/analyze_results.py:268-268 | the mean is the one value from which the deviations cancel out |
| Percentile.StatsOrderFree | e2e/scripts/analyze_results.py:263-279 | no statistic depends on the order of the data |
| ErrorJson.EscapedIsOnePass | crates/app/cce-plugin-sdk/src/ffi.rs:43-43 | the two replacements, in their order, are one character escape |
| ErrorJson.ScanOnePass | crates/app/cce-plugin-sdk/src/ffi.rs:41-49 | a JSON string scanner stops exactly at the closing quote with the original text, exactly when it holds no control character |
| ErrorJson.EnvelopeReadsBack | crates/app/cce-plugin-sdk/src/ffi.rs:41-49 | the envelope gives message and type back exactly when the message holds no control character, and is no JSON otherwise |
| ErrorJson.EnvelopeDeterminesError | crates/app/cce-plugin-sdk/src/ffi.rs:26-49 | an envelope of readable text belongs to one message and one kind of error |

## Left out

- ExpansionStops.StopsOnAllIff: the number of dollars is unbounded, and `OneDollarIsNotEnough` shows that it cannot be bounded by one; values can compute with the dollars before them, so no finite list of runs is known to decide it.
- SinglePassExpansion.IsSinglePassIff: not for environments in which both a name and a value hold a dollar; there the condition is enough (`StopsAsSinglePass`, for all environments) but not needed (`CompletingCanBeHarmless`).
- FullPass.SyncOnce: the batch answers are a parameter, assumed to be those of the modelled host; a batch refused as a whole (token quota, staging bounds, too many files) is one of them.
- Convergence.Converges: like Progress, RunSettles and TrueRoundSettlesIff it assumes of passes what `HostedRuns.TurnOmitsHeld` proves.
- HostedRuns.SteadyRunConverges: not for a disk that fails to write a completed file, which can be lost for good (`PassHistory.RetryForgets`), nor with a cache file; an index run is taken to record the hashes of what the mirror holds at its end, or to leave what was recorded.
- Staleness.AlwaysFreshIff: not for sleeps of 300 s and more, where every poll scans fully.
- PassHistory.MissingIff: all passes are over one snapshot, whose manifest version is its own; the version, a 64-bit hash of the file set, and events between passes are not modelled.
- PassHistory.ResumedPassDelivers: the first pass finds no chunks staged for the version.
- Ingest.IngestHost.HandleIngestBatch: quota and staging bounds, which refuse the whole request, are outside its contract; a chunk write that fails is taken to fail before any chunk of the file is kept, and the order of the error messages is not modelled.
- Watch.RemoteHost.PostEvent: a push error is taken as not applied; a request over 200 events is such an error, which the default threshold of 100 keeps out of reach. A write at which the disk fails is taken to leave file and directories as they were.
- Admission.AdmittedInRunIff: the projects it speaks of are those the middleware reads of the query, which need not be all that the query names (`ScopeIsEnforcedIff`); the clock readings are taken in the order of the requests, as the lock on the buckets gives them.
- RetryState.RunIs: for histories below 2^32 marks, where the wrapping 32-bit count is exact; `update_module_state`, which sets any state unchecked, and the acknowledged flag are not part of the runs.
- Percentile.StatsOrdered: over the reals; floating-point error and the standard deviation are left out.
- Query.ReadBuilt: keys are written as they are, so they must hold no separator; the source's keys are literals.
- HTTP, timers, printing, progress records, the heartbeat file and the contents of logs, fingerprints of tokens included.
- Cache-file reading and writing: what a cache file gives is a parameter of each round.
- SHA-256: a content hash determines its content, and the token hash is a parameter, injective where a result needs it.
- zstd and base64: the compressor is a parameter that the unpacker undoes where a result needs it; base64 enters by its length.
- JSON body parsing: the body's project id is part of the request.
- Unicode: trimming and case folding are ASCII, and strings are sequences of bytes where bytes matter.
- The text and extension filters of a scan, path normalisation, and scan failures of single paths: a local tree holds the files that pass, none of which is a directory of another.
- Version zero of the manifest protocol, which a gateway never sends.
- Commit and indexing on the remote host but for the dropped staging, staging retention and quota accounting.
- Timeout, body-limit and cross-origin layers around the admission middleware.
- Pattern extraction, the export processor, configuration merging and the command line: tables and forwarding.
