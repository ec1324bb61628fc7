# A verified model of the platform's step machines

The control plane of this platform moves workloads, keeps backups, orders certificates, queues
commands, runs jobs and watches load by small steps that may be repeated, interrupted or run late.
This project models those step machines, and the stream and arithmetic kernels beneath them, and
proves what they keep over every run and every input. `dafny verify dfyconfig.toml` checks all of it.

How the model is built:

- The tables are sequences or maps, each SQL statement or service call is one atomic step unless a
  claim says otherwise, and what the outside world answers (a lost request, a failed write, a clock
  reading, an authority's reply, a salt) is a parameter that may take any value.
- For code that changes things in place there are two layers: a function from the old value to the
  new one, about which the lemmas are, and a class whose methods do the work step by step and are
  proved to have exactly that effect.
- What is assumed of the environment is written out as a predicate (`Allowed`, `Permitted`,
  `Possible`, `Obeys`), and where the code does not keep a promise on its own, the failing input and
  the exact condition are lemmas.

| module | what it models |
|---|---|
| `DiskMove` | moving an instance's disk off a draining node |
| `DiskMoveLimits`, `DiskMoveRetries` | exactly when that is safe, and when a move cut half way ends |
| `Sealed`, `Keyring` | the framed, authenticated stream; keys as text; the ring of keys |
| `Backups`, `BackupSchedules` | what is read back from a vault; what a schedule keeps |
| `RateLimit` | the per-caller token bucket, its forgetting and its Retry-After |
| `Autoscale` | decisions from averages, and runs of sweeps under a constant load |
| `ExecQueue` | the queue of commands, as whole calls and as interleaved statements |
| `Jobs` | job runs, retries and the workloads behind them |
| `Acme` | certificate orders against an authority |
| `Pages`, `Logs`, `Health`, `Alerts` | streaming forms shown equal to a statement about the whole |
| `Newest`, `BackupState`, `Basics` | finding rows and keeping the newest; shared vocabulary |

What turned out not to hold as one would expect, each with its exact condition:

- A copy left by an earlier move can be taken for the parked disk, even one that was up to date and of
  an instance that does not run, because a node may still start it on a list read before the move; a
  move keeps the bytes in every continuation exactly if there is none when it begins
  (`BeginHarmlessIff`).
- A start by hand is not refused mid-move; it keeps the bytes in every continuation exactly if the
  instance is not being moved (`HandStartHarmlessIff`).
- A begin or a landing cut after its first write leaves the instance stopped for good; after any other
  cut retries can get it running again (`CutBeginRecoversIff`, `CutLandingRecoversIff`). A disk too
  large to park stays where it is until it is started once more and shrinks (`TooLargeStays`).
- A release keeps the bytes in every continuation exactly if the disk is parked, or in place with only
  the flags not written (`ReleaseHarmlessIff`).
- The limiter forgets a bucket after five minutes whether or not it is full again: rate and answers
  are unaffected exactly if the burst refills within that time (`RateIsKeptIff`,
  `ForgettingIsInvisibleIff`).
- A refused caller that comes back after it was forgotten, on a full table, may be refused again
  although it waited (`RetryRefusedIff`, `PushedOutIsRefused`); and one refused by the shared bucket
  may come back too early and be let through, if there is room by then (`RetryAfterIsTight`).
- While replicas warm up the load of the warm ones is taken for that of all; actions then go toward
  the goal for every policy and load exactly if all are warm, or at least 27 are, or the count is at
  the overall maximum (`WarmLoadMovesTowardIff`).
- A log line that fills a whole chunk with more behind it is cut up (`ShippingIsFaithfulIff`).
- There is a time within which all orders of an authority end exactly if it opens none without
  authorizations and finds an order ready only a limited number of times (`OrdersEndIff`); for at most
  `n` times the time is given (`OrderEndsBy`).
- A backup stored through the control plane in an object store, beside a content key, cannot be read
  back, and neither can one that is reported failed between its upload and the report of the upload
  (`ReadsBackIff`, `StoredBesideContentKey`, `FailureForgetsTheKey`).
- A page cursor that is handed out reads back as itself exactly if its stamp does not hold the
  separator (`CursorRoundTripIff`).
- Certificates are renewed from 44 days before their end on (`RenewalIsDueIff`).

## Model

| member | source | states |
|---|---|---|
| `DiskMove.StepKeepsInv` | internal/platform/instance/migrate.go:39-193 | every step of a move, with requests lost before or after any write, keeps the invariant that the last written bytes are on the assigned node or parked, and all copies of a parked disk agree |
| `DiskMove.NeverLost` | internal/platform/instance/migrate.go:39-181 | over every run from a settled instance the last written bytes are on the assigned node or in the parked file, and whoever may start the instance has them |
| `DiskMove.StoppedBytesStand` | internal/agent/carry.go:18-96 | no step but a start changes the bytes of an instance that is not running |
| `DiskMove.NextStartIsFaithful` | internal/platform/instance/migrate.go:39-181 | the node that next starts the instance starts from exactly the bytes held at the stop, and nobody else runs it |
| `DiskMove.CarryIsARun` | internal/agent/carry.go:18-96 | one pass of a node, on any stale view and with anything lost, is a run of the protocol and touches no other node's disk |
| `DiskMove.BeginAcceptedIff` | internal/platform/instance/migrate.go:39-56 | a begin is accepted exactly from the assigned node, and then the instance is moving and wanted stopped; one that is cut leaves it wanted stopped at most |
| `DiskMove.ParkAcceptedIff` | internal/platform/instance/migrate.go:58-115 | a park is accepted exactly from the assigned node of a moving instance, with a usable name and a disk within the limit; the file is then the whole disk, parked by that node |
| `DiskMove.LandingAcceptedIff` | internal/platform/instance/migrate.go:159-181 | a landing is accepted exactly from the assigned node, and then the move is over, the instance wanted running and the parked file gone |
| `DiskMove.FetchesIff` | internal/platform/instance/migrate.go:117-157 | the parked bytes are given exactly to the assigned node of a parked move that did not park them itself |
| `DiskMove.ParkedForOthers` | internal/platform/instance/migrate.go:130-134 | after an accepted park its own node fetches nothing, even when it is assigned the instance again, and every other node it is released to fetches exactly those bytes |
| `DiskMove.NothingToTakeBack` | internal/platform/instance/migrate.go:130-134 | a node that parked its disk and forgot its copy changes nothing by taking, whatever it imports or reports |
| `DiskMove.MoveEndsElsewhere` | internal/platform/instance/migrate.go:117-181 | over every run a move whose source has forgotten its copy ends only on another node, with the parked bytes |
| `DiskMove.WantedChangesOnlyIf` | internal/platform/instance/migrate.go:39-181 | an instance is stopped only by a request or by its node beginning a move, and wanted running again only by a request or by its node landing one |
| `DiskMove.LandedOnce` | internal/platform/instance/migrate.go:159-181 | a landing that went through is not repeated: any later one is accepted and changes nothing |
| `DiskMove.ReportShowsIff` | internal/platform/instance/repository.go:264-375 | a report shows exactly if it comes from the assigned node; a release by that node sets the instance back to pending, and any node can then be assigned |
| `DiskMoveLimits.HandStartHarmlessIff` | internal/platform/instance/service.go:261-272 | a start by hand is followed only by runs that keep the bytes and start from them, exactly if the instance is not being moved (or its disk cannot be parked under its name) |
| `DiskMoveLimits.HandStartOfParkedLoses` | internal/platform/instance/service.go:261-272 | with the disk parked, some run after the start by hand loses what is written next, or starts from an image |
| `DiskMoveLimits.HandStartBeforeParkingLoses` | internal/platform/instance/service.go:261-272 | so does some run after one before the disk is parked, since it is parked all the same |
| `DiskMoveLimits.BeginHarmlessIff` | internal/platform/instance/migrate.go:39-56 | the move of any reachable instance is followed only by runs that keep the bytes, exactly if no other node has a copy (or the disk cannot be parked under its name) |
| `DiskMoveLimits.OldListMakesStale` | internal/agent/reconcile.go:44-154 | with any other copy, even an equal one, a start on a list read before the move began leads to a run that loses the bytes |
| `DiskMoveLimits.StaleCopyWins` | internal/agent/carry.go:68-96 | any copy that is not what was written last can be taken for the parked disk, and then the last bytes exist nowhere |
| `DiskMoveLimits.CopyGoesStale` | internal/agent/carry.go:68-96 | so can one that was up to date when the move began, if the instance is still running |
| `DiskMoveLimits.CleanDrainArrives` | internal/agent/carry.go:18-96 | without a leftover copy the same drain settles the instance on the destination with the source's bytes |
| `DiskMoveLimits.ReleaseHarmlessIff` | internal/platform/scheduler/scheduler.go:338-455 | the release of any reachable instance is followed only by runs that keep the bytes, exactly if its disk is parked, or is in place as the parked file of a stopped instance with only the flags not written |
| `DiskMoveLimits.UnparkedReleaseLoses` | internal/platform/scheduler/scheduler.go:338-455 | releasing before the disk is parked lets the only copy be collected |
| `DiskMoveRetries.CutBeginRecoversIff` | internal/platform/instance/migrate.go:39-56 | after a begin cut anywhere, retries alone can get the instance wanted running again exactly if nothing was written, or all was and the disk can be parked under its name |
| `DiskMoveRetries.TooLargeStays` | internal/platform/instance/migrate.go:103-107 | a stopped disk over the limit is not moved by any retries unless the instance is started once more |
| `DiskMoveRetries.CutLandingRecoversIff` | internal/platform/instance/migrate.go:159-181 | after a landing cut anywhere, they can exactly unless it was cut after its first write |
| `DiskMoveRetries.LeftForGood` | internal/platform/instance/repository.go:328-349 | a row left stopped and not migrating is listed by no drain and changed by no landing, so no run of retries makes it startable |
| `DiskMove.NamesDiffer` | internal/platform/instance/migrate.go:32-37 | different instances park under different names |
| `DiskMove.ControlPlane.BeginMigration` | internal/platform/instance/migrate.go:39-56 | changes the row as the protocol's begin does, refuses an instance that is elsewhere, and leaves the other rows |
| `DiskMove.ControlPlane.ParkDisk` | internal/platform/instance/migrate.go:58-115 | parks the whole disk or nothing, with its error cases, and leaves the other rows and files |
| `DiskMove.ControlPlane.ParkedDisk` | internal/platform/instance/migrate.go:117-157 | gives out the parked bytes only to the assigned node of a parked move |
| `DiskMove.ControlPlane.FinishMigration` | internal/platform/instance/migrate.go:159-181 | a landing by the assigned node ends the move and forgets the parked file; any other changes nothing |
| `DiskMove.ControlPlane.ForgetParked` | internal/platform/instance/migrate.go:183-193 | removes that instance's parked file and no other |
| `DiskMove.ControlPlane.AssignTo` | internal/platform/instance/repository.go:308-326 | places an instance only if it is on no node |
| `DiskMove.ControlPlane.ReleasePlacement` | internal/platform/instance/repository.go:363-375 | releases an instance only from the node named |
| `DiskMove.Agent.HandOverDisk` | internal/agent/carry.go:37-66 | parks and then forgets the local disk, exactly as the pass over one instance says |
| `DiskMove.Agent.TakeDisk` | internal/agent/carry.go:68-96 | reports a disk it has, or fetches, imports and reports it |
| `DiskMove.Agent.CarryDisks` | internal/agent/carry.go:18-35 | the loop gives every listed instance its own pass |
| `Sealed.NoncesRepeatIff` | internal/kernel/sealed/sealed.go:78-82 | two frames share a nonce exactly if their numbers agree modulo 2^64 |
| `Sealed.Seal` | internal/kernel/sealed/sealed.go:84-135 | the loop writes exactly the stream of full frames and one shorter last frame, also when the source breaks |
| `Sealed.RoundTrip` | internal/kernel/sealed/sealed.go:84-228 | opening the frames of any plaintext gives that plaintext and the end, multiples of the frame size and nothing included |
| `Sealed.OnlyTheSealedStreamEnds` | internal/kernel/sealed/sealed.go:147-228 | under an ideal AEAD the end is reached exactly on the sealed bytes, and anything else delivers only whole leading frames before its error |
| `Sealed.TamperingIsSeen` | internal/kernel/sealed/sealed.go:147-228 | for a key that has sealed any number of streams under their own salts, the end is reached exactly on one of them; anything else, put together from several included, delivers only whole leading frames of the plaintext whose salt it carries |
| `Sealed.CutIsTold` | internal/kernel/sealed/sealed.go:188-228 | frames cut at any byte deliver exactly the whole frames before the cut, and are reported as truncated if less than a tag is left of the next one and as corrupt otherwise |
| `Sealed.StreamCutIsTold` | internal/kernel/sealed/sealed.go:147-228 | so is every cut of a whole stream; one within the header is a truncation |
| `Sealed.VersionIsToldIff` | internal/kernel/sealed/sealed.go:147-158 | a stream is refused for its version exactly if its header is whole and carries the magic and another number; short ones are truncated, others corrupt |
| `Sealed.FramesAreLonger` | internal/kernel/sealed/sealed.go:84-135 | the frames are longer than the plaintext by a tag for every frame begun, the empty last one included |
| `Sealed.SealedEachExists` | internal/kernel/sealed/sealed.go:65-76 | what is assumed of a key's streams can be met, for any streams under salts of their own |
| `Sealed.StreamRoundTrip` | internal/kernel/sealed/sealed.go:65-228 | a whole sealed stream opens under its key to its plaintext |
| `Sealed.AnIdealAeadExists` | internal/kernel/sealed/sealed.go:65-76 | what is assumed of the AEAD can be met |
| `Sealed.EveryReaderSeesTampering` | internal/kernel/sealed/sealed.go:147-228 | any sequence of non-empty reads of any stream gets only leading bytes of the plaintext whose salt it carries, the end only on exactly one of the sealed streams, and otherwise an error after whole frames |
| `Sealed.ReadKeepsRemaining` | internal/kernel/sealed/sealed.go:173-228 | one read of any size delivers a prefix of what remains and leaves the rest |
| `Sealed.EveryReaderSeesThePlaintext` | internal/kernel/sealed/sealed.go:173-228 | any sequence of non-empty reads delivers the plaintext in order and then the end |
| `Sealed.Opener.Read` | internal/kernel/sealed/sealed.go:173-186 | the object's read is the step the lemmas are about |
| `Sealed.Opener.Next` | internal/kernel/sealed/sealed.go:188-210 | fetching a frame tells a last frame from a full one and a cut stream from both |
| `Sealed.Opener.Unseal` | internal/kernel/sealed/sealed.go:212-228 | a frame that does not open is an error, one that does becomes the unread bytes |
| `Keyring.HexRoundTrip` | internal/kernel/sealed/keyring.go:60-79 | hex text reads back as its bytes |
| `Keyring.ReadsHexIff` | internal/kernel/sealed/keyring.go:68-72 | text is read as bytes exactly if it is their hex, in lower or upper case |
| `Keyring.ParsesKeyIff` | internal/kernel/sealed/sealed.go:39-58 | text parses to a key exactly if it is the hex of its 32 bytes, in either case, among white space |
| `Keyring.KeyTextRoundTrip` | internal/kernel/sealed/sealed.go:39-58 | a key's text, with white space around it, parses to that key |
| `Keyring.SealedBytesRoundTrip` | internal/kernel/sealed/keyring.go:60-79 | a value sealed to text opens under the same key to itself |
| `Keyring.OpensTextIff` | internal/kernel/sealed/keyring.go:60-79 | under a cipher that opens only what was sealed, text opens to a value exactly if it is the hex of a stream that the key sealed, and the value is what that one holds |
| `Keyring.NewKeyring` | internal/kernel/sealed/keyring.go:22-32 | the first key is active, and an id leads to the last key that goes by it |
| `Keyring.RingHoldsIff` | internal/kernel/sealed/keyring.go:22-58 | a ring finds a key again exactly if it was given and no later key takes its id |
| `Backups.StepKeepsInv` | internal/platform/backup/service.go:55-332 | creating, uploading, reporting, storing, failing, removing and changing the ring keep row, file and keys in step |
| `Backups.ReadsBackIff` | internal/platform/backup/service.go:317-332 | after every run a ready backup has the digest of what landed last, and reads back as it exactly if its row still leads to a key the ring holds and it did not land beside a content key made for the node |
| `Backups.DiskReadsBack` | internal/platform/backup/vault.go:29-138 | on disk, content is the accepted upload exactly if the ring holds the sealing key, whichever key is active |
| `Backups.TransferAfterCreate` | internal/platform/backup/service.go:73-145 | the node of a backup created under an active key is told exactly the content key made for it, under every ring that holds the wrapping key; with no active key it is told to seal with none, and any other node is told nothing |
| `Backups.EverythingIsSealed` | internal/platform/backup/service.go:73-145 | over every run in which backups are created and stored under an active key, each file that landed is the sealed stream of its content under some key |
| `Backups.UploadedReadsBackIff` | internal/platform/backup/service.go:73-192 | created, uploaded by its node and reported, a copy is ready with its size and reads back under exactly the rings that hold the key active at its creation |
| `Backups.StoredReadsBackIff` | internal/platform/backup/service.go:249-332 | a copy stored without a content key is ready with its size and digest and reads back under exactly the rings that hold the key active when it was stored |
| `Backups.OutcomeIff` | internal/platform/backup/service.go:147-315 | when a store, a report of an upload and a failure leave the row ready, failed or as it was |
| `Backups.StepTouchesItsOwn` | internal/platform/backup/service.go:55-360 | every step leaves all other backups and what they give, one by a node that the backup is not on changes nothing, and what is removed is gone |
| `Backups.OnlyReadyIsGiven` | internal/platform/backup/service.go:317-332 | after every run nothing is given of a copy that is not ready, and any that is given has landed |
| `Backups.KeyedReadsIff` | internal/platform/backup/objectstore.go:92-167 | a direct upload under a wrapped content key reads back exactly if the row kept the name of the wrapping key and the ring holds it |
| `Backups.StoredBesideContentKey` | internal/platform/backup/objectstore.go:51-124 | a copy sealed with the operator's key is never read back while the row has a content key, given that this one stream under the one key does not open under the other |
| `Backups.KeysCanBeApart` | internal/kernel/sealed/sealed.go:65-76 | what is assumed of keys can be met, by a cipher that opens what it sealed and authenticates flags |
| `Backups.UnwrapIff` | internal/platform/backup/objectstore.go:140-167 | a ring with the wrapping key gives the content key back, any other nothing |
| `Backups.UploadKey` | internal/agent/directbackup.go:67-77 | what a node seals with is the content key of its row, or nothing if the row has none |
| `Backups.FailureForgetsTheKey` | internal/platform/backup/service.go:147-178 | a failure reported before the upload is leaves a ready row that no ring can read |
| `Backups.Pour` | internal/platform/backup/vault.go:29-48 | writes the sealed or plain stream with its size and digest; refuses exactly what is over the limit |
| `Backups.Service.CreateBackup` | internal/platform/backup/service.go:73-102 | a row with a content key exactly in an object store whose ring seals |
| `Backups.Service.MarkUploaded` | internal/platform/backup/service.go:147-172 | accepts a report from the row's node with a size and a checksum; keeps the key's name |
| `Backups.Service.StoreContent` | internal/platform/backup/service.go:249-283 | a ready row is left alone, a failed write marks it failed, a good one replaces file and key name together |
| `Backups.Service.FailBackup` | internal/platform/backup/service.go:299-315 | accepted exactly from the row's node; the row becomes failed, ready ones too, and forgets its key |
| `BackupSchedules.SchedulesStayWithin` | internal/platform/backup/service.go:468-546 | over every run, each schedule has at most its keep of ready copies and at most one pending |
| `BackupSchedules.FiringsAreSpaced` | internal/platform/backup/service.go:468-517 | two firings of a schedule that is not changed in between are at least its interval apart |
| `BackupSchedules.FirstFiringWaits` | internal/platform/backup/service.go:376-425 | a schedule that is set fires no sooner than its interval later |
| `BackupSchedules.FireMakesOneIff` | internal/platform/backup/service.go:468-517 | a look at a schedule moves its next time exactly if it is due, and then makes exactly one pending copy if none of the volume is pending; it makes nothing else and, while the keep is not lowered, prunes nothing |
| `BackupSchedules.LandTakesIff` | internal/platform/backup/service.go:147-192 | after a landing a copy is gone exactly if the schedule that made the landed one still exists, made it too, and has its keep of newer ready ones |
| `BackupSchedules.FailAndRemoveTouchOne` | internal/platform/backup/service.go:299-360 | a failure marks that copy failed, ready or not, a removal takes that copy; all others stand in order |
| `BackupSchedules.SchedulesAreSetAlone` | internal/platform/backup/service.go:376-466 | setting a schedule again keeps its id; setting and removing leave copies and other volumes alone |
| `BackupSchedules.RetainDeletesIff` | internal/platform/backup/service.go:519-546 | retention deletes a copy exactly if the schedule made it, it is ready, and keep newer ready ones are there |
| `BackupSchedules.RetainWithin` | internal/platform/backup/service.go:519-546 | retaining brings a schedule within its keep, also after the keep was lowered, and no other past its own |
| `BackupSchedules.LandKeepsInv` | internal/platform/backup/service.go:180-190 | a copy that lands, from pending or failed, leaves all schedules within their limits |
| `BackupSchedules.FireKeepsInv` | internal/platform/backup/service.go:494-517 | so does a schedule that fires |
| `BackupSchedules.Service.Retain` | internal/platform/backup/service.go:519-546 | the two loops leave exactly the newest ready copies, and remove exactly the files of the others |
| `BackupSchedules.Service.Keepable` | internal/platform/backup/service.go:520-530 | the first loop collects the schedule's ready copies, newest first |
| `BackupSchedules.Service.FireSchedule` | internal/platform/backup/service.go:485-517 | makes a copy exactly if none of the volume is pending and making it succeeds, then prunes exactly the surplus, files included |
| `BackupSchedules.Service.LandCopy` | internal/platform/backup/service.go:257-296 | marks the copy ready and lets its schedule, if it still exists, prune exactly the surplus, files included |
| `RateLimit.AlwaysBounded` | internal/kernel/ratelimit/ratelimit.go:59-128 | tokens stay between nothing and the burst and at most 4096 callers are tracked |
| `RateLimit.RateIsKept` | internal/kernel/ratelimit/ratelimit.go:59-128 | in every window of every run a caller draws from its own buckets at most the burst plus what the window earns |
| `RateLimit.RateIsKeptIff` | internal/kernel/ratelimit/ratelimit.go:59-128 | that holds of all runs exactly if the burst refills within the idle time |
| `RateLimit.RefusedIff` | internal/kernel/ratelimit/ratelimit.go:59-92 | under the same condition a caller's own bucket refuses a call exactly if one more would draw, in some window up to now, more than the burst plus what the window earns |
| `RateLimit.RefusedBeyondRate` | internal/kernel/ratelimit/ratelimit.go:59-92 | without any condition it refuses only such calls |
| `RateLimit.ForgettingIsInvisibleIff` | internal/kernel/ratelimit/ratelimit.go:59-128 | without overflow every answer equals that of a limiter that never forgets, exactly under the same condition |
| `RateLimit.RetryAfterSuffices` | internal/kernel/httpx/middleware.go:142-147 | waiting the whole seconds of Retry-After with nothing else charged to that bucket makes the next call succeed, unless it is pushed onto the shared bucket |
| `RateLimit.PromptRetrySucceeds` | internal/kernel/httpx/middleware.go:142-147 | within five minutes of the refusal it succeeds whatever else happens |
| `RateLimit.RetryAfterIsTight` | internal/kernel/ratelimit/ratelimit.go:78-92 | in every run a refusal asks for one second or two, and a caller that comes back more than a second early with nothing else charged is refused, unless its refusal was by the shared bucket and there is room by now for one of its own |
| `RateLimit.EveryRefusalWaits` | internal/kernel/httpx/middleware.go:142-147 | every refusal of every run asks for one second or two |
| `RateLimit.RetryRefusedIff` | internal/kernel/ratelimit/ratelimit.go:59-92 | however late, it is refused exactly if the refusal was by the caller's own bucket, the table is now full without it, and the shared bucket is spent |
| `RateLimit.PushedOutIsRefused` | internal/kernel/ratelimit/ratelimit.go:59-128 | a run in which that happens |
| `RateLimit.WaitRefillsOne` | internal/kernel/ratelimit/ratelimit.go:78-92 | the truncated wait always earns a whole token |
| `RateLimit.WaitIsTight` | internal/kernel/ratelimit/ratelimit.go:84-90 | the wait is the whole nanoseconds the missing part takes to earn and one second; it always suffices, and a second before its whole seconds are over the bucket still refuses |
| `RateLimit.OverflowTellsIff` | internal/kernel/ratelimit/ratelimit.go:94-128 | overflow is told exactly after a call was charged to the shared bucket and until a sweep leaves room |
| `RateLimit.AllowedNeedNotWait` | internal/kernel/ratelimit/ratelimit.go:59-92 | a caller let through is told nothing to wait for |
| `RateLimit.New` | internal/kernel/ratelimit/ratelimit.go:37-57 | a limiter exists exactly for a positive rate; its burst is the one given, or one second's worth |
| `RateLimit.Limiter.AllowCall` | internal/kernel/ratelimit/ratelimit.go:59-92 | the call in place has exactly the effect and answer of one step |
| `RateLimit.Limiter.Sweep` | internal/kernel/ratelimit/ratelimit.go:114-128 | forgets exactly the idle buckets, at most once per idle time |
| `Autoscale.ActionsAreBounded` | internal/platform/autoscale/decide.go:30-135 | an action lands within the limits and respects the cooldown; it moves by at most four exactly if the count is no further than that from the limits |
| `Autoscale.DecidesIff` | internal/platform/autoscale/decide.go:30-80 | under a load spread over all replicas a service is scaled exactly if it is settled, was never scaled or not within the cooldown, has a warm replica, is outside the deadband and not at the goal |
| `Autoscale.StaysBecause` | internal/platform/autoscale/decide.go:30-115 | the reason given for an able service follows from its load and limits alone; that the count does not move is given only below seven replicas |
| `Autoscale.UnheardIsLeftAlone` | internal/platform/autoscale/decide.go:40-64 | one warm replica without a fresh report, or without the memory the policy needs, and nothing is scaled |
| `Autoscale.EvenLoadMovesToward` | internal/platform/autoscale/decide.go:30-135 | under a load spread evenly, over all replicas or over enough warm ones, an action moves strictly toward the clamped ceiling of load over target, never past it |
| `Autoscale.WarmLoadMovesTowardIff` | internal/platform/autoscale/decide.go:38-80 | if the warm replicas carry the whole load, actions move toward the goal for all policies and loads exactly if all are warm, at least 27 are, or the count is 32 |
| `Autoscale.ActionsUseUpTheDistance` | internal/platform/autoscale/service.go:137-219 | over every run actions taken and actions still possible never exceed what the start allowed |
| `Autoscale.AtMostEightActions` | internal/platform/autoscale/service.go:137-219 | at most eight actions happen however long the run, and none once the goal is reached |
| `Autoscale.GoalIsReached` | internal/platform/autoscale/service.go:137-219 | if every turn is able to scale and does, a constant load spread over all replicas has the count close enough or at the goal after at most eight actions, and there it stands for the rest of the run |
| `Autoscale.ActionsAreSpaced` | internal/platform/autoscale/service.go:182-219 | while recording succeeds, two actions are at least the cooldown apart |
| `Autoscale.DecideByLoop` | internal/platform/autoscale/decide.go:30-80 | the loops decide what the specification decides |
| `Autoscale.GatherByLoop` | internal/platform/autoscale/decide.go:40-64 | the sums and the reasons to hold still, over all members |
| `Autoscale.Autoscaler.Apply` | internal/platform/autoscale/service.go:182-219 | scales and records exactly as one turn does |
| `Autoscale.Autoscaler.Sweep` | internal/platform/autoscale/service.go:137-180 | every policy takes its own turn; those of vanished services are dropped |
| `Newest.KeepsIff` | internal/platform/exec/repository.go:112-122 | trimming keeps a row exactly if it is not among those trimmed or fewer than the limit are newer |
| `ExecQueue.CallKeepsInv` | internal/platform/exec/service.go:81-225 | every call keeps stamps in order, first in first out per node, and at most 16 waiting per project |
| `ExecQueue.WaitingIsNeverTrimmed` | internal/platform/exec/service.go:115-176 | after any run and whatever the next call is, a waiting command goes on waiting exactly unless it is taken as the oldest or too old for the sweep |
| `ExecQueue.AcceptedIsStored` | internal/platform/exec/service.go:115-145 | a command is stored exactly if fewer than 16 wait in its project |
| `ExecQueue.TakeHandsOldestIff` | internal/platform/exec/service.go:162-176 | a take hands out a command, now running, exactly if it is the oldest waiting on the node, and touches no other row; it hands out nothing exactly if none waits there |
| `ExecQueue.StartTrimsIff` | internal/platform/exec/service.go:115-145 | an accepted start keeps exactly the newest 20 commands of its instance, its own included, and all of the others' |
| `ExecQueue.FirstResultStands` | internal/platform/exec/service.go:178-201 | a stored result is never overwritten by a later call |
| `ExecQueue.FinishTouchesOwnRow` | internal/platform/exec/service.go:178-201 | a result is accepted exactly from the node the command is queued for, and changes no other row |
| `ExecQueue.HandedOutAtMostOnce` | internal/platform/exec/repository.go:54-146 | in every interleaving of single statements a command is handed out at most once, to its own node, and never after it was given up |
| `ExecQueue.SetTakenHandsIff` | internal/platform/exec/repository.go:54-70 | the guarded update hands out exactly a command that still waits, and changes no other row |
| `ExecQueue.CallsAreStatements` | internal/platform/exec/service.go:115-225 | take, start and sweep leave what their statements leave when nothing comes in between |
| `ExecQueue.Clip` | internal/platform/exec/service.go:203-214 | the output without zero bytes, or its longest well-formed end within the limit |
| `ExecQueue.OnlyZerosGo` | internal/platform/exec/service.go:203-205 | exactly the zero bytes go from the output, wherever they are |
| `ExecQueue.Service.StartCommand` | internal/platform/exec/service.go:115-145 | count, insert and trim have the effect of one start, also when the trim fails |
| `ExecQueue.Service.TakeCommand` | internal/platform/exec/service.go:162-176 | the oldest waiting command of the node, and no other, starts running |
| `ExecQueue.Service.FinishCommand` | internal/platform/exec/service.go:178-201 | stores a result for the row's own node unless one is stored, and says which error it is otherwise |
| `ExecQueue.Service.SweepAt` | internal/platform/exec/repository.go:84-99 | afterwards nothing older than the limit waits or runs; exactly what did is lost and counted, and nothing else changes |
| `Jobs.StepKeepsInv` | internal/platform/job/sweep.go:10-159 | every step keeps runs chained, only the newest possibly active, and workloads and runs in step |
| `Jobs.AtMostOneActive` | internal/platform/job/service.go:248-267 | in every reachable state only a job's newest run may be active |
| `Jobs.AttemptsChain` | internal/platform/job/sweep.go:41-76 | attempt n stands at the end of n - 1 failed attempts 1, 2, ... and is at most one more than the retries |
| `Jobs.LiveAreNamed` | internal/platform/job/sweep.go:41-107 | workloads created and not asked to go are exactly those named by active runs |
| `Jobs.AdvanceSettlesIff` | internal/platform/job/sweep.go:41-80 | a run succeeds exactly on a stop with exit code zero, stays active exactly while its workload is pending or up, and is retried exactly after a reported failure with retries left |
| `Jobs.AdvanceTouchesLast` | internal/platform/job/sweep.go:41-80 | earlier runs stand, the active one keeps its id and attempt, and a retry is exactly one new run, pending with its workload or failed at once if that is refused |
| `Jobs.AdvanceAsksIff` | internal/platform/job/sweep.go:41-107 | the active run's workload is asked to go exactly if the run ends, and one is made exactly for a retry that can make it |
| `Jobs.FireStartsOneIff` | internal/platform/job/sweep.go:109-140 | a job's next time moves by its interval exactly if it is due, scheduled and not paused, and then exactly one first attempt is begun if no run is active; otherwise none |
| `Jobs.TriggerStartsOneIff` | internal/platform/job/service.go:248-258 | a trigger begins exactly one first attempt if no run is active, and otherwise changes nothing |
| `Jobs.RemovalIff` | internal/platform/job/service.go:225-246 | in every reachable state a removal takes the job exactly if its workload, if any, can be asked to go, and exactly that workload with it |
| `Jobs.FiringsAreSpaced` | internal/platform/job/sweep.go:109-140 | two scheduled firings of a job that is not removed in between are at least its interval apart |
| `Jobs.FirstFiringWaits` | internal/platform/job/service.go:50-127 | a job's first firing is no sooner than its interval after it is created, and there is none without an interval |
| `Jobs.PausedNeverFires` | internal/platform/job/service.go:214-223 | over every run a paused job does not fire until it is resumed, or removed and made anew |
| `Jobs.SweepPrunesOldest` | internal/platform/job/sweep.go:142-159 | a pass without error prunes the oldest of the runs settled before it, and leaves at most keep + 2 |
| `Jobs.Service.Advance` | internal/platform/job/sweep.go:41-76 | one look at the active run's workload: ends it, marks it running, retries it or waits |
| `Jobs.Service.Finish` | internal/platform/job/sweep.go:82-94 | the workload is asked to go and the run stops naming it |
| `Jobs.Service.Retain` | internal/platform/job/sweep.go:142-159 | the loops delete exactly the surplus of the runs settled in the snapshot |
| `Jobs.Service.StartRun` | internal/platform/job/service.go:269-331 | adds a pending run with its workload, a failed run if making one is refused, nothing if the settings cannot be opened |
| `Jobs.Service.Trigger` | internal/platform/job/service.go:248-258 | starts a first attempt exactly if no run is active |
| `Jobs.Service.FireJob` | internal/platform/job/sweep.go:115-138 | the next time moves before anything else, and a run is started only if none is active |
| `Jobs.Service.SweepAll` | internal/platform/job/sweep.go:10-39 | a whole pass is its steps in order, keeps the invariant, and fires at most four |
| `Jobs.Service.Remove` | internal/platform/job/service.go:225-246 | every named workload is asked to go before any row does; a refusal leaves everything |
| `Acme.OrdersEndIff` | internal/platform/acme/sweep.go:92-224 | there is a time within which all orders of an authority end, whatever it answers, exactly if it opens none without authorizations and finds an order ready only a limited number of times |
| `Acme.OrderEndsBy` | internal/platform/acme/sweep.go:92-224 | an order that is finalized at most n times is issued or failed by the first pass later than the grace, n + 1 limits and n + 2 gaps |
| `Acme.EveryOrderEnds` | internal/platform/acme/sweep.go:92-224 | under an authority as section 7.1.6 of RFC 8555 has it every order that begins, first or renewal, is settled by the first pass later than the grace, twice the limit and three gaps |
| `Acme.IssuedIffGood` | internal/platform/acme/sweep.go:92-224 | past that bound the order is issued, with its certificate attached at one of the passes, exactly if no pass met with a refusal; otherwise it has failed |
| `Acme.ValidIsIssuedIff` | internal/platform/acme/sweep.go:203-216 | a pass issues an order exactly if the authority is reached, all challenges are accepted, the order is valid, its key is stored and the chain is fetched, usable and attached; it is then attached once, under that key, and expires as it says |
| `Acme.PassFailsIff` | internal/platform/acme/sweep.go:92-224 | a pass fails an order exactly on one of the refusals, and then drops its challenges |
| `Acme.FinalizesIff` | internal/platform/acme/sweep.go:189-201 | a request is handed in exactly if the order is ready and the authority takes it, and the key made for it is the one stored |
| `Acme.AcceptsIff` | internal/platform/acme/sweep.go:150-173 | past the grace all challenges are accepted exactly if the authority takes those still open |
| `Acme.GraceIsKept` | internal/platform/acme/sweep.go:117-173 | over every run an opened order holds the offered challenges, and until the nodes have had the grace a pass can only fail it |
| `Acme.DueIsRestartedIff` | internal/platform/acme/sweep.go:11-57 | a sweep begins a new order for an issued certificate exactly from 44 days before its end on, and otherwise leaves it |
| `Acme.RenewalsEnd` | internal/platform/acme/sweep.go:37-57 | a certificate found due has a new order begun at once, which within that time is issued if no pass met with a refusal and failed otherwise |
| `Acme.PassMeetsDeadline` | internal/platform/acme/sweep.go:92-224 | no pass puts off the latest time by which a pending order is done, except a finalization, by one limit and gap |
| `Acme.EmptyOrderNeverEnds` | internal/platform/acme/sweep.go:108-173 | an order opened without authorizations stays pending forever |
| `Acme.AlwaysReadyNeverEnds` | internal/platform/acme/sweep.go:189-201 | so does one whose authority stays ready after the request |
| `Acme.RunKeepsInv` | internal/platform/acme/service.go:173-214 | over every run issued rows hold no challenge, key or order URL, and a certificate is attached only with the key finalized last for the same order |
| `Acme.RenewalIsDueIff` | internal/platform/acme/sweep.go:37-40 | renewal is due exactly from 44 days before the end on |
| `Acme.OnlyPendingServes` | internal/platform/acme/service.go:142-157 | only pending rows have a challenge served for them |
| `Acme.Service.Begin` | internal/platform/acme/service.go:96-120 | a balancer has one row, begun anew, and no other row changes |
| `Acme.Service.Open` | internal/platform/acme/sweep.go:117-148 | records the order and one challenge per offer, or fails |
| `Acme.Service.Accept` | internal/platform/acme/sweep.go:150-173 | after the grace, all challenges are accepted or the order fails |
| `Acme.Service.Collect` | internal/platform/acme/sweep.go:175-224 | finalizes, attaches, waits or fails by the order's status |
| `Acme.Service.Advance` | internal/platform/acme/sweep.go:92-106 | chooses the step by what the row holds |
| `Acme.Service.SweepAll` | internal/platform/acme/sweep.go:11-35 | every row takes its own pass, renewals included |
| `Acme.Service.Tokens` | internal/platform/acme/service.go:142-157 | the answers served are exactly those of the challenges held |
| `Pages.WalkPages` | internal/cli/client.go:154-170 | following cursors ends, with exactly the project's rows in key order |
| `Pages.WalkIsExact` | internal/platform/instance/handler.go:176-198 | however the table changes between pages, no row is listed twice, every row there throughout is listed, and every row listed was one of the project's in the table its page was read from |
| `Pages.PageIn` | internal/platform/instance/repository.go:106-130 | the first rows beyond the cursor in key order, up to the limit |
| `Pages.CursorRoundTripIff` | internal/kernel/page/page.go:56-74 | a cursor other than the empty one reads back as itself exactly if its stamp does not hold the separator |
| `Pages.CutsIff` | internal/kernel/page/page.go:56-74 | cursor text, whoever made it, is read as exactly what stands before and after its first separator, and refused exactly without one |
| `Pages.WindowLimit` | internal/kernel/page/page.go:32-54 | a limit is refused exactly if it is given and not positive; otherwise it is the one given, or the fallback, up to the ceiling |
| `Logs.ShippingIsFaithfulIff` | internal/agent/logs.go:18-120 | every run over every growing file ships exactly the split of what it passed, if and only if no line fills a chunk with more behind it |
| `Logs.RunKeepsFaith` | internal/agent/logs.go:18-120 | for files whose lines fit, lines shipped are the split of the file up to the offset, with failed reports in between |
| `Logs.PendingLineIsShipped` | internal/agent/logs.go:53-92 | a reported tick that finds a complete line waiting moves the offset |
| `Logs.TickShipsItsLinesIff` | internal/agent/logs.go:53-114 | one tick ships the lines it passes exactly if it does not give up on an overlong one |
| `Logs.TickShipsAllItCan` | internal/agent/logs.go:69-114 | a tick leaves a complete line of its chunk behind only if it ships 500; an overlong line is shipped as far as the chunk goes, and a file that became shorter is read anew |
| `Logs.OnlyLastReturnsGo` | internal/agent/logs.go:110-110 | exactly the carriage returns at the end of a line go |
| `Logs.LinesConcat` | internal/agent/logs.go:94-114 | splitting up to the start of a line and on from there is splitting the whole |
| `Logs.SplitLines` | internal/agent/logs.go:94-114 | the loop takes the first lines of the chunk, up to the limit |
| `Logs.Shipper.ShipLogs` | internal/agent/logs.go:18-51 | each workload takes its own tick, and no other offset moves |
| `Logs.Shipper.ForgetLogs` | internal/agent/logs.go:122-136 | exactly the offsets of workloads still assigned stay |
| `Health.VerdictIsLatestPoint` | internal/agent/health.go:137-164 | the streamed verdict is that of the latest point of rise passes or fall failures, and unsettled exactly if there is none |
| `Health.FlipsAreApart` | internal/agent/health.go:137-164 | two flips to up are at least rise + fall probes apart |
| `Health.Prober.Settle` | internal/agent/health.go:137-164 | one probe changes that backend's counters and says whether the verdict changed |
| `Health.Prober.ForgetProbes` | internal/agent/health.go:52-61 | exactly the wanted backends stay |
| `Alerts.StateIsHistory` | internal/platform/alert/decide.go:15-61 | with writes stored, the state is what the trailing row of crossing sweeps says |
| `Alerts.CrossesIff` | internal/platform/alert/decide.go:15-75 | what counts as crossing: a report no older than three minutes with a known value strictly on the watched side |
| `Alerts.TurnIsKept` | internal/platform/alert/service.go:160-193 | a stored turn keeps the value of a report that can be read, and is stamped exactly if the state changes; one that cannot be stored changes nothing |
| `Alerts.FiringIsStamped` | internal/platform/alert/service.go:160-193 | over every run a firing alert was last stamped by the turn that made it fire |
| `Alerts.EventsAlternate` | internal/platform/alert/service.go:145-219 | whatever writes fail, events alternate, firing first |
| `Alerts.Watch.Sweep` | internal/platform/alert/service.go:145-193 | every listed alert takes one turn and announces what that turn announces |
| `Alerts.Watch.Visit` | internal/platform/alert/service.go:160-219 | the new state is stored before anything is announced |

## Left out

- Handlers, JSON, commands, console, terminal and SQL text: plumbing without a property of its own.
- AES-GCM, HKDF, SHA-256, X.509 and PEM: the AEAD is a pair of functions with stated properties, key names are a function assumed not to collide, certificates are opaque text.
- Runtimes, data path, resolver and proxy: they appear as what the environment may answer.
- Scheduler, network, node, quota, token, usage, service and volume modules: they appear only as assumptions. That a disk-carrying instance is released only when parked is what the scheduler checks on the view it read; a release on a view that went stale in between is not modelled.
- DiskMove.StepKeepsInv: assumes (`Allowed`) that a move begins with no copy elsewhere, that nobody starts the instance by hand mid-move and that it is released only when parked, all shown exact; that an instance observed stopped or failed is not running; that a node starts nothing on a list older than the pass in which it parked the disk, since its passes follow one another; and that a request has either taken effect or been lost before the node goes on.
- DiskMove.MoveEndsElsewhere: assumes that only the source parks; another node is assigned the instance only once it is parked, and reads it so.
- DiskMoveRetries.CutBeginRecoversIff: the drain's listing is the current row, and retries take a disk only while it is parked; what a user could ask for is excluded there, since it would recover anything.
- Stored stamps: compared as abstract keys in stored order; where a claim needs them to follow time (`ExecQueue`, `BackupSchedules`, `Jobs`) rows are inserted in stamp order. RFC 3339 text with dropped fraction zeros does not always sort by time.
- Floating point: tokens are exact integers in billionths and load is `real`; rounding is not modelled.
- Clocks: never go back, except where nothing is claimed about time.
- Messages, reasons, event texts, audit and log lines: not kept, except which events an alert announces.
- Pages.CursorRoundTripIff: the base64 layer of a cursor is left out; the text inside it is modelled.
- Backups.Service.StoreContent: the file written beside and renamed into place is one atomic replacement; the retention that follows is `BackupSchedules.Service.LandCopy`.
- Backups.Service.CreateBackup: looking up the volume, checking the name and the insert's errors are left out; they leave no row.
- Backups.ReadsBackIff: for a copy stored beside a content key it assumes that this one stream, with the salt drawn for it, does not open under another key, which is what an authenticated cipher gives except with negligible probability.
- Sealed.Seal: errors in writing the destination or in drawing the salt end the call and are left out.
- Sealed.Opener.Next: a read error that is no end of file is passed on and left out.
- Autoscale.Autoscaler.Apply: the recorded reason is left out.
- Autoscale.DecidesIff: for a load spread over all replicas; for one that only the warm replicas carry the averages are higher, and `WarmLoadMovesTowardIff` says what then goes wrong.
- Autoscale.EvenLoadMovesToward: a load carried only by the warm replicas while too few are warm is excluded, because the claim is then false (`WarmLoadMovesTowardIff`); so it is in the two results over runs that build on it.
- Backups.Service.MarkUploaded: what the node put in the object store is modelled as the last upload before the report; uploads to a presigned address after the copy is ready are excluded.
- BackupSchedules.Service.FireSchedule: one due schedule at a time; the loop over all due ones only repeats it.
- ExecQueue.Service.TakeCommand: needs distinct ids in the table, which the primary key gives.
- ExecQueue.Service.FinishCommand: takes the output as already clipped by `Clip`; exit code, message and truncation mark are left out.
- Jobs.Service.Remove: a refused deletion does not count as asked for, since nothing else changes.
- Jobs.Service.SweepAll: takes the list of jobs and of due jobs as the queries return them.
- Acme.Service.Open: saves succeed, as in all of `Acme`; account registration and name checks are left out.
- Acme.RunKeepsInv: concerns one balancer's row; rows do not share anything.
- Sealed values as JSON: the JSON pair only adds an encoding to `SealedBytesRoundTrip`.
- Logs.ShippingIsFaithfulIff: the file only grows; a truncated or replaced log starts over from the beginning and is not claimed to be shipped once.
- Restart backoff, balancer routes, expiry notices, event pruning, migrations and validation helpers: easy, or not a property the code has.
