# Downloader bot: a verified model

The bot archives the attachments of a Discord channel on request. A command takes a token
from its guild's bucket and enqueues a job; a worker walks the history, streams a zip into
blob storage, signs a link and sends it; users look at and cancel jobs through a small
index. This project models those five parts in Dafny and proves what they keep.

| files | part |
|---|---|
| `TokenBucket`, `RateStore`, `RateMachine`, `RefundBackout`, `RateLimiter` | the per-guild token bucket |
| `Pipeline`, `PipelineWorker` | upload once, deliver, survive crashes and retries |
| `JobIndex`, `CancelProtocol`, `CogCommands` | the index, /download, /status and /cancel |
| `Channel`, `ZipWalk`, `WalkFilters` | the walk that feeds the archive |
| `Calendar`, `Text`, `Durations`, `Filters`, `Utf8`, `Disposition` | filters, time windows, file names |
| `Options`, `Schedules` | the optional value, two facts about scaling, and runs of a machine |

`dafny verify dfyconfig.toml` checks everything.

## How the models are built

**Token bucket.** `RateMachine` lets any number of clients run `acquire` and `refund` on one
key, interleaved between WATCH, HMGET, the clock reading and EXEC, while time passes and the
key may be evicted at any moment from its expiry on (watchers may or may not notice). The
reference is `TokenBucket.Ideal`, a bucket that serves one request at a time and never
expires; `Served` says that every entry of the commit log carries that bucket's answer.
`RateLimiter` holds the two retry loops as methods of a mutable object, proved against the
same reference. Tokens and times are real numbers, and `capacity` and `refill_per_hour` are
at least 1. A refund that backs out "at capacity" is the one place where the code falls short
of the sequential bucket, because the clock is read after the snapshot and the bucket is left
without a transaction. `RefundBackout` says exactly when that costs the token: some clock
reading to come loses it if and only if the bucket holds less than the snapshot says
(`TokenAtStakeIff`). A window of commits since the HMGET that holds no credits can do so if and
only if it holds an allowed acquire (`WithoutCreditsIff`); with credits, it cannot if a later
credit makes up for each of them (`BackoutIsNoop`). `RefundCanBeLost` runs into it for every
configuration.

**Pipeline.** `Pipeline` is a machine over what survives an attempt: the cached URL and the
delivered marker with their expiries, the blob, the messages sent. An attempt may crash or
raise at every await, a failed upload may leave a partial blob behind, the cleanup may fail,
and the settings may differ between attempts (retention is at least one hour). Every
theorem is about every schedule. `PipelineWorker.Lineage` is `download_channel_media` step
by step on mutable fields; its validity says that its state is where the machine's schedule
leads, so the machine's theorems hold of it. The idempotency module says that a cached URL
runs out together with its link. It runs out later, by the time between signing and
caching: `ReuseIsTimelyIff` gives the exact condition and `ExpiredLinkCanBeSent` a run in
which a link is sent five seconds after it has run out. The marker may outlive the cached URL
as well: a retry then uploads again, skips the message and reports a link that nobody was sent
(`ReportedLinkCanBeUnsent`). `ReportedIsSentIff` says when the reported URL was sent.

**Jobs.** `JobIndex` keeps the two Redis keys with separate expiries; its theorems compare
them with the history of calls. With one lifetime for all jobs the index is exact. With
different lifetimes `RecordKeepsSoundIff` says precisely when recording a job hides another
one, and `NeverHiddenIff` when a whole history never does. `CancelProtocol` interleaves one job's enqueue, pickups, failures and retries with any
number of /cancel commands. The cancellation wrapper is external and modelled as
`tq.py` documents it: a pickup that finds the flag raises before the body. Nothing limits a
job to one refund: `SecondCancelRefundsAgain` is a run with two, `RefundedAgainIff` says when a
further command refunds again, and `InterleavedCancels` counts the refunds of any number of
commands at once.

**Walk.** `ZipWalk.Pick` lists the attachments that match and answer 200, in history order;
the loops are methods proved to yield those and to account for every response they opened.
A callback that fails leaves no trace in the result, as the contract of `Members` does not
depend on which calls fail.

**Names and filters.** The calendar is the proleptic Gregorian one of `datetime`, in UTC,
for the years from 2 on. The module says that the cog catches every bad filter before the
worker sees it. It does not: a duration that reaches back before year 1 is accepted and then
overflows (`AcceptedCanOverflow`), and `AcceptedResolves` shows that nothing else goes wrong.
`Disposition` contains a reader after section 4 of RFC 6266 and
section 3.2 of RFC 5987. `_format_content_disposition` promises to work for any file name;
`RoundTripIff` gives the exact set of names for which it does, and
`DisplayNameRoundTrip` shows that every name the bot builds is in it.

## Model

| member | source | states |
|---|---|---|
| `TokenBucket.TtlInSeconds` | downloader_bot/download/ratelimit.py:38-39 | the lifetime is at least an hour and, despite the floor division, long enough to earn the whole capacity |
| `TokenBucket.TtlCoversFullRefill` | downloader_bot/download/ratelimit.py:25-29 | what is earned in one lifetime is at least the capacity |
| `TokenBucket.TtlIsTwiceTheRefill` | downloader_bot/download/ratelimit.py:38-39 | the lifetime is an hour, or twice the whole seconds of a full refill if that is longer |
| `TokenBucket.HourlyRefill` | downloader_bot/download/ratelimit.py:5-7 | an hour after it was empty, a bucket holds `refill_per_hour` tokens, up to the capacity |
| `TokenBucket.FirstAnswers` | downloader_bot/download/ratelimit.py:77-92 | a missing bucket gives the first of its capacity; an empty one denies and asks for 3600 / `refill_per_hour` seconds |
| `TokenBucket.IdleBucketIsFull` | downloader_bot/download/ratelimit.py:27-29 | a bucket untouched for a lifetime reads as full, whatever it held: evicting it changes no answer |
| `TokenBucket.RefillComposes` | downloader_bot/download/ratelimit.py:80-84 | refilling up to some moment and then on gives what one refill over the whole span gives |
| `TokenBucket.BalanceBounds` | downloader_bot/download/ratelimit.py:77-84 | every balance read lies between zero and the capacity |
| `TokenBucket.RetryAfterBounds` | downloader_bot/download/ratelimit.py:90-92 | a denial asks for a positive wait, never longer than one token takes to earn |
| `TokenBucket.WhenRefilled` | downloader_bot/download/ratelimit.py:80-92 | a bucket short of a token holds one again if and only if the announced wait has passed |
| `TokenBucket.IdealBounds` | downloader_bot/download/ratelimit.py:86-98 | after any log the reference bucket holds between zero and the capacity, stamped with the last commit's clock value |
| `TokenBucket.CommitAccount` | downloader_bot/download/ratelimit.py:77-98 | conservation for one commit: what it spends plus what it leaves is covered by what it found, what was earned since, and its refund |
| `TokenBucket.RateAccount` | downloader_bot/download/ratelimit.py:77-98 | conservation over any stretch of the log: requests allowed plus tokens left are at most capacity + earned + refunds |
| `TokenBucket.RateBound` | downloader_bot/download/ratelimit.py:3-7 | between any two commits at most the capacity, the refunds and `refill_per_hour` for each 3600 seconds are allowed |
| `TokenBucket.DenialsCompose` | downloader_bot/download/ratelimit.py:90-98 | any number of denied requests in between leaves the later balance as it would have been |
| `TokenBucket.RetryAfterIsExact` | downloader_bot/download/ratelimit.py:62-64 | after a denial, and nothing but denials since, a request is allowed if and only if the announced wait has passed |
| `RateStore.SnapshotBalance` | downloader_bot/download/ratelimit.py:77-84 | a snapshot that no commit has outdated, missing or not, gives the balance of the never-expiring bucket |
| `RateStore.AcquireCommit` | downloader_bot/download/ratelimit.py:94-101 | an EXEC from an undisturbed snapshot writes the reference bucket's hash and returns its verdict |
| `RateStore.RefundCommit` | downloader_bot/download/ratelimit.py:158-167 | the same for a credit |
| `RateStore.PassiveSteps` | downloader_bot/download/ratelimit.py:99 | time passing, and eviction from the expiry on, keep the store's invariant |
| `RateStore.EvictionUnobservable` | downloader_bot/download/ratelimit.py:27-29 | whatever is stored or evicted answers every later acquire and refund as the never-expiring bucket does |
| `RateMachine.NextKeepsInv` | downloader_bot/download/ratelimit.py:70-105 | every step of every client, of the clock and of eviction keeps the invariant of the shared bucket and of all clients |
| `RateMachine.RunKeepsInv` | downloader_bot/download/ratelimit.py:139-169 | the same for every schedule |
| `RateMachine.Linearizable` | downloader_bot/download/ratelimit.py:9-13 | for any number of interleaved clients: the commits are a one-at-a-time run of the reference bucket in commit order, clock values never decrease, each client returns its own entry, which lies after everything committed before its call, and each entry is that of exactly one returned call |
| `RateMachine.RateLimited` | downloader_bot/download/ratelimit.py:3-7 | in every run the stored tokens lie between zero and the capacity, and every stretch of commits allows at most the capacity, its refunds and `refill_per_hour` for each 3600 seconds |
| `RateMachine.WaitIsExact` | downloader_bot/download/ratelimit.py:62-64 | in every run a denial's wait is exact, however often the bucket is polled meanwhile |
| `RateMachine.ExpiryUnobservable` | downloader_bot/download/ratelimit.py:27-29 | in every run the stored or evicted key answers all later calls like the reference bucket |
| `RateMachine.LockFree` | downloader_bot/download/ratelimit.py:102-105 | n calls together meet at most n(n-1)/2 WatchErrors, plus n for each eviction that watchers notice; the calls' own restarts sum to that count, so all steps of any run are at most 4n + 2n(n-1), plus 4n for each such eviction |
| `RateMachine.TotalSteps` | downloader_bot/download/ratelimit.py:70-105 | steps of all calls together are bounded by their restarts: four for each pass of each loop |
| `RateMachine.TotalStep` | downloader_bot/download/ratelimit.py:102-105 | every step keeps the WatchErrors counted equal to the sum of what the single calls met |
| `RateMachine.OwnedStep` | downloader_bot/download/ratelimit.py:94-101 | every step keeps each entry of the log owned by the one call that returned with it |
| `RateMachine.LeftAloneReturns` | downloader_bot/download/ratelimit.py:70-105 | from any state a call left alone returns within eight of its own steps, within four if its WATCH still stands |
| `RateMachine.ChargedTotal` | downloader_bot/download/ratelimit.py:168-169 | the restarts charged to commits add up to the triangular number |
| `RateMachine.SoloAcquire` | downloader_bot/download/ratelimit.py:73-101 | an undisturbed call commits, in one pass, what the bucket gives at the current clock |
| `RateMachine.SoloRefund` | downloader_bot/download/ratelimit.py:142-167 | an undisturbed refund of a bucket with room commits its credit in one pass |
| `RefundBackout.LosesIffBehind` | downloader_bot/download/ratelimit.py:148-157 | some clock reading from a moment on makes a refund back out of a bucket with room if and only if the bucket then holds less than the snapshot taken earlier |
| `RefundBackout.WithoutCreditsIff` | downloader_bot/download/ratelimit.py:148-157 | a window of commits without credits can cost a refund its token at some later clock reading if and only if it holds an allowed acquire |
| `RefundBackout.BehindByDeficit` | downloader_bot/download/ratelimit.py:77-98 | the bucket is never further behind an earlier snapshot than the allowed acquires since that no later credit made up for |
| `RefundBackout.BehindWithoutCredits` | downloader_bot/download/ratelimit.py:77-98 | without credits, once a token was taken the bucket is strictly behind the snapshot at the last commit, whatever was denied since |
| `RefundBackout.MadeUpForIsSafe` | downloader_bot/download/ratelimit.py:148-157 | a window whose allowed acquires are all made up for by later credits never costs the token |
| `RefundBackout.TokenAtStakeIff` | downloader_bot/download/ratelimit.py:143-157 | in every state of every run: if only time passes until a refund with its snapshot in hand reads the clock, some such reading loses the token if and only if the bucket now holds less than the snapshot says |
| `RefundBackout.BackoutIsNoop` | downloader_bot/download/ratelimit.py:154-157 | a refund that backs out "at capacity" finds the reference bucket full if, since its HMGET, every allowed acquire was made up for by a later credit |
| `RefundBackout.NoAcquiresNoDeficit` | downloader_bot/download/ratelimit.py:154-157 | so in particular if nobody acquired since the HMGET, whatever was denied, credited or evicted |
| `RefundBackout.UntouchedBackout` | downloader_bot/download/ratelimit.py:148-157 | with the key untouched since WATCH, a refund backs out at its clock reading if and only if the reference bucket is full then |
| `RefundBackout.AbsentIsFull` | downloader_bot/download/ratelimit.py:144-147 | a refund that finds no key backs out of a full reference bucket |
| `RefundBackout.RefundCanBeLost` | downloader_bot/download/ratelimit.py:148-157 | for every configuration: a run in which a refund backs out "at capacity", nothing is credited, and the bucket is one token short |
| `RateLimiter.DisturbMoves` | downloader_bot/download/ratelimit.py:9-12 | whatever others do at an await keeps the store's invariant, and the version tells whether they wrote |
| `RateLimiter.StillFresh` | downloader_bot/download/ratelimit.py:73-75 | a snapshot and a later clock value are good for a commit while the version stands |
| `RateLimiter.GuildBucket.constructor` | downloader_bot/download/ratelimit.py:77-78 | a new bucket has no key and no history |
| `RateLimiter.GuildBucket.Await` | downloader_bot/download/ratelimit.py:73-75 | what happens while a call waits is everything it is told, in order; it adds only commits of others |
| `RateLimiter.Decide` | downloader_bot/download/ratelimit.py:77-92 | the branches of refill and verdict compute the reference answer for the snapshot |
| `RateLimiter.GuildBucket.Put` | downloader_bot/download/ratelimit.py:95-99 | the hash, the expiry, the version and the history change together |
| `RateLimiter.GuildBucket.CommitAcquire` | downloader_bot/download/ratelimit.py:94-101 | the committed hash is the reference bucket's, and so is the verdict |
| `RateLimiter.GuildBucket.Acquire` | downloader_bot/download/ratelimit.py:42-105 | under any interference: one own commit, the last; its verdict is the reference bucket's at that point; each failed pass is charged to a change of the key |
| `RateLimiter.GuildBucket.CommitRefund` | downloader_bot/download/ratelimit.py:160-167 | the committed credit leaves the reference bucket's hash |
| `RateLimiter.SnapshotShowsRoom` | downloader_bot/download/ratelimit.py:143-157 | a snapshot, read at a later clock value, shows what the reference bucket held when it was taken |
| `RateLimiter.GuildBucket.Refund` | downloader_bot/download/ratelimit.py:108-169 | credits if and only if the reference bucket, as it stood at some point of the call, had room at a clock value of the call; otherwise writes nothing; undisturbed, exactly if the bucket has room |
| `Pipeline.HoldingStep` | downloader_bot/tasks/download.py:203-296 | between the cache check and the cache write no URL is cached, and the blob is the archive about to be cached |
| `Pipeline.CarryingStep` | downloader_bot/tasks/download.py:303-343 | the URL an attempt delivers has landed in the cache, and an attempt about to succeed has a send behind it |
| `Pipeline.CacheStep` | downloader_bot/download/idempotency.py:32-53 | a landed key stays, untouched, until it runs out; while it lives its archive is the blob |
| `Pipeline.NewEvent` | downloader_bot/tasks/download.py:201-296 | uploads begin and the blob changes only when no URL is cached |
| `Pipeline.OrderStep` | downloader_bot/tasks/download.py:201-203 | after a cache write has landed, uploads and blob changes come only once that key has run out |
| `Pipeline.SendStep` | downloader_bot/tasks/download.py:306-338 | every step keeps the account of messages, markers, losses and lapses |
| `Pipeline.EventStep` | downloader_bot/tasks/download.py:289-338 | which steps change the URL that landed last, and whether it was sent and marked since |
| `Pipeline.HandStep` | downloader_bot/tasks/download.py:201-203 | everybody works with the URL that landed last |
| `Pipeline.NewLinkUnsent` | downloader_bot/storage/azure.py:141-151 | a link that is about to be cached was never sent |
| `Pipeline.UnmarkedStep` | downloader_bot/tasks/download.py:306-338 | while something sent since the last cache write has no marker, every marker has run out and nobody succeeds |
| `Pipeline.NextKeepsInv` | downloader_bot/tasks/download.py:176-357 | every step, crash and exception keeps the whole invariant |
| `Pipeline.RunKeepsInv` | downloader_bot/tq.py:55-64 | and so does every sequence of attempts |
| `Pipeline.CachedLinkHasItsArchive` | downloader_bot/tasks/download.py:289-296 | in every reachable state a live cached link's archive is complete under the single storage key |
| `Pipeline.CachedLinkIsProtected` | downloader_bot/tasks/download.py:201-203 | no step deletes or overwrites the blob, or replaces the key, while a URL is cached |
| `Pipeline.SentLinkStaysGood` | downloader_bot/storage/azure.py:141-151 | a link that was sent finds its own archive until its own expiry |
| `Pipeline.NoEarlyReupload` | downloader_bot/download/idempotency.py:45-48 | after a cache write nothing is uploaded before the signed URL's expiry, however retention changes between attempts |
| `Pipeline.SuccessMeansSent` | downloader_bot/tasks/download.py:336-338 | a successful attempt, and a delivered marker, each imply a send that returned |
| `Pipeline.SendAccount` | downloader_bot/download/idempotency.py:76-77 | messages = markers written + failures before the marker (+ one in flight), each marker stands or was found run out once, and so there is at most one message more than such failures and run-out markers |
| `Pipeline.ReportedIsSentIff` | downloader_bot/tasks/download.py:305-310 | what a successful attempt reports was sent if and only if the marker was written after that URL landed in the cache; for a link, if and only if it is among the messages at all |
| `Pipeline.ReportedLinkCanBeUnsent` | downloader_bot/tasks/download.py:305-357 | a run in which the retry reports a new link that nobody was sent, after the link that was sent has run out |
| `Pipeline.ReusedLinkAge` | downloader_bot/download/idempotency.py:18-29 | a reused link has been expired for less than the time its cache write took |
| `Pipeline.ReuseIsTimelyIff` | downloader_bot/download/idempotency.py:7-9 | every reuse of a key hands out an unexpired link if and only if no time passed between signing and the write; the documentation promises it always |
| `Pipeline.ExpiredLinkCanBeSent` | downloader_bot/download/idempotency.py:7-9 | a run in which a retry sends a link that has run out |
| `PipelineWorker.RunGrows` | downloader_bot/tasks/download.py:94-357 | one more effect extends the machine's run by one step |
| `PipelineWorker.Lineage.Pause` | downloader_bot/tasks/download.py:183-186 | time passes at an await, and the await may fail or never return |
| `PipelineWorker.Lineage.Stop` | downloader_bot/tasks/download.py:336-337 | an exception or a crash ends the attempt; a send without its marker counts as lost |
| `PipelineWorker.Lineage.GetCachedArchiveUrl` | downloader_bot/download/idempotency.py:18-29 | the cached URL while its key lives, else nothing |
| `PipelineWorker.Lineage.CacheArchiveUrl` | downloader_bot/download/idempotency.py:32-53 | the URL is stored for 3600 seconds for each hour of retention, counted from the moment of the write |
| `PipelineWorker.Lineage.IsDelivered` | downloader_bot/download/idempotency.py:56-66 | true exactly while the marker lives; one that has run out is gone |
| `PipelineWorker.Lineage.MarkDelivered` | downloader_bot/download/idempotency.py:69-89 | the marker is written after a send, for 3600 seconds for each hour of retention from the write |
| `PipelineWorker.Lineage.PutPart` | downloader_bot/storage/azure.py:126-139 | a failing upload may leave a partial blob under the key |
| `PipelineWorker.Lineage.PutArchive` | downloader_bot/storage/azure.py:126-134 | an upload that returns leaves a new complete archive under the key |
| `PipelineWorker.Lineage.SignUrl` | downloader_bot/storage/azure.py:141-151 | the link names the archive just uploaded and expires 3600 seconds for each hour of retention after the signing |
| `PipelineWorker.Lineage.FailUpload` | downloader_bot/tasks/download.py:274-275 | an exception inside the upload leads to the cleanup |
| `PipelineWorker.Lineage.NoMatchingAttachments` | downloader_bot/tasks/download.py:258-273 | an empty channel leads to the cleanup and then to the sentinel |
| `PipelineWorker.Lineage.DeleteBlob` | downloader_bot/storage/azure.py:179-195 | the blob is gone or, after a failed delete, unchanged; either way the attempt goes on as it would |
| `PipelineWorker.Lineage.EmitDeliver` | downloader_bot/tasks/download.py:312-328 | the settings decide between the results channel and a direct message |
| `PipelineWorker.Lineage.PostToChannel` | downloader_bot/download/deliver.py:47-72 | posts, or falls back to the direct message when the channel is unusable |
| `PipelineWorker.Lineage.DmUser` | downloader_bot/download/deliver.py:23-44 | exactly one message with exactly this URL |
| `PipelineWorker.Lineage.Conclude` | downloader_bot/tasks/download.py:340-357 | a finished attempt names the URL it reports |
| `PipelineWorker.Lineage.Prepare` | downloader_bot/tasks/download.py:183-201 | an attempt that gets to the cache check has only passed time |
| `PipelineWorker.Lineage.Cleanup` | downloader_bot/tasks/download.py:274-287 | a delete that works leaves no blob, one that fails changes nothing; a failed upload ends the attempt, an empty channel goes on to its sentinel |
| `PipelineWorker.Lineage.Upload` | downloader_bot/tasks/download.py:248-287 | when the attempt goes on, and with what: the sentinel exactly for an empty channel, else a link to the new complete archive; a failed upload or signing leaves no blob once its cleanup works |
| `PipelineWorker.Lineage.ObtainUrl` | downloader_bot/tasks/download.py:201-301 | a live cached URL is reused with blob and key untouched; otherwise the new URL is cached before delivery |
| `PipelineWorker.Lineage.UploadAndCache` | downloader_bot/tasks/download.py:204-296 | a URL comes out if and only if every await of fetch, upload and cache write returns; it is then the cached one |
| `PipelineWorker.Lineage.PrepareUrl` | downloader_bot/tasks/download.py:183-301 | when there is a URL to deliver, when the marker will be looked up, and whether the URL is the cached one or a new one |
| `PipelineWorker.Lineage.SendEmbed` | downloader_bot/tasks/download.py:324-335 | exactly one message with this URL if every await on its path returns, else none |
| `PipelineWorker.Lineage.Deliver` | downloader_bot/tasks/download.py:312-338 | one message and its marker; on failure at most one message, then counted as lost |
| `PipelineWorker.Lineage.DeliverOnce` | downloader_bot/tasks/download.py:305-338 | skips the message exactly if the marker is alive at the lookup, and gets through exactly if every await on its path returns |
| `PipelineWorker.Lineage.ConcludeAttempt` | downloader_bot/tasks/download.py:340-357 | the URL reported was sent if and only if the marker was written after it landed |
| `PipelineWorker.Lineage.Attempt` | downloader_bot/tasks/download.py:176-357 | returns a result if and only if every await on its path returns; sends its URL unless the marker is alive at the lookup; a reported link was sent if and only if the marker was written after it landed |
| `PipelineWorker.Lineage.DownloadChannelMedia` | downloader_bot/tasks/download.py:94-357 | when there is a result, what it names, whether that was sent now or at all; a new link, its key and the marker last the hours the guild keeps archives, or 24 in a DM and under `dm_me`, from signing, caching and marking; results go to a channel only as the guild is set and not under `dm_me`; in any case the account of messages is exact and a live link has its archive |
| `JobIndex.LatestExists` | downloader_bot/download/jobs.py:115-120 | a non-empty set has a highest score, ties broken by the greatest id |
| `JobIndex.LatestUnique` | downloader_bot/download/jobs.py:115-120 | and only one |
| `JobIndex.RecordMirrors` | downloader_bot/download/jobs.py:77-81 | recording keeps both keys in step with the history |
| `JobIndex.ForgetMirrors` | downloader_bot/download/jobs.py:138-141 | forgetting keeps both keys in step with the history |
| `JobIndex.LaterMirrors` | downloader_bot/download/jobs.py:70-71 | time alone keeps them in step: keys only run out |
| `JobIndex.RegularGrows` | downloader_bot/download/jobs.py:52-141 | which calls may follow: later ones, with the same lifetime, by the owner of the job |
| `JobIndex.ReplayMirrors` | downloader_bot/download/jobs.py:52-141 | after any history of calls with one lifetime the keys hold exactly what the history says |
| `JobIndex.LiveMetaIsListed` | downloader_bot/download/jobs.py:84-101 | a meta is readable if and only if its job is neither forgotten nor expired, and is then listed for its owner |
| `JobIndex.LatestIsNewest` | downloader_bot/download/jobs.py:104-120 | the job found is active, none active was recorded later, and its meta is readable |
| `JobIndex.LatestIsFound` | downloader_bot/download/jobs.py:104-120 | whenever the user has an active job, one is found |
| `JobIndex.RecordKeepsSoundIff` | downloader_bot/download/jobs.py:78-80 | with different lifetimes: every readable job stays listed if and only if the new lifetime ends no earlier than those of the user's other jobs |
| `JobIndex.TimeAndForgetKeepSound` | downloader_bot/download/jobs.py:138-141 | neither time nor forgetting hides a readable job |
| `JobIndex.SoundAfterIff` | downloader_bot/download/jobs.py:77-81 | one more call after a history that hid nothing hides nothing if and only if the job recorded, if any, ends last |
| `JobIndex.NeverHiddenIff` | downloader_bot/download/jobs.py:52-141 | over whole histories with any lifetimes: no readable job is ever hidden if and only if every job recorded ends no earlier than its user's other readable jobs |
| `JobIndex.ShorterLifetimeHidesJob` | downloader_bot/download/jobs.py:70-71 | an hour-long job recorded after a day-long one hides it from the list two hours later |
| `JobIndex.Redis.constructor` | downloader_bot/download/jobs.py:31-32 | an empty index with an empty history |
| `JobIndex.Redis.RecordJob` | downloader_bot/download/jobs.py:52-81 | both keys and both expiries in one step, and nothing else |
| `JobIndex.Redis.ForgetJob` | downloader_bot/download/jobs.py:123-141 | both entries go, missing ones are fine |
| `JobIndex.Redis.GetJobMeta` | downloader_bot/download/jobs.py:84-101 | the meta of an unexpired key, which is that of a job neither forgotten nor expired |
| `JobIndex.Redis.LatestJobForUser` | downloader_bot/download/jobs.py:104-120 | the highest score, which is the most recently recorded active job whenever there is one |
| `CancelProtocol.NextKeepsInv` | downloader_bot/cogs/jobs.py:218-268 | every step of commands, worker and broker keeps the invariant of the job |
| `CancelProtocol.RunKeepsInv` | downloader_bot/cogs/jobs.py:218-268 | and so does every interleaving |
| `CancelProtocol.RefundIsHonest` | downloader_bot/cogs/jobs.py:229-254 | a refund implies that this job's enqueue took a token in that guild, and that no attempt had emitted progress when that command set the flag |
| `CancelProtocol.AtMostOneBodyAfterFlag` | downloader_bot/tasks/download.py:178-186 | once the flag is set at most one more body starts, that of an attempt already past its check |
| `CancelProtocol.RefundedJobRunsAtMostOnce` | downloader_bot/download/ratelimit.py:117-119 | a refunded job runs its body at most once in its whole life |
| `CancelProtocol.CancellationIsTerminal` | downloader_bot/tq.py:46-64 | after a cancelled attempt no body starts and nothing is retried |
| `CancelProtocol.StoppedForGood` | downloader_bot/tq.py:46-64 | once the flag is set and no attempt is past its check, no schedule starts a body or retries again |
| `CancelProtocol.PickupAfterFlagStops` | downloader_bot/tq.py:46-52 | in every run: once a pickup follows a flag, no body starts and nothing is retried ever after |
| `CancelProtocol.SoloCancel` | downloader_bot/cogs/jobs.py:235-254 | an undisturbed cancel refunds if and only if a token was taken, no result is stored and no progress was emitted |
| `CancelProtocol.OnceStep` | downloader_bot/cogs/download.py:237-250 | a job's meta is written once; every command acts on that one and every refund is its doing |
| `CancelProtocol.RefundedAgainIff` | downloader_bot/cogs/jobs.py:243-254 | in every reachable state with a refund already made: a further undisturbed cancel refunds again if and only if no result is stored and no progress was emitted |
| `CancelProtocol.SecondCancelRefundsAgain` | downloader_bot/cogs/jobs.py:243-254 | a run from the start in which two cancels before pickup both refund: at most one refund per job does not hold |
| `CancelProtocol.InterleavedCancels` | downloader_bot/cogs/jobs.py:235-254 | any number of cancels interleaved in any way while the worker is quiet: each that gets through refunds if and only if the job is eligible, so there are as many refunds as commands, or none |
| `CancelProtocol.StatusIsTruthful` | downloader_bot/cogs/jobs.py:134-175 | over reached states, each phase is shown if and only if it is so: "cancelled" if a flag was set, else "done" if a stored result stands, else "queued" if no body has started, else "running" |
| `CancelProtocol.DoneMeansEnded` | downloader_bot/cogs/jobs.py:152-159 | "done" means that an attempt of this job succeeded or gave up |
| `CancelProtocol.ReadyStep` | downloader_bot/tq.py:55-64 | a result is there exactly while the last one stored has not been dropped |
| `CancelProtocol.SoloPickup` | downloader_bot/tasks/download.py:178-186 | a queued job that nobody cancelled is picked up and runs its body |
| `CancelProtocol.SoloWorker` | downloader_bot/tq.py:55-64 | and then it is done, or queued again for a retry |
| `CogCommands.Download` | downloader_bot/cogs/download.py:83-263 | which reply in which case, also when the command raises; the bucket is asked exactly once, only for metered commands that passed the checks; the job is enqueued and recorded exactly when the reply says so; the recorded token flag is true |
| `CogCommands.ResolveJob` | downloader_bot/cogs/jobs.py:52-105 | the job the argument names, if and only if it is readable and the caller may act on it; without an argument the caller's newest active job, whenever there is one |
| `CogCommands.MayActOn` | downloader_bot/cogs/jobs.py:94-105 | the checks in their order amount to: the owner of the job, the owner of the bot, or the owner of its guild from within that guild |
| `CogCommands.Cancel` | downloader_bot/cogs/jobs.py:200-268 | the job the argument names is cancelled if and only if it is readable and the caller may act on it; the flag first, then the result, then the progress, with the worker at work before each reading; a refund is tried exactly when a guild token was taken and neither reading sees anything; it credits if the bucket had room at some point of the call, undisturbed exactly if it has room |
| `CogCommands.WorkerRuns` | downloader_bot/cogs/jobs.py:229-242 | what the worker emits while a command waits is added, and nothing is taken back |
| `CogCommands.NewestIsOwn` | downloader_bot/cogs/jobs.py:75-87 | the newest active job of a user names the user as owner, so the check that follows passes |
| `Calendar.YearStep` | downloader_bot/download/filters.py:148-149 | consecutive years are 365 or 366 days apart, by the leap rule |
| `Calendar.MonthsClosedForm` | downloader_bot/download/filters.py:136-137 | the days before each month are those of the Gregorian calendar, by a closed form |
| `Calendar.KnownDays` | downloader_bot/download/filters.py:132-133 | the day numbers and weekdays of the Unix epoch and of a leap day |
| `Calendar.OrdinalOrder` | downloader_bot/download/filters.py:128-129 | comparing dates by fields is comparing day numbers, and different dates have different numbers |
| `Calendar.StampOrder` | downloader_bot/download/filters.py:155-157 | comparing moments by fields is comparing microseconds |
| `Calendar.PrevDayOrdinal` | downloader_bot/download/filters.py:144-145 | the day before is a valid date one day earlier, across months, leap years and New Year |
| `Calendar.MinusDaysOrdinal` | downloader_bot/download/filters.py:171-178 | subtracting days gives a valid date exactly that many days earlier |
| `Calendar.WeekStartIsMonday` | downloader_bot/download/filters.py:132-133 | the start of the week is the Monday on or before, at midnight |
| `Calendar.PreviousMonthIndex` | downloader_bot/download/filters.py:144-145 | the previous month's start is the first of the month one index earlier, also in January |
| `Calendar.WindowEdges` | downloader_bot/download/filters.py:169-187 | the edges of every window are the first moments of their day, week, month or year, or now |
| `Calendar.PeriodIsOneTick` | downloader_bot/download/filters.py:152-187 | a closed period is exactly the moments whose day, week, month or year index is one less than now's; a running one those of now's index before now |
| `Calendar.NamedDaysMean` | downloader_bot/download/filters.py:169-178 | the names of days and weeks: this or the previous day or Monday-based week, up to now |
| `Calendar.NamedMonthsMean` | downloader_bot/download/filters.py:179-187 | the names of months and years: this or the previous month or year, up to now |
| `Calendar.UnknownPeriod` | downloader_bot/download/filters.py:188-190 | exactly the eight names are known |
| `Calendar.WindowsMeet` | downloader_bot/download/filters.py:169-187 | each "this" window starts where the matching "last" window ends |
| `Calendar.WindowOrder` | downloader_bot/download/filters.py:155-157 | no window is reversed or reaches past now |
| `Text.DecimalRoundTrip` | downloader_bot/download/filters.py:108 | reading a printed number gives the number |
| `Text.SpacesAre` | downloader_bot/download/filters.py:78 | the code points that count as blanks |
| `Text.LowerMeans` | downloader_bot/download/filters.py:203 | capitals become the small letters at the same place of the alphabet, nothing else changes |
| `Text.TrimIs` | downloader_bot/download/filters.py:203 | trimming takes the runs at both ends, and nothing else |
| `Durations.SpellsParses` | downloader_bot/download/filters.py:102-113 | blanks, digits, a unit and blanks parse as the duration they spell, as a zero magnitude, or as too long for `timedelta` |
| `Durations.ParsesSpells` | downloader_bot/download/filters.py:78 | whatever is not rejected by the expression splits into blanks, digits, a unit and blanks |
| `Durations.ParseIsGrammar` | downloader_bot/download/filters.py:87-113 | accepted strings, zero magnitudes, durations too long for `timedelta` and malformed strings are exactly those of the grammar, each with its one meaning |
| `Durations.ShowRoundTrip` | downloader_bot/download/filters.py:90-96 | every positive number with a unit, blanks around it or not, parses back, up to the longest `timedelta` |
| `Durations.UnitsMean` | downloader_bot/download/filters.py:78-84 | `m`, `h`, `d` and `w` are 60, 3600, 86400 and 604800 seconds, and there is no other unit |
| `Durations.LongestDuration` | downloader_bot/download/filters.py:113 | 999999999 days can be represented, one more cannot |
| `Filters.CategoriesPartition` | downloader_bot/download/filters.py:49-75 | every media type is in exactly one category |
| `Filters.CategoriesMean` | downloader_bot/download/filters.py:46-75 | what each of the five names stands for, by the media type's own prefix; no other name stands for anything |
| `Filters.ContentTypeMeans` | downloader_bot/download/filters.py:202-203 | the media type is what stands before the first semicolon, without blanks around it, in small letters |
| `Filters.AcceptsMeans` | downloader_bot/download/filters.py:213-221 | exactly the messages of the author asked for, the media types the guild allows and the category asked for; what is not given does not matter |
| `Filters.FiltersOnlyNarrow` | downloader_bot/download/filters.py:10-12 | the matcher is the conjunction of policy, author and category, so users narrow and never widen |
| `Filters.OneCategoryAccepts` | downloader_bot/download/filters.py:206-223 | what passes without a category passes with exactly one of the five |
| `Filters.BuildFilters` | downloader_bot/cogs/download.py:44-69 | exactly the entries given, or None when every input is unset |
| `Filters.EntriesKeys` | downloader_bot/cogs/download.py:58-68 | each entry is present if and only if its input is, with its value |
| `Filters.ResolveReads` | downloader_bot/download/filters.py:226-274 | what the worker makes of the dictionary, its two ways of failing included, is read off the inputs |
| `Filters.AcceptedResolves` | downloader_bot/download/filters.py:245-248 | whatever the cog accepts meets no parse error in the worker, and resolves, to the same durations or the same window, if and only if neither duration reaches back before year 1; otherwise the worker overflows |
| `Filters.AcceptedCanOverflow` | downloader_bot/download/filters.py:270-272 | `before` = `200000w` is accepted by the cog and overflows in the worker, on any day up to the year 3800 |
| `Filters.DaysBack` | downloader_bot/download/filters.py:271-272 | a bound of n days is the same time of day on the date n days earlier |
| `Filters.HoursBack` | downloader_bot/download/filters.py:271-272 | hours and minutes back within the day |
| `Filters.RejectedWouldFail` | downloader_bot/cogs/download.py:141-151 | conversely the worker resolves exactly what the cog accepts and what stays within the calendar, and empty durations, which the cog rejects and the worker would ignore |
| `WalkFilters.WalkMembers` | downloader_bot/download/zip_stream.py:217-247 | a walk holds exactly the positions that pass the matcher and answer 200 |
| `WalkFilters.WalkMeans` | downloader_bot/download/zip_stream.py:217-247 | a filtered walk holds exactly the attachments that answer 200, of the author, the allowed media types and the category asked for |
| `WalkFilters.FilteredWalkIsSubsequence` | downloader_bot/download/filters.py:10-12 | a filtered walk is the policy-only walk with members left out, in the same order |
| `WalkFilters.InOneCategory` | downloader_bot/download/filters.py:69-75 | each member of the uncategorised walk is in exactly one categorised walk |
| `WalkFilters.CategoriesPartitionTheWalk` | downloader_bot/download/filters.py:46 | the five categorised walks make up the uncategorised one, counted with multiplicity |
| `ZipWalk.PickIsTheSelection` | downloader_bot/download/zip_stream.py:194-247 | the list holds exactly the selected positions, each once, in history order |
| `ZipWalk.IncreasingUnique` | downloader_bot/download/zip_stream.py:194-247 | a list in history order is determined by what it holds |
| `ZipWalk.MemberNamesTell` | downloader_bot/download/zip_stream.py:241-242 | a member's name is the id of its message, an underscore and the file name, and can be taken apart again |
| `ZipWalk.AccountStep` | downloader_bot/download/zip_stream.py:217-247 | one more attachment looked at keeps the account of opened and released responses |
| `ZipWalk.Attachments` | downloader_bot/download/zip_stream.py:217-247 | the loop over one message yields its selected attachments and counts their number and bytes |
| `ZipWalk.Members` | downloader_bot/download/zip_stream.py:148-247 | members, opened and released responses, and progress reports of the whole walk, whatever the callback does |
| `ZipWalk.EveryResponseOnce` | downloader_bot/download/zip_stream.py:221-247 | each opened response was either released or handed to exactly one member |
| `ZipWalk.DueSpaced` | downloader_bot/download/zip_stream.py:195-198 | reports are at least the throttle apart, the first counted from the start |
| `ZipWalk.DueComplete` | downloader_bot/download/zip_stream.py:170-173 | with a monotonic clock the reports come exactly at the messages that lie at least the throttle after the start and after every earlier report |
| `ZipWalk.FractionRange` | downloader_bot/download/zip_stream.py:78-87 | the fraction lies between 0 and 1, also with reversed bounds |
| `ZipWalk.FractionMeans` | downloader_bot/download/zip_stream.py:66-71 | nothing at the newest message, all at the oldest, in proportion between; clamped outside, and absent without both bounds |
| `ZipWalk.FractionMonotone` | downloader_bot/download/zip_stream.py:81-87 | older messages have larger or equal fractions |
| `ZipWalk.FractionsAdvance` | downloader_bot/download/zip_stream.py:66-69 | on newest-first walks with both bounds the reported fractions never decrease |
| `ZipWalk.PeekOrRaiseEmpty` | downloader_bot/download/zip_stream.py:250-280 | raises if and only if the walk ends with nothing yielded; otherwise passes members and ending through unchanged |
| `ZipWalk.BuildZipStream` | downloader_bot/download/zip_stream.py:283-340 | the composed stream raises if and only if the history ends and no attachment in it matches and answers 200; otherwise it holds exactly those that do and ends as the history does |
| `ZipWalk.StreamResponse` | downloader_bot/download/zip_stream.py:124-145 | a prefix of the body, all of it unless the consumer stops or the body fails; the connection is released exactly once if the stream was started, else never |
| `Utf8.DecodeFirstOf` | downloader_bot/storage/azure.py:53 | the first character of an encoding decodes to itself, whatever follows |
| `Utf8.DecodeEncode` | downloader_bot/storage/azure.py:53 | decoding undoes encoding for every string of scalar values |
| `Utf8.QuoteRoundTrip` | downloader_bot/storage/azure.py:53 | percent-decoding a quoted string gives its UTF-8, which decodes to the string |
| `Utf8.UnquoteAlphabet` | downloader_bot/storage/azure.py:53-54 | a well-formed ext-value has only attr-char and percent-escapes |
| `Utf8.AttrCharIsToken` | downloader_bot/storage/azure.py:45 | attr-char is a token character other than `*`, `'` and `%`, after section 3.2.1 of RFC 5987 |
| `Utf8.UnreservedAre` | downloader_bot/storage/azure.py:53 | what quoting leaves alone: letters, digits and `-._~` |
| `Utf8.QuotedBytes` | downloader_bot/storage/azure.py:53 | every other byte becomes a percent sign and two capital hexadecimal digits |
| `Utf8.KnownEncodings` | downloader_bot/storage/azure.py:53 | known encodings of one, two, three and four bytes |
| `Disposition.CollapseClean` | downloader_bot/tasks/download.py:84 | no forbidden character is left |
| `Disposition.CleanStays` | downloader_bot/tasks/download.py:84 | a string without forbidden characters is left alone |
| `Disposition.CollapseRun` | downloader_bot/tasks/download.py:84 | every longest run of forbidden characters becomes one dash, and nothing else changes |
| `Disposition.ForbiddenAre` | downloader_bot/tasks/download.py:84 | the nine forbidden characters and the blanks |
| `Disposition.SanitizeOnlyTrims` | downloader_bot/tasks/download.py:84 | after collapsing, only dashes at the two ends are taken away |
| `Disposition.SanitizeIsCleanAndStable` | downloader_bot/tasks/download.py:83-84 | the sanitised name is clean, undashed at the ends, and stays the same when sanitised again |
| `Disposition.SanitizeKeeps` | downloader_bot/tasks/download.py:84 | a name that needs no sanitising is kept |
| `Disposition.DisplayFilenameClean` | downloader_bot/tasks/download.py:77-85 | the whole file name is free of forbidden characters |
| `Disposition.DisplayFilenameMeans` | downloader_bot/tasks/download.py:83-85 | `channel-`, the sanitised name, the date and `.zip`; the id for a missing name, `unnamed` for one of forbidden characters only |
| `Disposition.IsoDateMeans` | downloader_bot/tasks/download.py:85 | year, month and day in four, two and two digits |
| `Disposition.ReadsBack` | downloader_bot/storage/azure.py:48-54 | what a reader makes of the value, for every file name |
| `Disposition.RoundTripIff` | downloader_bot/storage/azure.py:42-47 | the reader gets the name back if and only if it may stand between quotation marks and, being ASCII, has no backslash; the documentation promises any file name |
| `Disposition.QuoteInNameIsLost` | downloader_bot/storage/azure.py:42-50 | a name with a quotation mark cannot be read back |
| `Disposition.DisplayNameRoundTrip` | downloader_bot/tasks/download.py:252-257 | for every channel name, id and day the reader gets back the file name the bot built |
| `Disposition.StarredFormIsExtValue` | downloader_bot/storage/azure.py:52-54 | the extended form is attr-chars and percent-escapes that carry the name; the plain one is ASCII |
| `Disposition.AsciiForm` | downloader_bot/storage/azure.py:48-50 | the value for an ASCII name, letter for letter |
| `Disposition.StarredForm` | downloader_bot/storage/azure.py:52-54 | the value for any other name, letter for letter |
| `Disposition.FallbackMeans` | downloader_bot/storage/azure.py:52 | the fallback keeps ASCII characters in place and has a question mark for each other one |

## Left out

- Rounding: tokens, clock values and fractions are real numbers, and a link's expiry is not cut to whole seconds.
- Other guilds' buckets: one key is modelled, since no operation touches two. All clients share one clock that does not run backwards.
- `RateLimiter.GuildBucket.Await`: a rival's call runs to its commit within one await; the full interleaving of half-finished calls is `RateMachine`.
- `RateMachine.Linearizable`: a refund that backs out leaves no entry in the log; `RefundBackout` says when that matters.
- `RefundBackout.MadeUpForIsSafe`: one direction for windows with credits, since whether an acquire without a later credit costs the token then depends on the clock values of the window; `RefundBackout.LosesIffBehind` is the exact condition for each window.
- `PipelineWorker.Lineage.DownloadChannelMedia`: the best-effort `forget_job` after a success touches only the index; `CancelProtocol` lets the meta disappear at any moment instead.
- Concurrent attempts of one job, and the exact number of retries the retry middleware allows: attempts follow one another, any number of them.
- `Pipeline.SendAccount`: counts sends that returned; a send that reached Discord but raised is not seen.
- `CancelProtocol.RefundIsHonest`: assumes that progress, once emitted, stays readable. The result backend's own lifetimes are not modelled.
- `CancelProtocol.StatusIsTruthful`: the precedence of phases only, not the numbers the embed shows.
- Job ids are numbers (32 hexadecimal digits); the pattern also admits upper-case spellings, under which no key is found. The enqueue timestamp is not kept in the meta.
- `JobIndex.Redis.RecordJob`: the score is read at the transaction, not just before it.
- `ZipWalk.Members`: the walk runs to its end before anything is consumed, so a consumer that stops between two members is not modelled; within a member's body `StreamResponse` models it. The snowflake bounds are inputs, and an attachment's URL is its position.
- Pruning by `before` and `after` happens on Discord's side: the history a walk gets is an input.
- Unicode digits in durations, numbers padded with zeros to more than 4300 digits, lower-casing outside ASCII, and a current date in year 1.
- What Discord does with bounds before its first snowflake.
- `Disposition.DisplayNameRoundTrip`: control characters other than white space survive sanitising, and the reader accepts them between the quotation marks.
- The byte format of the archive, Discord, aiohttp, RabbitMQ, Azure and Redis beyond the outcomes the code branches on; the rewriting of storage host names in development.
- The size cap `max_archive_size_bytes`, the setup command, the settings table, configuration, embeds, logging, the health check and the other cogs: one branch or presentation each.
