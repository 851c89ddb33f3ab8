# Verification of qnapexporter

A Dafny model of the two stateful halves of qnapexporter, with proofs about whole runs.

**Notifications to Grafana regions** (`lib/notifications`). A notification is split into tags, rewritten rule by
rule from an end event to the start event it closes, looked up in a bounded cache of open start events, and either
posted as a new annotation or sent as a PATCH that closes a region.

- `Text.dfy`, `Rewriting.dfy`: literal replace-all and the rule table. Rewritten texts are normal forms; an end event
  rewrites to exactly the text its start event had.
- `TagExtraction.dfy`, `TagPreservation.dfy`: the tag parser and its printer are inverse; rewriting keeps the tags.
- `RegionCache.dfy`, `RegionMatcher.dfy`: the matcher on values and as an in-place slice (array, offset, length).
- `Annotations.dfy`, `RegionPairing.dfy`, `Annotator.dfy`: posts as interleaved three-step transactions against one
  Grafana server, and the object whose `Post` is those three steps in a row.
- `RuleTable.dfy`: the four rules without capture groups, text by text: each end event is looked up as its start event.
- `FirmwareChain.dfy`: what happens to an event that both ends one region and starts another.

**The scrape engine** (`lib/exporter/prometheus`, `main.go`).

- `Basics.dfy`: optional values and durations, shared by all.
- `FanIn.dfy`: `WriteMetrics` as a transition system (workers, WaitGroup, bounded channel, closer, consumer) for any
  number of collectors and any capacity of at least one. The source's capacity is 4.
- `Schedule.dfy`: the environment expiry and the healthcheck expiry.
- `Ups.dfy`, `Volumes.dfy`, `Disks.dfy`: the UPS connection limiter, the volume enumeration and free-size cache, and the
  adaptive disk scan.

Each object is a class whose methods are proved against functions on values; the theorems are about those functions
and about runs of them. HTTP calls, commands, the UPS daemon and the clock are arguments: a `Reply`, a bay, a `Call`,
readings of one nondecreasing clock in nanoseconds. A Go string is a sequence of characters; every pattern is ASCII.

## What the proofs show about the code

- A chained event is swallowed. "Started updating firmware" ends a download (`regionmatcher.go:37`) and starts an
  update (`regionmatcher.go:38`). If a download of the same wording is open, that is "Started downloading firmware."
  with the full stop and no version, posting "Started updating firmware." closes that region and the text is not
  cached, so the later "Updated system." does not find it. A download announced with a version has another wording and
  is not touched. `FirmwareChain.LastFindsIff` gives the exact condition just after the post, and
  `FirmwareChain.ChainedOverRuns` carries it over whole runs.
- The UPS hour never ends under regular scraping: each call that returns the stored error restarts it
  (`ups.go:66-68`). `Ups.FrequentCallsStarve` gives the exact condition and `Ups.StarvedFromStart` reaches it from the
  zero state.
- An expired scrape that fails at or before a volume with a cached size makes the scrapes of the next minute take that
  size for fresh, however old it is, because the fetch time is moved before the fetches (`volinfo.go:103-118`). A
  failure in an unexpired scrape, or one with no cached size at or after it, does no harm.
  `Volumes.FreshIffLastExpiredHarmless` is the exact condition over runs; `Volumes.HarmfulFailureGoesStale` and
  `Volumes.StaleOfAnyAge` show the old sizes being reported.
- A scrape at the very instant the exporter was made does not read the environment: `Schedule.FreshUnlessAtStart`.
- An annotation whose closing call was made is never PATCHed again, whether or not the call succeeded: the entry is
  deleted before the call (`annotator.go:102`), and `RegionPairing.OrphanIsNeverPatched` shows that no later event
  reaches it.
- Overlapping metrics requests can leave a start ping unanswered: `Schedule.EndPingMissingIff` says exactly when.
- A failed `hdnum` command sets the slot count to -1 (`prometheus.go:243`), and the next disk scan panics on it
  (`disk.go:18`): `Disks.Scanner.ReadSlots`, `Disks.Scanner.GetMetrics`.
- A disk that comes back above the highest one that reported in some earlier scan is missed until the environment is
  read again; as long as none does, the narrowed scans are full scans: `Disks.AdaptiveIsFull` is an equivalence.

## Model

| member | source | states |
|---|---|---|
| `Text.Index` | lib/notifications/tagextractor/notificationcenter_tagextractor.go:19 | the leftmost occurrence, and -1 exactly when there is none |
| `Rewriting.LiteralRulesWellFormed` | lib/notifications/regionmatcher.go:35-44 | each of the four literal rules keeps its "[X] " head, has no other bracket, and turns one tail into a different one; which tail into which is stated by the four `RuleTable` lemmas |
| `RuleTable.MalwareScanEnds` | lib/notifications/regionmatcher.go:35 | with any quiet text around it, "[Malware Remover] Scan completed." is looked up as "[Malware Remover] Started scanning." and as nothing else |
| `RuleTable.FirmwareDownloadEnds` | lib/notifications/regionmatcher.go:37 | likewise "[Firmware Update] Started updating firmware" as "[Firmware Update] Started downloading firmware" |
| `RuleTable.FirmwareUpdateEnds` | lib/notifications/regionmatcher.go:38 | likewise "[Firmware Update] Updated system." as "[Firmware Update] Started updating firmware." |
| `RuleTable.CounselorScanEnds` | lib/notifications/regionmatcher.go:44 | likewise "[SecurityCounselor] Finished" as "[SecurityCounselor] Started" |
| `RuleTable.EndLooksForStart` | lib/notifications/regionmatcher.go:86-96 | for each of these rules the rest of the ten-rule table leaves its end event alone, so `Match` takes the oldest entry of the start text, or none |
| `RuleTable.QuietEndsNothing` | lib/notifications/regionmatcher.go:86-96 | a text that no rule applies to selects nothing |
| `Rewriting.NormalForm` | lib/notifications/regionmatcher.go:86-88 | no end event is left or formed in a rewritten text, rewriting is idempotent, and the guard of `Match` holds exactly when the end event occurs |
| `Rewriting.SplitsAtBracket` | lib/notifications/regionmatcher.go:87 | rewriting distributes over a cut before an opening bracket |
| `Rewriting.EndRewritesToStart` | lib/notifications/regionmatcher.go:28-38 | an end event's text rewrites to the text of its start event, with the surrounding text rewritten, or kept when it holds no end event |
| `TagExtraction.ParseSound` | lib/notifications/tagextractor/notificationcenter_tagextractor.go:15-30 | rendering the extracted tags and appending the remainder gives the input back; tags hold no "] " and the remainder opens no block |
| `TagExtraction.ParseIffPromised` | lib/notifications/tagextractor/notificationcenter_tagextractor.go:15-30 | every reading of a text as tags and remainder is the extracted one, and the unguarded index fails exactly on texts made wholly of blocks |
| `TagExtraction.Extract` | lib/notifications/tagextractor/notificationcenter_tagextractor.go:15-30 | the loop ends and returns the one promised reading, or panics exactly when there is none |
| `TagPreservation.RewriteKeepsTags` | lib/notifications/regionmatcher.go:35-44 | for every text, the rewritten text is extractable exactly when the original is, and yields the same tags |
| `RegionCache.Find` | lib/notifications/regionmatcher.go:99-107 | the oldest entry with the annotation, and -1 when there is none |
| `RegionCache.SelectIsFirstHit` | lib/notifications/regionmatcher.go:86-96 | `Match` settles on the lexicographically least (rule, entry) that changes the text and hits, and on none exactly when none hits |
| `RegionCache.HistoryRefines` | lib/notifications/regionmatcher.go:65-84 | the instrumented history does to the live entries what Add and Match do |
| `RegionCache.AddKeepsAccount` | lib/notifications/regionmatcher.go:65-73 | Add keeps the account: one fate per Add, FIFO eviction, live order, size bound, and `cacheSize` newer entries behind every evicted one |
| `RegionCache.MatchKeepsAccount` | lib/notifications/regionmatcher.go:75-84 | Match keeps the same account |
| `RegionCache.EveryAddHasOneFate` | lib/notifications/regionmatcher.go:65-97 | after any operations each Add is in exactly one of live, evicted and returned, once; live entries keep their order and never exceed `cacheSize` |
| `RegionCache.Survives` | lib/notifications/regionmatcher.go:65-73 | an entry no Match consumed is live until `cacheSize` further Adds |
| `RegionMatching.RegionMatcher.constructor` | lib/notifications/regionmatcher.go:59-63 | a new matcher is empty |
| `RegionMatching.RegionMatcher.Append` | lib/notifications/regionmatcher.go:66-69 | append, in place or into a new array, adds the entry at the end |
| `RegionMatching.RegionMatcher.Add` | lib/notifications/regionmatcher.go:65-73 | the array-backed slice does what Add does on values, for any growth policy |
| `RegionMatching.RegionMatcher.FindIndex` | lib/notifications/regionmatcher.go:99-107 | the search loop finds the oldest entry with the annotation |
| `RegionMatching.RegionMatcher.Delete` | lib/notifications/regionmatcher.go:79-82 | the in-place shift removes exactly that entry and keeps the order |
| `RegionMatching.RegionMatcher.Lookup` | lib/notifications/regionmatcher.go:86-96 | the rule loop returns the index the specification selects |
| `RegionMatching.RegionMatcher.Match` | lib/notifications/regionmatcher.go:75-97 | with the deferred deletion: returns the selected entry's id and removes it, or -1 and leaves the cache as it was |
| `Annotations.MergeMeaning` | lib/notifications/annotator.go:163-177 | merged tags are the tags of both lists without duplicates, the earlier ones first |
| `Annotations.MergeOrder` | lib/notifications/annotator.go:163-177 | merged tags stand in the order of their first occurrences, configured tags first |
| `Annotators.MergeTags` | lib/notifications/annotator.go:163-177 | the loop with its key set computes the merge |
| `Annotations.Millis` | lib/notifications/annotator.go:100 | nanoseconds to milliseconds, truncated toward zero |
| `Annotations.RequestMeaning` | lib/notifications/annotator.go:95-110 | what is sent: the text without its tags, configured and then extracted tags once each and in order, the time as a start or as the matched annotation's end |
| `Annotations.BeginKeepsSafe` | lib/notifications/annotator.go:94-110 | a matched id moves from the cache to one post, and safety is kept |
| `Annotations.RespondKeepsSafe` | lib/notifications/annotator.go:129-161 | every outcome of the HTTP call keeps safety, and no id is patched twice |
| `Annotations.FinishKeepsSafe` | lib/notifications/annotator.go:146-148 | caching a created annotation keeps safety |
| `Annotations.RunIsSafe` | lib/notifications/annotator.go:94-161 | safety is invariant over every interleaving of any number of posts |
| `RegionPairing.AtMostOnePatch` | lib/notifications/annotator.go:94-161 | over any run each annotation is in at most one PATCH and was created by an answered POST; cached ids are distinct, created and never patched |
| `RegionPairing.MatchTakesOldest` | lib/notifications/regionmatcher.go:86-107 | the first rule with a live hit takes the oldest live entry of the text it makes |
| `RegionPairing.StartEndPairing` | lib/notifications/annotator.go:102-110 | a start that is neither consumed nor pushed out is closed by its end event: one PATCH, with the end's time, of the oldest live entry of that text |
| `RegionPairing.RespondOrphans` | lib/notifications/annotator.go:102-161 | however the call of a matched post ends, its annotation has left the cache and every post |
| `RegionPairing.OrphanIsNeverPatched` | lib/notifications/annotator.go:102-161 | such an annotation is never named by a PATCH again, in any run: a failed closing call is not retried |
| `RegionPairing.RunIsTraced` | lib/notifications/annotator.go:94-161 | every annotation points back to the POST that made it, and every request carries the text and tags of its notification |
| `RegionPairing.ClosingsAreRight` | lib/notifications/annotator.go:102-110 | in every run, a PATCH's notification is rewritten by some rule into that of an earlier POST, which created the annotation the PATCH names |
| `RegionPairing.RegionKeepsTags` | lib/notifications/annotator.go:96-110 | in every run, a region's PATCH and the recorded POST that opened it carry the same tags, when a literal rule rewrites the one notification into the other |
| `RegionPairing.RegionsWellOrdered` | lib/notifications/annotator.go:97-110 | when posts begin in time order, every closed region starts no later than it ends, after truncation to milliseconds |
| `Annotators.Annotator.constructor` | lib/notifications/annotator.go:71-92 | a lone empty tag becomes no tags; nothing cached or sent |
| `Annotators.Annotator.Prepare` | lib/notifications/annotator.go:95-110 | extraction, tag merge, match and the POST or PATCH to send |
| `Annotators.Annotator.Post` | lib/notifications/annotator.go:94-161 | the whole effect of a call on cache, requests and result, for every reply: `Crashed` exactly for a text made wholly of blocks, `Posted(id)` exactly when any other text is answered with that id, and otherwise the failure |
| `Annotators.PostAnswers` | lib/notifications/annotator.go:94-161 | the same outcome read off the arguments: the result, the one request sent (a PATCH of the selected entry or a POST), and the cache without the selected entry, or with the new one exactly when a POST was accepted |
| `Annotators.PostIsThreeSteps` | lib/notifications/annotator.go:94-161 | an undisturbed call is the three steps of the protocol in a row and leaves no post in flight |
| `FirmwareChain.FirmwareIsChain` | lib/notifications/regionmatcher.go:37-38 | with any quiet text before and after, "... Started updating firmware." is looked up as the end of "... Started downloading firmware." and is what "... Updated system." looks for, and nothing else is |
| `FirmwareChain.LastFindsIff` | lib/notifications/annotator.go:146-148 | just after a chained event was posted, the last event finds it if and only if nothing was open for it to end, no older start of its text stays cached, and the cache has room |
| `FirmwareChain.ChainedOverRuns` | lib/notifications/annotator.go:102-148 | over any later run: a chained event that ended something was never remembered; one that did not is found, while it survives, if and only if no older start of its text is live |
| `FanIn.InitialInv` | lib/exporter/prometheus/prometheus.go:117-131 | the invariant holds before the first worker is counted |
| `FanIn.NoCrash` | lib/exporter/prometheus/prometheus.go:137-141 | no send on a closed channel, no second close, no negative WaitGroup |
| `FanIn.GroupKept` | lib/exporter/prometheus/prometheus.go:131-135 | the WaitGroup count equals the counted and unfinished workers, in the spawn phase too |
| `FanIn.ConservedKept` | lib/exporter/prometheus/prometheus.go:171-181 | received, buffered and unsent messages are together one per collector |
| `FanIn.StepKeepsInv` | lib/exporter/prometheus/prometheus.go:129-168 | every step of every goroutine keeps the invariant |
| `FanIn.Progress` | lib/exporter/prometheus/prometheus.go:129-168 | some step is enabled until the consumer returns |
| `FanIn.StepDecreases` | lib/exporter/prometheus/prometheus.go:129-168 | every step decreases a measure |
| `FanIn.RunIsSafeAndShort` | lib/exporter/prometheus/prometheus.go:129-168 | every run is safe and no longer than the initial measure |
| `FanIn.ScrapeAccounts` | lib/exporter/prometheus/prometheus.go:143-168 | for every interleaving: one message per collector; each sample has as many lines as the successful collectors returned it, each error as many comments as collectors failed with it; the samples of a collector stand together in order; with a status the metric count is the number of sample lines; a nil error exactly when every collector succeeded, and otherwise the error of the last failure received |
| `FanIn.WriteMetrics` | lib/exporter/prometheus/prometheus.go:113-169 | a scrape under an arbitrary scheduler ends, with those lines, that count and that error |
| `Schedule.RateLimited` | lib/exporter/prometheus/prometheus.go:125-127 | after k rounds the expiry is start + k periods, and the k-th round came strictly after start + (k-1) periods |
| `Schedule.FreshUnlessAtStart` | lib/exporter/prometheus/prometheus.go:125-127 | at a scrape the environment was read within the last period, this scrape included, if and only if the clock has moved since the start |
| `Schedule.Environment.constructor` | lib/exporter/prometheus/prometheus.go:79-85 | the first expiry is the time of creation |
| `Schedule.Environment.BeginScrape` | lib/exporter/prometheus/prometheus.go:125-127 | the object follows the schedule |
| `Schedule.Environment.ReadEnvironment` | lib/exporter/prometheus/prometheus.go:191-205 | a read moves the expiry on by five minutes from the old expiry |
| `Schedule.ServiceMeaning` | main.go:243-250 | a setting names a service exactly when it begins with the service's name and a colon |
| `Schedule.PingSentIff` | main.go:234-275 | a call pings exactly when it comes after the expiry with a setting that begins with "healthchecks.io:"; an end call after the expiry moves it on by five minutes for any setting with a colon |
| `Schedule.PingsPairedAndLimited` | main.go:152-164 | for sequential requests every start ping is followed by its request's end ping, and the k-th end ping comes strictly after start + (k-1) periods |
| `Schedule.EndPingMissingIff` | main.go:234-275 | a request whose start ping went out gets no end ping exactly when other requests' end calls in between moved the expiry to its end or past it |
| `Schedule.OverlapLosesEndPing` | main.go:152-164 | two overlapping requests, the first of which gets no end ping |
| `Schedule.Healthcheck.constructor` | main.go:67 | the first expiry is the time of start |
| `Schedule.Healthcheck.HandleCall` | main.go:234-275 | the guards, the ping and the advance at an end call only |
| `Ups.StatsMeaning` | lib/exporter/prometheus/ups.go:37-91 | exactly when a call succeeds; a broken connection is forgotten; the UPS list is asked for once only |
| `Ups.ConnectionMeaning` | lib/exporter/prometheus/ups.go:41-70 | when a call connects, the attempt counter it leaves, and that what the attempt gave is kept unless the call ends with a broken connection; every call stopped by a connection error restarts the hour |
| `Ups.ErrorMeaning` | lib/exporter/prometheus/ups.go:66-91 | the error is the connection's, the list's, or that of the first UPS in the list that fails |
| `Ups.RetryIsRun` | lib/exporter/prometheus/ups.go:25-35 | the retry wrapper is a run of one or two calls; it succeeds exactly when the first call does or when that one fails on a broken connection and the next succeeds, and otherwise returns the error of the last call made |
| `Ups.AttemptsStayBounded` | lib/exporter/prometheus/ups.go:57-65 | the attempt counter stays within 0..10 |
| `Ups.NineMoreAttempts` | lib/exporter/prometheus/ups.go:56-70 | in the hour after a failed attempt at most nine more attempts of any outcome |
| `Ups.TenFailuresAnHour` | lib/exporter/prometheus/ups.go:56-70 | any half-open hour holds at most ten failed attempts, in every run |
| `Ups.FrequentCallsStarve` | lib/exporter/prometheus/ups.go:57-69 | after ten failures a further attempt is made exactly when two successive calls are an hour apart |
| `Ups.StarvedFromStart` | lib/exporter/prometheus/ups.go:56-70 | from the zero state, ten calls to an unreachable daemon make ten attempts, and a run that follows makes no other if and only if no two successive calls are an hour apart |
| `Ups.Client.constructor` | lib/exporter/prometheus/ups.go:15-23 | the zero state |
| `Ups.Client.DropIfBroken` | lib/exporter/prometheus/ups.go:41-54 | the deferred function |
| `Ups.Client.GetStats` | lib/exporter/prometheus/ups.go:37-70 | the object makes the step of the specification |
| `Ups.Client.Query` | lib/exporter/prometheus/ups.go:72-91 | the list and the variables loop |
| `Ups.Client.GetStatsWithRetry` | lib/exporter/prometheus/ups.go:25-35 | one more call after a broken connection, with that answer |
| `Volumes.AcceptedBelowMeaning` | lib/exporter/prometheus/volinfo.go:33-90 | the list is in strictly increasing index order and holds exactly the indices whose description, file system, size and status are all given, the first not empty and the second not "Unknown", each with these values and no free size |
| `Volumes.DescriptionsMeaning` | lib/exporter/prometheus/volinfo.go:33-41 | what the loop counts is the number of described indices |
| `Volumes.ReadSysVolInfo` | lib/exporter/prometheus/volinfo.go:31-90 | the loop ends within `limit` iterations exactly when `volCount` of the first `limit` indices are described, with the accepted volumes up to the last one needed; a negative count crashes |
| `Volumes.MetricsEffect` | lib/exporter/prometheus/volinfo.go:103-123 | a call stops at the first size it asks for in vain; before that every size asked for becomes the answer given and is on record; nothing else changes; an expired call sets the fetch time even if it fails |
| `Volumes.CallReportsFresh` | lib/exporter/prometheus/volinfo.go:103-123 | a successful call that has expired or finds a fresh cache reports sizes read at most a minute before its check |
| `Volumes.CallKeepsFresh` | lib/exporter/prometheus/volinfo.go:103-123 | an expired harmless call makes the cache fresh, and an unexpired one keeps it fresh even when it fails |
| `Volumes.ExpiredFreshIffHarmless` | lib/exporter/prometheus/volinfo.go:103-123 | an expired call leaves the cache fresh if and only if no size is cached at or after the position where it fails |
| `Volumes.UnexpiredKeepsFreshness` | lib/exporter/prometheus/volinfo.go:103-123 | a call that has not expired leaves the cache as fresh or as stale as it was |
| `Volumes.FreshIffLastExpiredHarmless` | lib/exporter/prometheus/volinfo.go:95-142 | after any run, failures included, the cache is fresh if and only if the last expired scrape since the last environment read was harmless |
| `Volumes.ReportsAreFresh` | lib/exporter/prometheus/volinfo.go:95-142 | after any run, failures and environment re-reads included, every available-bytes sample of a successful scrape is a number read for its volume at most a minute before, if the scrape has expired or the last expired scrape was harmless |
| `Volumes.LogIsHonest` | lib/exporter/prometheus/volinfo.go:112-122 | every read on record is an answer that some scrape of the run was given for a volume of that index |
| `Volumes.HarmfulFailureGoesStale` | lib/exporter/prometheus/volinfo.go:104-118 | after any expired scrape that fails at or before a cached size, a scrape in the next minute reports that size unchanged and exactly as old as it was |
| `Volumes.StaleOfAnyAge` | lib/exporter/prometheus/volinfo.go:104-118 | from the start, for every age over a minute, a run whose next successful scrape reports a size older than that age |
| `Volumes.Collector.constructor` | lib/exporter/prometheus/prometheus.go:61-62 | no volumes and no fetch yet |
| `Volumes.Collector.SetVolumes` | lib/exporter/prometheus/volinfo.go:80-89 | a re-read rebuilds the list without sizes and leaves the fetch time |
| `Volumes.Collector.GetMetrics` | lib/exporter/prometheus/volinfo.go:95-142 | the in-place loop does the step of the specification; a success reports, for each volume in turn, its free size as available bytes and its total size as size, and a failure reports nothing |
| `Disks.ReportedMeaning` | lib/exporter/prometheus/disk.go:21-47 | the metrics are, in slot order, those of exactly the slots up to the bound that report, each with its slot, SMART state and temperature |
| `Disks.Highest` | lib/exporter/prometheus/disk.go:19-50 | the highest slot that reports |
| `Disks.Scanner.constructor` | lib/exporter/prometheus/prometheus.go:51 | no slots are known yet |
| `Disks.Scanner.ReadSlots` | lib/exporter/prometheus/prometheus.go:239-245 | the bound is the command's number, 0 for an answer that is none, and -1 for a failed command |
| `Disks.Scanner.GetMetrics` | lib/exporter/prometheus/disk.go:13-53 | a crash exactly for a negative bound, success exactly when no command or parse fails, the metrics in slot order, the new bound, and what an error leaves |
| `Disks.NarrowIsFull` | lib/exporter/prometheus/disk.go:21-50 | a narrowed scan equals the full scan if and only if no slot past the bound reports |
| `Disks.BoundShrinks` | lib/exporter/prometheus/disk.go:49-50 | the bound never grows between environment reads |
| `Disks.BoundAfterAgreeing` | lib/exporter/prometheus/disk.go:46-50 | a narrowed scan that agrees with the full scan leaves the bound the full scan would leave |
| `Disks.AdaptiveIsFull` | lib/exporter/prometheus/disk.go:18-52 | over a run of error-free scans, every scan equals the full scan if and only if no disk reports above the highest that reported in an earlier scan |

## Left out

- The six rules with capture groups are arbitrary functions from text to text: every matcher and run theorem holds for any such functions, and tag preservation is stated for the literal rules only (the Rapid Test rule drops text).
- Grafana issues a fresh id, never -1, for each POST it answers; the model assumes it. An annotation that a failed call may have created has no id in the model.
- RegionPairing.RegionsWellOrdered: times are those the posts carry, assumed nondecreasing in the order the posts are matched; `omitempty` on a time of zero milliseconds is not modelled.
- RegionPairing.ClosingsAreRight: a request is recorded when its call ends, so the order of `requests` is the order in which calls end, not the order in which they are sent.
- `mergeTags` appends to the shared tag slice, so concurrent posts could share its spare capacity; the merge is modelled on values.
- The data race of unlocked matchers: Match and Add are atomic steps here.
- Annotators.Annotator.Prepare: together with Post it is one function in the source; request headers, URLs, response messages and logging are not modelled.
- NewSimpleAnnotator with the no-op matcher and extractor, Docker events, HTML status page, signal handling.
- FanIn.WriteMetrics: a collector's result does not depend on the schedule; shared status fields other than the metric count, metric metadata lines and number formatting are not modelled.
- Schedule.PingsPairedAndLimited: requests do not overlap; for overlapping ones see `Schedule.EndPingMissingIff`.
- Ups.Client.Query: the variables' conversion into metrics, `getUpsStatus` and the status page's list of UPS names are not modelled; the missing `status` that would panic is a precondition of the source.
- Volumes.ReadSysVolInfo: `limit` only bounds how long the loop is observed, and the wrap-around of its 64-bit index is not modelled; `parseVolDesc` and `parseVolSize` are answers of the system, and sizes are integers.
- Volumes.ExpiredFreshIffHarmless: the clock has moved since the last size was read; with equal readings an old size would count as new.
- CPU, memory, network, NVMe, fan, temperature, flashcache and dm-cache collectors: stateless wrappers over commands and files.
