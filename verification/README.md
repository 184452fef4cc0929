# A verified model of gitlab-procs-exporter

The exporter samples the processes of a CI runner host, keeps ten minutes of their history, and
publishes them as Prometheus metrics and as JSON. Everything it publishes comes from `/proc`, so it is
untrusted in size, in encoding and in content. This project models the parts where that goes right or
wrong, in the shape the program gives them (classes for the objects it updates, methods with loops for
its loops, functions for its expressions), and proves what they promise, for every input, every map
iteration order and every run.

| module | program part |
|---|---|
| `Utf8`, `Decimal`, `Sequences`, `Order`, `Substrings`, `Texts` | UTF-8 (section 4 of RFC 3629) and its replacement of malformed runs, decimal text, Go's string order and `sort.Strings` |
| `Givens` | what is taken from libraries and holds for every choice: the salted digest, case folding, trimming, the entropy test |
| `LabelBound`, `Config` | the label-size contract, the self-describing cut, the operator's overrides |
| `Secrets`, `Environ`, `Redaction` | what counts as a secret; the `environ` label and the redacted JSON map; what a reader of either sees, told from the variables |
| `History`, `HistoryRuns`, `ActiveView`, `Queries` | the history store as a class, its runs as a machine over operations, what they keep; what a query finds |
| `Scraper`, `Readings`, `ScrapeSeries` | process cache, one scrape, the JSON handlers, snapshot isolation; what becomes of a reading; any series of scrapes |
| `Collector`, `InfoMetric`, `KubeJoin` | the process metrics and their truncation counter; what each label shows; the pod join |
| `Service` | the Windows service handler, its worker and the service manager, all interleavings |
| `JobLog`, `Table`, `Args` | jobreport: the log folds, the box table, the command line and the time window |

How the halves meet: each method is proved equal to a specification function of its inputs or of the
object's old state (for the store, `Abs()` and `After(ix, ops)`), and the theorems about whole runs are
proved about those functions. Beside each of them stand lemmas that say what it means without it: a
secret told from the bytes of the variable, a label from the process, a query result from the samples, a
rune from the scalar value it encodes. A map is iterated by picking keys in arbitrary order, so a method whose
result is a function of the map is independent of the order.

Where the code does not do what one may expect, the exact condition is proved and a run or an input shown:

- A PID that is reused between two scrapes is rebound by `AddSample`, and its old timeline is never
  marked inactive. `ActiveView.SettledIffNeverRebinds` says exactly when this cannot happen, in terms of the
  store's operations, and `ScrapeSeries.SettledIffNeverReuses` in terms of what the scrapes read.
  `ActiveView.PidReuseLeavesStaleTimeline` gives a run, and `ScrapeSeries.UnreadableCreateTimeReuses` shows that two
  successive scrapes of a process whose create time cannot be read do the same.
- A worker that fails while the service is being stopped is reported to the service manager with exit
  code 0, because the stop arm always returns 0. `Service.ExitCodeMeaning` is the exact condition for 1
  and `Service.StopHidesFailureFromManager` a run. `RunWindowsService` still returns the failure.
- The handler echoes whatever status an interrogation carries. In a run "stopped" is reported before the
  worker's result was taken exactly when an echo said it (`Service.StoppedAfterWorker`), and
  `Service.EchoMayReportStopped` is such a run. It needs an interrogation that carries a status the handler never
  sent. The dispatcher of golang.org/x/sys, which carries the handler's latest, is not part of this model; under
  any dispatcher that gives back only what the handler sent, stopped is never early
  (`Service.DispatcherSeesStoppedLast`).
- A section marker with epoch 0 makes `StartEpoch` forget every earlier marker, because 0 is also the
  unset value; the phases keep their own starts. `JobLog.StartIsEarliest` is the exact condition under which
  `StartEpoch` is the earliest, `JobLog.PhasesWithinWindow` that under which a phase lies within the window, and
  `JobLog.ZeroEpochMovesStart` a log whose phase begins before it.
- A relative window is not checked to run forward, and wraps at 64 bits: `Args.RelativeWindowIsUnchecked` says
  exactly when it does, for every count. The zero and the negative counts do not, nor do 160127986750951 days.

Documentation and code disagree in one place: a comment at `exporter/labelbound.go:251-253` says that
sanitising turns each bad byte into a three-byte U+FFFD. The library call replaces each run of bad bytes by
one. The model follows the code; the threefold bound on the length holds either way.

## Model

| member | source | states |
|---|---|---|
| Utf8.SanitizeMakesValid | exporter/collector.go:300-305 | a sanitised value is valid UTF-8, is the input exactly when that was valid, is a fixed point, and is at most three times as long |
| Utf8.BoundaryIffRuneStart | exporter/labelbound.go:152-158 | in valid UTF-8, cutting before a byte leaves valid UTF-8 exactly when that byte starts a rune: what the walk-back relies on |
| Utf8.SanitizeKeepsAsciiPrefix | exporter/collector.go:300-305 | sanitising neither makes nor breaks an ASCII prefix |
| Utf8.SanitizeKeepsAsciiCount | exporter/collector.go:300-305 | sanitising changes the number of occurrences of no ASCII byte |
| Texts.EncodedIsRune | exporter/collector.go:300-305 | the encoding of any Unicode scalar value (section 3 of RFC 3629) is read as one rune of its own length, whatever follows |
| Texts.RuneIsEncoded | exporter/collector.go:300-305 | conversely every rune read is the encoding of a scalar value, so validity is exactly what the RFC says |
| Texts.SanitizeReplacesRun | exporter/collector.go:300-305 | a valid prefix is kept and a whole maximal malformed run becomes one U+FFFD, bytes EF BF BD |
| Order.SortedKeys | exporter/config.go:144-151 | for every iteration order the result is the one strictly ascending listing of the keys |
| Order.AscendingUnique | exporter/config.go:142-151 | a set of strings has only one strictly ascending listing, so messages naming an entry are stable |
| Texts.LessIff | exporter/config.go:151 | the order is decided by the first byte that differs, and a proper prefix comes first |
| Decimal.ParseItoa | internal/jobreport/cli.go:194-195 | every 64-bit integer printed in decimal reads back as itself, sign included |
| Texts.ParsedIsDecimal | internal/jobreport/cli.go:194-195 | nothing but an optional sign followed by digits is read, as a 64-bit integer of that sign |
| Texts.DigitsForm | exporter/history.go:60 | one digit per decimal place, the leading one not zero but in zero itself |
| Texts.SomeNumbers | exporter/history.go:60 | -120, 0 and 8192 in decimal |
| LabelBound.CutPointIsLongest | exporter/labelbound.go:152-158 | the walk-back stops at the longest prefix within the limit that is valid UTF-8, at most three bytes back |
| LabelBound.TruncateWithFingerprint | exporter/labelbound.go:148-163 | the loop and the concatenation compute the specified cut, for any bytes and any limit |
| LabelBound.TruncationShape | exporter/labelbound.go:55-56 | a cut value is the longest valid prefix then the marker, is valid UTF-8, strictly longer than the limit and at most 49 bytes past it |
| LabelBound.ParseTruncated | exporter/labelbound.go:159-162 | prefix, original length and fingerprint can be read back from a cut value |
| InfoMetric.TruncationSpelledOut | exporter/labelbound.go:159-162 | the marker byte for byte: an ellipsis, `[len=`, the length, `;sha256=`, the fingerprint, `]` |
| LabelBound.TruncationDistinguishes | exporter/labelbound.go:148-163 | two values share a bounded form exactly when equal, or both cut with the same prefix, length and fingerprint |
| LabelBound.UnchangedIff | exporter/labelbound.go:258-268 | a value equals its bounded form exactly when within the limit or already ending in its own marker |
| LabelBound.MergedMaxLabelBytes | exporter/labelbound.go:103-115 | for every iteration order of both maps the result is the one merged table |
| LabelBound.MergedLimitRange | exporter/labelbound.go:68-81 | any override map, hand-built ones included, leaves every limit in 32..8143, and every override in 49..8143 is applied |
| LabelBound.TruncationCounter.ObserveTruncation | exporter/collector.go:234-236 | one more cut of this label and no other counter changes |
| LabelBound.BoundLabelWith | exporter/labelbound.go:258-268 | the bounded value by the table, and the observer counts exactly when it differs from the value |
| LabelBound.BoundedFits | exporter/labelbound.go:70-81 | under any merged table the bounded form of any raw value is valid UTF-8 within 8192 bytes |
| Config.UnmarshalLimits | exporter/config.go:37-51 | all scalars decode, or the least name in byte order whose value is no integer is reported |
| Config.ValidateMaxLabelBytes | exporter/config.go:110-134 | accepts exactly the maps without a faulty entry, and otherwise names the least faulty one with its first fault |
| Config.LoadMaxLabelBytes | exporter/config.go:53-78 | decode, clamp, validate: accepted exactly when every name is in the contract and every written value in 49..8143; then nothing was clamped and merging is the exact overlay; otherwise the least offender is named |
| Config.ClampingIsHarmless | exporter/config.go:54-78 | clamping to the platform int neither lets a value in, keeps one out, nor changes a usable one |
| Config.OverlayIsExact | exporter/labelbound.go:103-115 | merging an accepted map is the contract overlaid by it |
| Config.MergeDropsUnusable | exporter/labelbound.go:92-115 | merging any map is the overlay of just its usable entries |
| Config.NormalizeSubstrings | exporter/config.go:154-163 | trimmed, folded, empties dropped, in order |
| Config.NormalizedHolds | exporter/config.go:154-163 | the list holds exactly what is left of each entry trimmed and then folded, if anything is |
| Config.NormalizeIdempotent | exporter/config.go:154-163 | normalising the loaded list again changes nothing, and no empty substring survives |
| Config.AsciiTextLaws | exporter/config.go:157 | ASCII folding and trimming meet the laws the theorem above assumes |
| Secrets.KeyMatchesAny | exporter/collector.go:240-248 | true exactly when some substring occurs in the folded key |
| Secrets.IsTokenCharset | exporter/collector.go:476-486 | the rune loop decides exactly "every byte is a token byte", malformed bytes included |
| Secrets.SanitizeKeepsClassification | exporter/collector.go:451-474 | sanitising changes the classification of no byte string |
| Environ.RedactEnviron | exporter/collector.go:264-273 | a new map, each value kept or redacted by the classification of its pair, the given map untouched |
| Environ.RenderedValueFits | exporter/collector.go:281-285 | every rendered value is valid UTF-8 of at most 256 bytes |
| Environ.WritePairs | exporter/collector.go:330-371 | the builder loop writes the greedy label and reports exactly whether a pair was left out |
| Environ.PackingIsMaximal | exporter/collector.go:346-370 | the label joins the kept pairs in order, within 8192 bytes, and no omitted pair fits after the final label |
| Environ.ScrubEnviron | exporter/collector.go:317-373 | label and flag are functions of the map, whatever the iteration order |
| Environ.EnvironLabelSpec | exporter/collector.go:307-373 | a join of rendered pairs of a subsequence of the first 100 sorted keys, valid, within 8192 bytes, maximal; the flag is off exactly when every variable has its pair |
| Environ.LabelHidesValues | exporter/collector.go:334-343 | environments that differ only in secret values, or only in over-long unclassified values of equal sanitised length, give the same label and flag |
| Environ.PathsAgreeOnSecrets | exporter/collector.go:250-258 | the JSON path (raw value, loaded list) and the label path (sanitised value, re-normalised list) redact the same variables |
| Redaction.BetraysIff | exporter/collector.go:434-486 | a pair is classified as secret exactly when its folded key is x + p + y for a built-in or configured p, or its value starts with a token prefix, is `eyJ` and two dots, or has 32 or more token bytes of high entropy |
| Redaction.RedactsExactly | exporter/collector.go:264-273 | the JSON map has the same keys; a value that betrays itself so is `[REDACTED]`, any other is kept byte for byte |
| Redaction.PasswordAndHome | exporter/collector.go:434-449 | DB_PASSWORD is a secret whatever its value and whatever is configured; HOME is none by its name |
| Redaction.RenderedShows | exporter/collector.go:334-346 | a value in the label is `[REDACTED]`, or over 256 bytes a marker its length is read back from, or the sanitised value itself |
| Redaction.KeysAreFirst | exporter/collector.go:318-332 | the pairs are those of the least keys in byte order, all of them or 100 |
| Redaction.KeptPairStands | exporter/collector.go:346-370 | each kept pair stands in the label as sanitised key, `=`, rendered value, between separators |
| Redaction.IncompleteIff | exporter/collector.go:325-372 | the flag is on exactly when some variable has no pair in the label |
| Redaction.LabelTellsValue | exporter/collector.go:334-372 | two environments that differ in one variable, with all pairs kept in both, have equal labels exactly when that variable is rendered alike |
| Redaction.LabelTellsPlainValues | exporter/collector.go:334-372 | so when it is neither secret nor over-long, exactly when its sanitised values are equal |
| Redaction.OmittedWouldPass | exporter/collector.go:346-366 | a pair that was left out would take the final label past 8192 bytes |
| History.KeyInjective | exporter/history.go:60 | the "pid-createtime" key determines both numbers, negative ones included |
| Queries.KeySpelledOut | exporter/history.go:60 | PID 7 created at 1000 is kept under `7-1000` |
| History.HistoryStore.constructor | exporter/history.go:48-53 | an empty index that owns no slice |
| History.HistoryStore.AddSample | exporter/history.go:56-65 | the whole new index: sample appended, PID bound to its key, that timeline pruned |
| History.HistoryStore.PruneTimeline | exporter/history.go:140-156 | one timeline filtered at the cutoff, deleted when nothing is left, every other one untouched |
| History.HistoryStore.MarkInactive | exporter/history.go:68-85 | for every iteration order: the latest samples of unlisted PIDs flipped, those PIDs forgotten, everything pruned |
| History.HistoryStore.PruneAll | exporter/history.go:159-176 | every timeline filtered at one cutoff, the empty ones deleted |
| History.HistoryStore.GetActiveProcesses | exporter/history.go:88-100 | each active PID with a timeline once, by its latest sample, in a new slice, nothing changed |
| History.HistoryStore.QueryHistory | exporter/history.go:103-132 | exactly the timelines whose latest sample matches, each whole and in a slice of its own |
| HistoryRuns.RefinesLog | exporter/history.go:56-85 | in every run with a non-decreasing clock a timeline is the append-only log of its key filtered at the last cutoff that touched it, up to active flags, and absent exactly when that is empty |
| HistoryRuns.RecentTwice | exporter/history.go:140-176 | two prunes are one prune at the later cutoff |
| Queries.KeptTenMinutes | exporter/history.go:140-176 | after a scrape, or a sample under its key, a sample ever added is retained exactly when less than 600000000000 ns old |
| HistoryRuns.Projects | exporter/history.go:56-85 | each timeline and the PID table evolve independently of the rest of the index; a key is present exactly when its timeline is not empty |
| HistoryRuns.NoEmptyTimeline | exporter/history.go:151-155 | no run leaves an empty timeline in the map |
| ActiveView.KeysAreTruthful | exporter/history.go:60-62 | in every run the samples under a key share it, and `activeKeys[pid]` names a timeline of that PID |
| ActiveView.ActivePidsDistinct | exporter/history.go:88-100 | in every run the reported samples have pairwise distinct PIDs |
| ActiveView.ActiveViewTruthful | exporter/history.go:68-100 | in every run of samples added active and in time order, no reported sample is inactive |
| ActiveView.RefinesFlagLog | exporter/history.go:68-80 | in those runs the log determines the active flags too: a retained sample is inactive exactly when some MarkInactive omitted the PID its key was active under while it was the last sample there |
| ActiveView.SettledIffNeverRebinds | exporter/history.go:62 | in those runs every timeline no PID points at ends inactive, after every step, exactly when no step rebinds a PID whose timeline is retained |
| ActiveView.PidReuseLeavesStaleTimeline | exporter/history.go:56-85 | the run where a reused PID leaves the old timeline retained, unreachable and still active |
| Queries.NameQueryFinds | exporter/history.go:118-137 | a name query returns, whole, exactly the timelines whose folded latest name is x + folded text + y |
| Queries.LongQueryFindsNothing | exporter/history.go:135-137 | a text longer, once folded, than every folded latest name finds nothing |
| Queries.ShorterFindsMore | exporter/history.go:135-137 | what a text finds, every text that folds to a part of it finds too |
| Queries.PidQueryFinds | exporter/history.go:116-117 | a PID query returns, whole, exactly the timelines whose latest PID prints as the text |
| Queries.PidQueryFindsIncarnations | exporter/history.go:103-132 | in every run a PID in decimal returns exactly the retained timelines of that PID's incarnations, whatever their create times |
| Queries.RubyByRub | exporter/history.go:118-137 | a process named Ruby is found by `rub`; one named rub is not found by `Ruby` |
| Scraper.ProcCache.LiveProcess | main.go:416-429 | a handle is returned only for the incarnation that runs under the PID now; a stale one is evicted |
| Scraper.Scrape | main.go:431-553 | the store takes exactly the scrape's operations, cache and `activeKeys` stay within the listed PIDs, a failed listing changes nothing |
| Scraper.ScrapeReports | main.go:431-547 | after a scrape of distinct PIDs that took under ten minutes, every process it could read is active with exactly that sample, and no unlisted PID is |
| Readings.RunningIsMet | main.go:416-429 | whatever is cached, a process that runs and can be opened is met under its own handle, and none where nothing runs |
| Readings.ReadingIsReported | main.go:431-547 | after a scrape the active sample of a process that could be read carries exactly what was read, the create time or else the scrape's millisecond, and is bound under that PID and create time |
| Readings.TwoScrapesOneTimeline | main.go:431-547 | two scrapes within ten minutes that read one create time put both samples, in order, at the end of the one timeline of that PID and create time |
| ScrapeSeries.ScraperRunsAreHonest | main.go:369-386 | any series of scrapes whose clock does not run back is a run to which the whole-run theorems apply |
| ScrapeSeries.SettledIffNeverReuses | main.go:431-547 | in such a series with distinct listings, every timeline no PID points at ends inactive, after every step, exactly when no scrape reads another create time under a PID whose last sample is still retained |
| ScrapeSeries.UnreadableCreateTimeReuses | main.go:454-457 | two successive scrapes in different milliseconds that read a process without a create time leave the timeline of the first behind active, in any series |
| Scraper.RedactSlice | main.go:334-336 | each sample kept but for an environ map, which is a new redacted one |
| Scraper.ServeProcesses | main.go:331-338 | the active view with environs redacted; store and environ maps unchanged |
| Scraper.ServeHistory | main.go:340-366 | the matching timelines redacted in copies, an error exactly when neither parameter is given; store unchanged |
| Scraper.RunOps | exporter/history.go:56-85 | any sequence of locked operations takes the class where the run takes the index |
| Scraper.ReadThenRun | exporter/history.go:88-132 | results already returned by both readers still hold what the store held then, after any later operations |
| Collector.CiJobLabelValuesWith | exporter/collector.go:44-50 | the four CI values in label order, sanitised and bounded under their own names, each cut counted |
| Collector.ProcessCollector.constructor | exporter/collector.go:104-113 | effective limits and substrings of an optional Config, all six counters at zero |
| Collector.ProcessCollector.CollectProcess | exporter/collector.go:394-428 | the twelve metrics of one process, and the counter after its six bounded values |
| Collector.ProcessCollector.Collect | exporter/collector.go:393-431 | the metrics of exactly the active processes, and the counter after all their values |
| Collector.EveryLabelFits | exporter/collector.go:393-428 | for any process bytes and any Config every emitted label value is valid UTF-8 of at most 8192 bytes |
| Collector.MetricsHideValues | exporter/collector.go:394-428 | for processes alike but for secret or over-long unclassified environment values, all twelve metrics are equal exactly when the four bounded CI values are: nothing else of those values is published |
| Collector.EmitCore | exporter/collector.go:404-414 | the eleven metrics emitted are the core families in order, each with what it measures |
| Collector.EachFamilyOnce | exporter/collector.go:404-428 | every process is reported exactly once in each of the twelve families, with that family's own reading |
| Collector.DistinctPidsDistinctSeries | exporter/collector.go:394-428 | processes with distinct PIDs give pairwise distinct label sets in each metric family |
| Collector.GatherHasNoDuplicates | exporter/collector.go:393-428 | after any run of the store, one gather emits no duplicate series |
| Collector.CounterCountsOverLimit | exporter/labelbound.go:263-266 | a gather adds to each counter exactly the number of over-limit values of that label, a value that equals its own cut excepted |
| InfoMetric.LabelsShow | exporter/collector.go:394-428 | position by position, for any Config: PID; name and command line as they are or as a cut that reads back to a prefix, length and fingerprint under their own limits; the rendered environ; `1` exactly when a variable has no pair in it, else `0`; the four CI variables in order |
| InfoMetric.GatherShows | exporter/collector.go:393-431 | every metric of a gather shows one of the processes it reports, in that sense |
| InfoMetric.ReadingsOfFamilies | exporter/collector.go:404-428 | each of the twelve families carries its own reading, family by family |
| InfoMetric.CountedLabels | exporter/collector.go:394-428 | the six values whose cuts are counted, in order and under their label names |
| InfoMetric.DefaultLimits | exporter/labelbound.go:30-37 | the six limits without overrides |
| InfoMetric.ConfiguredSubstrings | exporter/collector.go:104-113 | the collector redacts by exactly what is left of each configured substring, and by none without a Config |
| InfoMetric.LookupReads | exporter/collector.go:44-50 | a variable reads as what it was set to, and as "" when it is not set |
| KubeJoin.KubeStore.Replace | exporter/kube.go:225-233 | the whole snapshot is the new listing's, nothing of the old one remains |
| KubeJoin.LastListingWins | exporter/kube.go:226-229 | the snapshot holds exactly the listed UIDs, each as listed last |
| KubeJoin.KubeCollector.constructor | exporter/kube_collector.go:63-72 | default limits without a Config, no counting without a ProcessCollector |
| KubeJoin.KubeCollector.JoinByJob | exporter/kube_collector.go:94-116 | every entry is backed by a process of that bounded name and no joined name is missing; each cut counted |
| KubeJoin.KubeCollector.Emit | exporter/kube_collector.go:118-121 | for every iteration order each job once per metric, with its own values |
| KubeJoin.KubeCollector.JoinOne | exporter/kube_collector.go:96-115 | one process: not bounded without a pod, not looked up without a name, not joined when the snapshot lacks its pod |
| KubeJoin.KubeCollector.Collect | exporter/kube_collector.go:92-122 | each bounded job name exactly once per metric, with the requests of one active process of that name whose pod was in the snapshot when looked up, and none missing, whatever replacements happen meanwhile |
| KubeJoin.OneSnapshot | exporter/kube.go:225-233 | without a replacement during the gather there is one snapshot |
| KubeJoin.JoinThenEmit | exporter/kube_collector.go:92-122 | the two loops together meet that statement for any table the first may build |
| KubeJoin.JobNameIsCiJobName | exporter/kube_collector.go:99-108 | `job_name` is the `ci_job_name` the process metrics carry for the same process under the same Config |
| InfoMetric.JoinsIff | exporter/kube_collector.go:94-116 | a process joins exactly when it has a pod, the snapshot has that pod, and its CI_JOB_NAME is set and not empty |
| InfoMetric.JobsAreNamed | exporter/kube_collector.go:92-122 | no emitted job_name is empty: each is the bounded CI_JOB_NAME of a process with a known pod and carries that pod's request, and every such process goes by an emitted name |
| Service.StepKeepsInv | deploy/service_windows.go:75-117 | the protocol invariant: what was sent, what is in the channel and what the handler knows, kept by every step of every party |
| Service.FinishedRun | deploy/service_windows.go:75-117 | every finished run reports start-pending, running, one echo per interrogation in order, stop-pending, stopped; the worker returned once and its result crossed the channel once |
| Service.StoppedAfterWorker | deploy/service_windows.go:91-112 | in every run, stopped is never reported before the worker returned and its result was taken exactly when no echo said stopped; in a finished run, exactly when no interrogation carried it |
| Service.RunStoppedAtMoment | deploy/service_windows.go:91-112 | at any one moment, stopped is early exactly when an echo said it and the result is not yet taken |
| Service.DispatcherSeesStoppedLast | deploy/service_windows.go:92-93 | when interrogations carry only statuses the handler sent, stopped is never reported before the worker's result was taken |
| Service.SentIsEchoed | deploy/service_windows.go:92-93 | under such a dispatcher nothing but start-pending and running is ever echoed |
| Service.LatestIsRunning | deploy/service_windows.go:92-93 | when interrogations carry the handler's latest status, nothing but running is ever echoed |
| Service.EchoMayReportStopped | deploy/service_windows.go:92-93 | a run that echoes stopped while the worker is still running |
| Service.CallerSeesWorkerFailure | deploy/service_windows.go:120-129 | when the dispatcher succeeds the caller gets exactly the worker's failure, whichever select arm won, and nil for nil or cancellation |
| Service.CallerSees | deploy/service_windows.go:120-129 | a dispatcher failure is what the caller gets however the run went; otherwise success exactly when the worker did not fail, and else its failure |
| Service.StatusesSpelledOut | deploy/service_windows.go:75-117 | the statuses of a finished run in full: stop and shutdown are accepted while running, nothing otherwise |
| Service.StopEndsTheLoop | deploy/service_windows.go:94-103 | after a stop or a shutdown request the loop takes nothing more and the exit code is 0 |
| Service.OtherRequestsIgnored | deploy/service_windows.go:104-106 | any other request but an interrogation changes nothing |
| Service.ExitCodeMeaning | deploy/service_windows.go:103-115 | the exit code is 1 exactly when the worker failed and no stop or shutdown was taken |
| Service.StopHidesFailureFromManager | deploy/service_windows.go:95-103 | a run that fails during a stop and exits with 0, while the caller gets the failure |
| Service.OnlyTheWorkerIsAwaited | deploy/service_windows.go:82-99 | no deadlock: nothing can move only after the return or while runFn itself still runs; the goroutine's send never blocks; the stop arm waits with the context cancelled |
| Service.RunsEnd | deploy/service_windows.go:89-116 | apart from ignored requests and one send per interrogation, no run takes more than ten steps |
| JobLog.ParseJobLog | internal/jobreport/logparse.go:126-223 | for any lines: window, phases, kill lists and crash report are what the whole sequence of matches determines |
| JobLog.StartIsEarliest | internal/jobreport/logparse.go:170-172 | `StartEpoch` is the earliest epoch exactly when there is no zero epoch or the last one is zero |
| JobLog.ZeroEpochMovesStart | internal/jobreport/logparse.go:170-181 | a log with a zero epoch whose `StartEpoch` is not the earliest and whose phase begins before the window |
| JobLog.PairsAreClosings | internal/jobreport/logparse.go:176-181 | a start and an end marker form a phase exactly when the start is the last mention of that name before the end |
| JobLog.PairsUseMarkersOnce | internal/jobreport/logparse.go:176-181 | phases come in the order of their ends and no start is used twice |
| JobLog.PhasesWithinWindow | internal/jobreport/logparse.go:170-181 | a phase lies within the window exactly when neither of its markers is earlier than all that follow the last zero epoch, itself before that zero; it is then no longer than the job's duration; whenever `StartEpoch` is the earliest epoch every phase lies within |
| JobLog.EarlierThanStart | internal/jobreport/logparse.go:170-172 | exactly which markers are earlier than `StartEpoch` |
| JobLog.CrashReportUnique | internal/jobreport/logparse.go:216-223 | the crash report is determined by the frames: at most five lines, the lowest distinct numbers ascending, first-seen texts |
| JobLog.CrashReportShows | internal/jobreport/logparse.go:216-223 | as many lines as there are distinct numbers, at most five; line i is that of the first frame whose number has i distinct lower ones |
| JobLog.FrameLineReads | internal/jobreport/logparse.go:222 | number and text can be read back from a line |
| JobLog.MatchesInOrder | internal/jobreport/logparse.go:126-207 | the matches of a log are those of its parts, in order |
| JobLog.MatchesOfLine | internal/jobreport/logparse.go:126-207 | one line contributes what was matched on it |
| JobLog.KillsAreListed | internal/jobreport/logparse.go:202-207 | the kill lists hold exactly the names and the PIDs some line carries, each once |
| JobLog.DurationIsLongest | internal/jobreport/logparse.go:54-59 | with positive epochs the duration is the longest time between two markers |
| JobLog.TextIsFirstSeen | internal/jobreport/logparse.go:195-201 | a frame number keeps the text of the first frame that carries it |
| JobLog.FirstSeenMeaning | internal/jobreport/logparse.go:202-207 | the distinct lists hold each value once, exactly the values that occur, in order of first occurrence |
| JobLog.SortIncreasing | internal/jobreport/logparse.go:217 | sorting distinct numbers gives a strictly ascending sequence of the same numbers |
| Table.TruncRunes | internal/jobreport/render.go:82-94 | the first n runes, or none for n below 1 |
| Table.CellFits | internal/jobreport/render.go:33-35 | a cell is within the limit exactly when the limit is at least 3 or nothing was cut |
| Table.CellShows | internal/jobreport/render.go:33-35 | a value that fits is shown whole, any other as its beginning and three dots |
| Table.ColumnsAreNeeded | internal/jobreport/render.go:17-22 | some row has exactly as many cells as the table has columns |
| Table.WidthIsNeeded | internal/jobreport/render.go:36-40 | a column is as wide as its widest cell, so within a limit of at least 3 |
| Table.RenderTable | internal/jobreport/render.go:13-80 | for any rows and limit the text is exactly the specified lines, each with its newline; no padding is ever negative |
| Table.TableIsABox | internal/jobreport/render.go:13-80 | 2n+1 lines of one width, the sum of the column widths plus 3 per column plus 1; every rule and row complete with all borders at the same edges |
| Table.CellStandsInColumn | internal/jobreport/render.go:58-68 | each cell stands in its column with only blanks around it, centred in the header, left-aligned below |
| Table.IndentIsCentred | internal/jobreport/render.go:58-68 | a header cell has as many blanks before it as after it, or one fewer; a body cell starts at once |
| Table.SomeTable | internal/jobreport/render.go:13-80 | the five lines of a table with a header, a row and a cut cell |
| Table.EqualWidthsIffColumns | internal/jobreport/render.go:43-55 | all lines are equally wide exactly when some row has a cell |
| Table.ClosedIffBody | internal/jobreport/render.go:70-77 | the table ends in a bottom rule exactly when there is a row under the header |
| Table.TextSplitsIntoLines | internal/jobreport/render.go:53-80 | with newline-free cells, splitting the text at newlines gives back exactly the 2n+1 lines |
| Args.SplitPositional | internal/jobreport/cli.go:97-115 | the index loop computes the specified split, for any arguments |
| Args.SplitAround | internal/jobreport/cli.go:92-115 | the positional may stand anywhere among well-formed flags: it is found, the flags on both sides keep their order, and everything after it is kept |
| Args.FlagsPass | internal/jobreport/cli.go:92-115 | flags alone pass through unchanged, without a positional |
| Args.EveryCommandLine | internal/jobreport/cli.go:97-115 | every argument list reads as flag groups and a tail that say what comes out: only empty arguments before the positional are ever lost |
| Args.SourceBetweenFlags | internal/jobreport/cli.go:97-115 | a command line with the source between a flag with its value, one that carries it, and a last flag without |
| Args.ReportArgs | cmd/jobreport-web/runner.go:42-48 | the arguments the web server passes to itself reach the flag parser unchanged, whatever the values look like |
| Args.PrintedRangeIsRead | internal/jobreport/cli.go:193-203 | a printed epoch range is read as the same two epochs when they run forward and refused otherwise, for all 64-bit epochs |
| Args.RelativeWindowIsUnchecked | internal/jobreport/cli.go:205-225 | for every count the window ends now and starts at the wrapped difference, and runs forward exactly when the seconds modulo 2^64 are not zero and do not pass the clock by more than 2^63; short of a wrap it has the length asked for and runs forward exactly for a positive count |
| Args.Units | internal/jobreport/cli.go:211-222 | s, m, h and d are a second, 60 of them, 60 of those, 24 of those; nothing else is a unit |
| Args.AbsoluteWindow | internal/jobreport/cli.go:193-203 | two texts around the first `..` are refused exactly when one is no 64-bit integer, or the second not after the first |
| Args.RelativeWindow | internal/jobreport/cli.go:204-223 | a text without dots is refused for its count first and for its unit then, each exactly in its case |
| Args.MomentShows | cmd/jobreport-web/window.go:50-70 | which hours and minutes name a moment; its hour and minute can be read back from the epoch, and each wrong field gives its own error |
| Args.IncompleteMoment | cmd/jobreport-web/window.go:51-53 | incomplete exactly when a field is empty |
| Args.MomentsInOrder | cmd/jobreport-web/window.go:50-70 | moments come in the order of date, hour, minute |
| Args.BuildWindow | cmd/jobreport-web/window.go:18-45 | a text is built exactly for an untouched form or two valid moments in order, which the report then reads back; each error exactly in its case |

## Left out

- HTTP servers and clients, the kubelet, Prometheus queries, the dashboard and its templates: plumbing around what is modelled.
- Reading `/proc`, cgroups and gopsutil: the host is an oracle that gives a PID listing, incarnations and readings; a reading that fails for one field is the value the code falls back to, except the create time, whose fallback is modelled. Splitting environ strings at "=" is part of the reading.
- SHA-256, the salt and hexadecimal text: a given function to 12 hexadecimal characters. That it is the same for all values of one process is all that is used.
- Shannon entropy: a given predicate on the value, since the code only compares it with a threshold.
- Case folding and trimming: given functions; only `NormalizeIdempotent` and `PathsAgreeOnSecrets` need laws of them, which are shown to hold for ASCII text.
- YAML and regular expressions: the models start from decoded scalars and from the matches found on each line. The scalar fields of `JobInfo` (runner, pod, job id, exit code, artifacts) are first-match or last-match assignments.
- Locks: each locked method is one atomic step. Interleaved readers are covered by `Scraper.ReadThenRun`, a pod store replaced during a gather by `KubeJoin.KubeCollector.Collect`.
- Spare capacity of slices: each append and each prune takes a new backing slice; no reader holds one of the store's slices, so sharing one cannot be observed.
- Table: a string is a sequence of runes, so a malformed byte counts as one rune, as the code counts it, but is not told from U+FFFD.
- Args.BuildWindow: takes the midnight of a date as given, so calendar arithmetic is not modelled; nor is the flag package's reading of the arguments it receives.
- Args.ParseWindow: the clock is a parameter.
- Integer widths: PIDs are 32-bit, epochs and sizes are bounded where a proof needs it, relative windows wrap at 64 bits; counters and usage values are unbounded.
- Quantities, number formatting, metric descriptors and help texts, systemd, packages, release download and flag tables: short case lists or library calls.
