# ACH gateway: a model of its file pipeline

A Dafny model of the parts of the gateway that move files: the outbound pipeline from an accepted
file to its upload report, the acceptance protocol in front of it, the cleanup behind it, the inbound
tick, and the small channel protocols around them. Everything is proved for all inputs, all runs or
all interleavings, as the statements say.

The outbound pipeline keeps one pending directory per shard. Queueing X writes `X.ach` there (and
`X.json` if the file carries validation options); canceling renames it to `X.ach.canceled`, or leaves
an empty marker if it has not come yet. A cutoff renames the whole directory to the shard's name with a
timestamp, merges what is not canceled, saves the merged files under `uploaded/`, uploads them and
works out through a key index which input went into which upload.

## How it is built

| file | what it models |
|---|---|
| `Text.dfy` | suffixes, substrings, byte order, the ascending listing of a set of names |
| `Calendar.dfy` | civil time, the stamp `20060102-150405`, printing and parsing |
| `Disk.dfy` | directory trees, the storage operations as functions on them, the class that applies them in place |
| `Paths.dfy` | joining and cleaning of paths, as names with slashes need it |
| `Pending.dfy` | one window of requests on the pending directory, and which names a cutoff admits |
| `Cutoff.dfy` | requests and cutoffs on the tree, and that they do what `Pending` says |
| `Attribution.dfy`, `MergeContract.dfy` | the key index with its destructive search, and what the search means |
| `Merging.dfy` | the merging of one shard, method by method |
| `Offer.dfy` | what a cutoff takes from its window |
| `Aggregator.dfy` | a cutoff with its events |
| `Runs.dfy` | whole runs of requests, cutoffs and cleanups of any number of shards, and their normal form |
| `Reporting.dfy` | the upload events of whole runs |
| `Cleanup.dfy` | the removal of old isolated directories |
| `Receiver.dfy` | the acceptance protocol over the shared table, and one machine of receivers and storage |
| `Waiters.dfy`, `CutoffTriggers.dfy` | HTTP waiters, manual cutoff triggers |
| `Inbound.dfy` | the inbound tick |
| `Encrypted.dfy` | the encrypting chest and its simulation of the plain one |

Code that changes state is a class whose methods say what the new state is, in terms of a function of
the old one; the laws are then lemmas about these functions. Paths are sequences of components. Shards
are named in the configuration by one component each (`Paths.ShardName`). IDs come from outside, and nothing
rejects a slash in them: a request goes where joining and cleaning lead (`Cutoff.PathOf`). If that is
directly some shard's pending directory, the request is exactly the one for that shard and file name
(`Cutoff.LandingIsRequest`). So every run has a normal form, without slashes and without the cutoffs that are
refused, that leaves the same storage (`Runs.NormalRun`); results are stated for regular runs, whose IDs
have no slash and whose cutoffs of one shard fall in distinct seconds, and hold of every run whose normal form
is regular. The ACH library (parsing, writing, merging, flattening), uploading, the event emitter and the clock enter
as parameters that may give any result; faults of the inbound server are arbitrary choices inside
its methods, and so is what others add and remove there. For merging, the results that need it assume one
contract, `MergeContract.KeepsEntries`: the multiset of (87-character header prefix, entry) pairs over the accepted
inputs equals that over the outputs. `Aggregator.CopyThroughKeepsEntries` shows that it can be met for every window.
The steps of the concurrent
parts are atomic at the granularity of one request, one isolation, one table statement, one channel
operation.

## What is false, and when

- Names are exact only up to substrings. Asked about a path, `fileAcceptor` skips what contains `.canceled` and
  takes what contains `.ach`. `Pending.MergesExactlyTheUncanceled` and, over runs, `Runs.CutoffMergesTheUncanceled`
  say exactly when a cutoff merges what was queued and not canceled; `Pending.AdmittedInWindow` says what it merges
  otherwise.
- A path begins with the name of the shard. A shard whose name contains `.canceled` (nothing forbids it) is offered
  none of its files (`Runs.OneRequestOffered`), one whose name contains `.ach` is offered the options files too.
  The mapping is asked about bare names, so it reads files the first of these was never offered
  (`Offer.OfferedIsMapped`). The stamp adds no mark (`Offer.StampHasNoDot`), and path and name are judged alike
  exactly for directories without a mark (`Pending.DirectoryDoesNotMatter`).
- A cutoff removes its directory if merging returns no files, and then the whole window is gone, also when merging
  has failed (internal/pipeline/merging.go:298-309): a window outlives its cutoff exactly if something was merged or
  it was empty (`Runs.WindowKeptIffMerged`).
- Names with two dots in a row are queued, but Open refuses them (internal/storage/filesystem.go:32-34). If merging
  returns files at all, one surviving ID like `a..b`, or one that ends in a dot, fails the mapping, and with it the
  cutoff, after the uploads; so does a shard with such a name. `Offer.MappingInWindow` says exactly when there is a
  mapping, `Aggregator.CutoffSucceedsIff` exactly when a cutoff succeeds and when it panics.
- The prefix comparison of `getNonCanceledMatches` hides a file whose whole name begins another, canceled
  ID. When it equals the plain reading, and when the acceptor, is exact in `Pending.PrefixListingIffPlain` and
  `Pending.PrefixListingIffAcceptor`.
- An ID with a slash need not be what it seems. `../T/b` queued for one shard is the file `b.ach` of shard T; queued
  beside `b` for T it is offered by two cutoffs of T (`Runs.SlashOffersTwice`). `x/../b` is `b`, also for a cancel
  (`Cutoff.DetourIsPlain`). X.ach lies in its pending directory under that name exactly if X has no slash
  (`Cutoff.InPlaceIffFlat`), and a run comes to one without slashes exactly if every ID leads directly into
  some pending directory (`Runs.NormalFlatIffAllLand`).
- Directory names resolve one second. A second cutoff in the same second, with nothing pending, takes the
  old directory and offers all its files again, and the merged files of the first cutoff too if merging reads on in
  `uploaded/` (`Runs.SameSecondRepeats`, `Offer.MergedOfferedBelow`); with something pending it
  fails and changes nothing (`Cutoff.IsolateOutcome`), and the normal form of a run leaves it out. Results over
  runs assume distinct seconds per shard for the cutoffs that remain. When daylight saving time ends, local
  stamps repeat an hour later, so cutoffs an hour apart can share a name too.
- A repeated cancel keeps the names but empties the canceled file (`Pending.CancelTwice`; `Runs.Conserved`
  gives the contents after any number of cancels).
- An entry that occurs twice may be spread over two outputs, and only the first lists the file
  (`MergeContract.RepeatedKeyListedOnce`); `MergeContract.ListedIff` is exact without any assumption.
- Stamps are printed in local time and read as UTC. West of Greenwich directories go early by the whole
  offset (`Cleanup.AgeAtDeletion`, `Cleanup.WestGoesEarly`).
- The documentation of cleanup (docs/ops/cleanup.md:78) takes a file under `uploaded/` for a sign of successful
  processing. The code fills `uploaded/` before the first upload: a directory is removed exactly if it is old enough,
  an agent was found and some merged file could be rendered, whatever became of the uploads
  (`Offer.EligibleIffSaved`).
- A recorded file need not be accepted. If the receiver crashes between the two, if the deletion of its row fails after
  a failed accept, or if the insert fails after it had its effect, the next delivery finds the row and is acked, and the
  file is never queued (`Receiver.InterventionLoses`); as long as none of the three happens, every recorded file was
  accepted or is still attended to (`Receiver.RecordedIsAccepted`).
- Options once queued for an ID stay in the window: a file queued again without options, or after a cancel, is read
  with the old ones (`Pending.WindowData`, `Aggregator.InputsRead`).
- With auto commit a message is acked before its row is written, so it can be acked without a row
  (`Receiver.AutoCommitLoses`).
- The create route registers its waiter under the ID as it came, while responses are looked up without
  `.ach`: a waiter for an ID that ends in `.ach` never gets its own response, only, if at all, one for that ID
  with a second `.ach` (`Waiters.OwnResponse`).
- Replacing a missing file writes an empty one past the cipher. The encrypted chest keeps simulating the plain
  one exactly if empty contents reveal as empty (`Encrypted.MissingReplacement`), and then over all sequences of
  operations (`Encrypted.EncryptedChestSimulatesAll`).
- The deletion of a local copy strikes the remote file it came from exactly if the listing is flat
  (`Inbound.DeletesItselfIffFlat`).
- With remote deletion and zero-byte deletion both on, an empty inbound file makes the tick fail even if nothing
  goes wrong, unless the agent retries: the second deletion finds it gone, and unlike the first does not overlook
  that (`Inbound.DeleteRemote`).
- The agents leave names that begin with a dot out of their listings, so hidden remote files are never copied nor
  deleted (`Inbound.Visible`). A retrying agent turns errors it does not retry into success
  (internal/upload/retry.go:43-51); then a tick can succeed on an incomplete listing or without having deleted. It
  still loses nothing (`Inbound.Tick`).

## Model

| member | source | states |
|---|---|---|
| Disk.Filesystem.WriteFile | internal/storage/filesystem.go:148-172 | creates the parents, then creates or truncates the file; the tree stays a tree |
| Disk.Filesystem.ReplaceFile | internal/storage/filesystem.go:109-126 | moves a file over the new name, or leaves an empty one if there is none to move |
| Disk.Filesystem.ReplaceDir | internal/storage/filesystem.go:128-138 | moves a directory unless the target exists; without an old one the target is made or taken as it is |
| Disk.Filesystem.RmdirAll | internal/storage/filesystem.go:144-146 | everything at or below the path goes, nothing else does |
| Disk.Filesystem.ReadDir | internal/storage/filesystem.go:52-57 | every child once, in ascending order, marked as file or directory; an error exactly if there is no such directory |
| Disk.Filesystem.Glob | internal/storage/filesystem.go:65-107 | reading in chunks finds exactly the children with the suffix |
| Disk.RenameKeepsTree | internal/storage/filesystem.go:128-138 | after a rename every entry still hangs off a directory and none is both file and directory |
| Disk.MoveFilesAt | internal/storage/filesystem.go:137 | each file after a directory move is the one at the path it came from: none lost, none copied |
| Cutoff.PathOfIsJoin | internal/pipeline/merging.go:106-107 | the path of a request is what joining the pending directory and the name gives, with slashes, dots and empty parts cleaned |
| Paths.PartsAre | internal/pipeline/merging.go:106-107 | the components of a name are what lies between its slashes |
| Paths.CleanRules | internal/pipeline/merging.go:106-107 | cleaning drops empty components and dots, and two dots together with the component before them |
| Paths.CleanedStays | internal/pipeline/merging.go:106-107 | a path with nothing of that left stays as it is |
| Cutoff.InPlaceIffFlat | internal/pipeline/merging.go:106-107 | the file X.ach lies under that name in its pending directory if and only if X has no slash |
| Cutoff.LandingIsRequest | internal/pipeline/merging.go:99-185 | a request whose ID leads directly into some pending directory is, in effect and report, the one for that shard and file |
| Cutoff.DetourIsPlain | internal/pipeline/merging.go:142-158 | for instance an ID that goes down and up again is the plain one |
| Calendar.SecondsOrder | internal/pipeline/cleanup.go:261 | calendar order is the order of the seconds, and a second has one civil time |
| Calendar.RealCalendar | internal/pipeline/cleanup.go:252-258 | the seconds are those of the Gregorian calendar in closed form, and a date is valid if and only if that calendar has it: every month and leap year has its real length |
| Calendar.StampFields | internal/pipeline/merging.go:189 | a printed stamp is the decimal digits of year, month and day, a hyphen, and those of hour, minute and second |
| Calendar.EverySecondIsCivil | internal/pipeline/merging.go:189 | every second of the years 0 to 9999 has a civil time |
| Calendar.FormatParse | internal/pipeline/cleanup.go:252-258 | a stamp that parses is the printed form of what it parses to |
| Pending.WindowContents | internal/pipeline/merging.go:99-185 | after any window: which of X.ach, X.json and X.ach.canceled are there, from what was queued and canceled |
| Pending.WindowData | internal/pipeline/merging.go:99-185 | X.ach holds the file last queued for X, X.json the options last queued for X |
| Pending.WindowNames | internal/pipeline/merging.go:99-185 | no other names are there |
| Pending.AdmittedInWindow | internal/pipeline/merging.go:410-427 | the names the acceptor admits after any window, asked about paths in any directory, exactly |
| Pending.MergesExactlyTheUncanceled | internal/pipeline/merging.go:410-427 | they are X.ach for every X queued and not canceled, in either order, if and only if no surviving ID is marked ".canceled", by itself or by the directory, and none with options is marked ".ach" without it |
| Pending.CancelFinds | internal/pipeline/merging.go:142-158 | a file or marker is found exactly if the ID was queued or canceled in the window |
| Pending.CancelTwice | internal/storage/filesystem.go:119-122 | a second cancel changes no name and empties the canceled file |
| Pending.CancelSticks | internal/pipeline/merging.go:134-185 | after a cancel nothing later in the window brings the ID back into the merge |
| Pending.Overlap | internal/pipeline/merging.go:246-252 | X.ach begins Y.ach.canceled if and only if X is Y or X.ach begins Y |
| Pending.NonCanceledInWindow | internal/pipeline/merging.go:222-259 | what the prefix listing keeps after any window, exactly |
| Pending.PrefixListingIsAcceptor | internal/pipeline/merging.go:201-259 | for a directory and IDs without inner ".ach" or ".canceled" the prefix listing, the acceptor and "queued and not canceled" agree |
| Pending.PrefixListingIffPlain | internal/pipeline/merging.go:222-259 | the prefix listing is "queued and not canceled" if and only if no canceled ID begins with the whole name of a surviving file |
| Pending.PrefixListingIffAcceptor | internal/pipeline/merging.go:201-259 | it is what the acceptor admits if and only if the surviving files it hides are those marked ".canceled", by their ID or the directory, and no options file is admitted |
| Pending.InnerExtensionHides | internal/pipeline/merging.go:246-252 | for instance, a surviving file whose whole name begins a canceled ID is merged but missing from the prefix listing |
| Pending.InnerExtensionWitness | internal/pipeline/merging.go:246-252 | for instance "a" queued and "a.ach.b" canceled |
| Pending.DirectoryDoesNotMatter | internal/pipeline/merging.go:410-427 | the acceptor says the same of every path in a directory and of the bare name if and only if the directory contains neither ".ach" nor ".canceled" |
| Pending.BaseIs | internal/pipeline/merging.go:416 | the last element of a path is what follows its last slash |
| Text.ContainsIs | internal/pipeline/merging.go:414-422 | a string contains another if and only if it is that one with something before and after |
| Text.SuffixIs | internal/pipeline/merging.go:217 | it ends in another if and only if it is that one with something before |
| Text.LessIs | internal/storage/filesystem.go:52-57 | names come in the order of their first different byte, a beginning before the whole |
| Cutoff.DirNamesDiffer | internal/pipeline/merging.go:189 | a directory name determines the shard and the second |
| Cutoff.DirNamesOrder | internal/pipeline/merging.go:189 | for one shard string order on names is the order of time |
| Cutoff.RequestRefines | internal/pipeline/merging.go:99-185 | on the tree a request for an ID without a slash goes through, acts on its pending directory as on a map of names, and touches nothing else |
| Cutoff.CancelReport | internal/pipeline/merging.go:142-178 | for an ID without a slash, a cancel is reported successful if and only if the file or its canceled form is pending and no name has two dots in a row |
| Cutoff.IsolateOutcome | internal/pipeline/merging.go:188-199 | isolation moves the window to the new name; if the name is taken it fails when something is pending and changes nothing otherwise |
| Cutoff.CutoffRefines | internal/pipeline/merging.go:269-339 | a cutoff under a free name moves the window unchanged, or drops it if nothing was merged, leaves the next window empty and changes nothing outside |
| Attribution.KeyDropsBatchNumber | internal/pipeline/merging.go:512-515 | two keys are equal if and only if the headers agree before the 7-character batch number and the entries agree |
| Attribution.KeysInOrder | internal/pipeline/merging.go:497-515 | a file has one key for each entry, batch by batch: 87 characters of the header, then the entry |
| Attribution.KeyHasEntry | internal/pipeline/merging.go:497-515 | a key is one of the file if and only if some batch and entry of it make it |
| Attribution.RenumberingKeepsKeys | internal/pipeline/merging.go:512-515 | renumbering the batches of a file changes none of its keys |
| Attribution.IndexNamesLast | internal/pipeline/merging.go:497-507 | a key is indexed if and only if some accepted file has it, under the last such file |
| Attribution.SortCompact | internal/pipeline/merging.go:546-547 | sorting and compacting gives the strictly ascending listing of the names |
| Attribution.AccumulateMappings | internal/pipeline/merging.go:497-507 | every entry of the file is indexed under it, other keys stay |
| Attribution.FindInputFilepaths | internal/pipeline/merging.go:526-550 | output i lists, strictly sorted, the owners of its keys that are in no earlier output; the index ends without any key of an output |
| MergeContract.ListedIff | internal/pipeline/merging.go:526-550 | an input is listed for an output if and only if some key of the output is in no earlier output and that input is the last one with it |
| MergeContract.ListedIffShared | internal/pipeline/merging.go:431-550 | if merging keeps entries and none repeats, an input is listed for an uploaded output if and only if they share an entry |
| MergeContract.EveryInputListed | internal/pipeline/merging.go:431-550 | if moreover all were uploaded, every entry of every input is in exactly one output, which lists the input |
| MergeContract.RepeatedKeyListedOnce | internal/pipeline/merging.go:540-542 | a repeated entry spread over two outputs is listed for the first only |
| Merging.FilesystemMerging.HandleXfer | internal/pipeline/merging.go:90-132 | writes the file and then its options; an error exactly if the file could not be rendered or written |
| Merging.FilesystemMerging.HandleCancel | internal/pipeline/merging.go:134-185 | replaces the file by its canceled form and reports as the specification says |
| Merging.FilesystemMerging.GetCanceledFiles | internal/pipeline/merging.go:201-220 | exactly the names whose canceled form is in the directory |
| Merging.FilesystemMerging.GetNonCanceledMatches | internal/pipeline/merging.go:222-259 | exactly the .ach files no canceled file's path begins with |
| Merging.FilesystemMerging.BuildDirMapping | internal/pipeline/merging.go:431-462 | the index over the accepted files in directory order, or none if one of them cannot be read |
| Merging.UnreadableFails | internal/pipeline/merging.go:455-458 | one unreadable file fails the mapping whatever follows it |
| Merging.FilesystemMerging.FlattenAndSave | internal/pipeline/merging.go:321-339 | every file is flattened, or kept as it is if that is not asked for or fails, and saved; one failure stops no other file |
| Merging.FilesystemMerging.UploadEach | internal/pipeline/merging.go:341-365 | exactly the files whose callback succeeded are kept, under the filename it returned |
| Merging.FilesystemMerging.WithEachMerged | internal/pipeline/merging.go:269-382 | the tree after a cutoff, whatever the uploads do, and its result: uploads with their inputs, and nil exactly if nothing failed |
| Offer.OfferedInWindow | internal/pipeline/merging.go:188-294 | a cutoff offers merging, by their paths in the isolated directory, exactly the mergeable files of its window for the name of its shard, and there are no directories below to read on in |
| Offer.OfferedIsMapped | internal/pipeline/merging.go:410-462 | options files aside, what merging was offered by path is what the mapping reads by name, if and only if the shard has no ".canceled" in its name or nothing survives |
| Offer.MappedInWindow | internal/pipeline/merging.go:431-462 | the mapping reads exactly the surviving files of the window, from the isolated directory |
| Offer.MappingInWindow | internal/pipeline/merging.go:431-507 | a cutoff that merged something gets a mapping if and only if every surviving file has a path Open takes, good options if any, and parses |
| Offer.SameSecondOffersAgain | internal/storage/filesystem.go:131-133 | a second cutoff in the same second, nothing pending, offers the same files again, and below, if merging reads on there, exactly what of the saved files the acceptor lets through |
| Offer.MergedOfferedBelow | internal/pipeline/merging.go:410-427 | that is every merged file saved, unless its name or the shard contains ".canceled" or its name was canceled as an ID |
| Offer.EligibleIffSaved | internal/pipeline/cleanup.go:236-296 | after a cutoff its directory is eligible for cleanup if and only if it is old enough, an agent was found and some merged file was rendered, uploaded or not |
| Offer.UploadedHold | internal/pipeline/merging.go:552-592 | under uploaded/ lie the contents of the last merged file saved under each name, and the last options |
| Runs.EveryFileAccounted | internal/pipeline/merging.go:99-339 | in every regular run: each pending directory holds what its window left, each cutoff's directory its window until removed |
| Runs.CutoffOffersWindow | internal/pipeline/merging.go:188-294 | in every regular run a cutoff of any shard offers exactly the files mergeable for the name of that shard that were queued since the last one and not canceled since |
| Runs.CutoffMergesTheUncanceled | internal/pipeline/merging.go:188-294 | that is every file queued and not canceled, and nothing else, if and only if no surviving ID, nor the shard if any survives, contains ".canceled", and nothing queued with options is marked ".ach" without it |
| Runs.WindowKeptIffMerged | internal/pipeline/merging.go:298-309 | after a cutoff in any regular run its directory holds its window if and only if something was merged or the window was empty; otherwise no file of it is left |
| Runs.SameSecondRepeats | internal/storage/filesystem.go:128-138 | distinct seconds are needed: after any regular run a repeated second offers exactly the whole window again, and below what the first cutoff saved |
| Runs.CancelReportInRun | internal/pipeline/merging.go:134-185 | in every regular run a cancel of an ID without a slash is successful if and only if it was queued or canceled since the last cutoff (and no name has two dots in a row) |
| Runs.Conserved | internal/pipeline/merging.go:188-309 | in every regular run a queued file is in the pending directory until the next cutoff, then in that cutoff's directory with the contents its cancels leave, until that is removed |
| Runs.NoSecondCopy | internal/storage/filesystem.go:128-146 | meanwhile no other directory has it, only possibly an empty marker |
| Runs.KindsOfFiles | internal/pipeline/merging.go:99-339 | in every regular run there are no files but pending ones, archived ones and merged ones |
| Runs.OfferedAtMostOnce | internal/pipeline/merging.go:188-294 | a file queued once in a regular run is offered to merging by at most one cutoff, of whatever shard |
| Runs.NormalRun | internal/pipeline/merging.go:99-199 | every run, whatever its IDs and seconds, leaves the storage its normal form leaves |
| Runs.NormalIsNormal | internal/pipeline/merging.go:99-199 | the normal form has no refused cutoff, and no slash in an ID that leads directly into a pending directory |
| Runs.NormalFlatIffAllLand | internal/pipeline/merging.go:106-107 | the normal form has no slashes if and only if every ID leads directly into some pending directory |
| Runs.EveryRunAccounted | internal/pipeline/merging.go:99-339 | where every file is, in any run whose IDs lead into pending directories |
| Runs.CancelReportInEveryRun | internal/pipeline/merging.go:134-185 | in any such run, the exact report of a cancel whose ID leads into a pending directory |
| Runs.CutoffOffersInEveryRun | internal/pipeline/merging.go:188-294 | in any such run, what a cutoff offers, by the files that IDs lead to |
| Runs.SlashOffersTwice | internal/pipeline/merging.go:106-107 | two different IDs, for two shards, can be one file, offered by two cutoffs of one shard, by both if and only if neither the file nor that shard has ".canceled" in its name |
| Runs.OneRequestOffered | internal/pipeline/merging.go:410-427 | a single file queued after a cutoff is offered by the next one if and only if neither its ID nor its shard contains ".canceled" |
| Aggregator.EmitFilesUploaded | internal/pipeline/aggregate.go:279-306 | one event is tried per output and listed input, in order; just those the emitter takes go out, in order, and all is well if and only if it takes every one: a refused one stops no later one |
| Aggregator.EmitsWhatIsTaken | internal/pipeline/aggregate.go:279-306 | the same for every emitter, of the function the method computes |
| Aggregator.EventsInOrder | internal/pipeline/aggregate.go:279-306 | the events are those of the first output, input by input, then those of the next |
| Aggregator.EmitAllEvents | internal/pipeline/aggregate.go:279-306 | only such events go out, and all of them in order if no send fails |
| Aggregator.ShardAggregator.WithEachFile | internal/pipeline/aggregate.go:219-250 | events go out only if the cutoff had no error; then just those of its uploads that the emitter takes, in order |
| Aggregator.ShardAggregator.ManualCutoff | internal/pipeline/aggregate.go:252-277 | the same, with exactly one reply: the error of the cutoff, not of the events |
| Aggregator.InputsSurvive | internal/pipeline/merging.go:431-462 | the inputs read back are the files queued and not canceled, each once |
| Aggregator.InputsRead | internal/pipeline/merging.go:431-507 | each input read back has the keys of X.ach as it lies in the window, parsed with the options in X.json if there are any, and they come in the order of their names |
| Aggregator.OutputsFlattened | internal/pipeline/merging.go:321-331 | what is uploaded is what merging gave, flattened where that is asked for and succeeds |
| Aggregator.OutputsKeptUnderHash | internal/pipeline/merging.go:552-592 | every output that can be rendered is kept under the hash of its contents, and what lies there is an output of that hash |
| Aggregator.WindowEventsAreTruthful | internal/pipeline/aggregate.go:279-306 | every event names a file queued and not canceled in the window, under the filename a callback returned for an output sharing an entry with it |
| Aggregator.OneEventPerShare | internal/pipeline/aggregate.go:279-306 | without an error, with unique entries and no failed send: the events sent for an input, under its ID without extension and a filename, are as many as the outputs of that filename it shares an entry with |
| Aggregator.CutoffSucceedsIff | internal/pipeline/merging.go:269-382 | a cutoff succeeds if and only if merging, flattening, rendering and all uploads do and, if anything was merged, every surviving file can be read back; it panics if and only if one cannot and an uploaded output has an entry |
| Aggregator.CopyThroughKeepsEntries | internal/pipeline/merging.go:384-399 | the contract on merging can be met for every window of every shard |
| Reporting.ReportIsStep | internal/pipeline/aggregate.go:219-250 | the step of a run whose cutoff a report tells of leaves the tree that cutoff leaves |
| Reporting.ReportedIsQueued | internal/pipeline/aggregate.go:279-306 | in every regular run an event names a file queued since the last cutoff of its shard and not canceled since |
| Reporting.ReportedByOneCutoff | internal/pipeline/aggregate.go:279-306 | over a regular run all events that name a file queued once come from one cutoff |
| Reporting.AcceptedReportedOnce | internal/pipeline/aggregate.go:279-306 | over every run of receivers and storage as one machine, each accepted file is reported by at most one cutoff, under the conditions of Receiver.AcceptedIDsOfferedOnce |
| Reporting.EveryInputReported | internal/pipeline/aggregate.go:219-306 | if a cutoff of a regular run succeeds, merging kept the entries and no send fails, every input with an entry that occurs once is named by an event |
| Cleanup.IsolatedNameReadsBack | internal/pipeline/cleanup.go:245-258 | the name isolation prints matches the pattern and parses back to the same second |
| Cleanup.MatchingNameIsPrinted | internal/pipeline/cleanup.go:76-77 | a name that matches and parses is one that isolation prints |
| Cleanup.DeletionsDisjoint | internal/pipeline/cleanup.go:76-77 | two shards never remove the same directory, even if one name extends the other |
| Cleanup.MergableUntouched | internal/pipeline/cleanup.go:170-207 | no run removes a pending file |
| Cleanup.SecondRunIdle | internal/pipeline/cleanup.go:156-207 | at the same cutoff nothing is eligible after a run, and a second run changes nothing |
| Cleanup.AgeAtDeletion | internal/pipeline/cleanup.go:253-268 | the exact real age from which a directory goes; it exceeds retention plus zone offset less one second |
| Cleanup.WestGoesEarly | internal/pipeline/cleanup.go:168 | five hours west of UTC a directory goes five hours before its retention is over |
| Cleanup.CleanupService.ShouldDeleteDirectory | internal/pipeline/cleanup.go:236-296 | old enough by the real calendar and a regular file in uploaded/; an error exactly if the stamp is no time |
| Cleanup.CleanupService.RunCleanup | internal/pipeline/cleanup.go:142-207 | removes exactly the eligible directories, each whole, and counts them and the unreadable ones |
| Cleanup.CleanupService.GetStats | internal/pipeline/cleanup.go:322-364 | counts the matching and the eligible directories; an error exactly if some stamp is no time |
| Receiver.FilesTable.Record | internal/files/repo_files.go:40-58 | a unique insert; a failing one may have had its effect |
| Receiver.FilesTable.Cleanup | internal/files/repo_files.go:60-76 | deletes the row of this ID and shard key; a failing one may have had its effect |
| Receiver.FindsTheShard | internal/pipeline/file_receiver.go:405-440 | a key goes to the known shard the mapping names, or the one named like the key if the mapping has no name for it; failing that to the default shard, if known; to none if the lookup fails |
| Receiver.FileReceiver.ProcessACHFile | internal/pipeline/file_receiver.go:442-501 | when it fails and when it wins the file, and which shard gets it; an invalid file is done without an error; whatever fails, it takes steps of the protocol for its own delivery: done without an error, put back with one |
| Receiver.FileReceiver.AcceptFile | internal/pipeline/file_receiver.go:483-491 | the winner's accept, with the row deleted again if it fails |
| Receiver.FileReceiver.ProcessMessage | internal/pipeline/file_receiver.go:275-361 | how often a message is acked, when an error comes back, how many invalid-file events, which shard accepts, and its protocol steps |
| Receiver.FileReceiver.CancelACHFile | internal/pipeline/file_receiver.go:503-537 | which shard is asked; recording, canceling and announcing in this order, each stopping the rest if it fails; a response after all three only; without a shard nothing |
| Receiver.AcceptedAndAckedAtMostOnce | internal/pipeline/file_receiver.go:466-501 | under any interleaving, duplicates, faults and crashes: no ID is accepted twice, no delivery acked twice |
| Receiver.AckedMeansRecorded | internal/pipeline/file_receiver.go:275-361 | without auto commit an acked valid delivery means its row is there or another valid delivery of the ID is not acked |
| Receiver.AutoCommitLoses | internal/pipeline/file_receiver.go:282-285 | with auto commit that fails |
| Receiver.RecordedIsAccepted | internal/pipeline/file_receiver.go:466-501 | without a crash, a failed deletion or an insert lost after its effect, every recorded file was accepted or has an owner that still has to hand it over or delete its row |
| Receiver.InterventionLoses | internal/pipeline/file_receiver.go:466-501 | each of the three is enough: the next delivery is acked, the row is there, and the file is never accepted |
| Receiver.JointQueuesAccepted | internal/pipeline/file_receiver.go:466-501 | in that machine the storage queues exactly what the receivers accepted, in order |
| Receiver.QueuedAsAccepted | internal/pipeline/file_receiver.go:466-501 | every file the storage queues was handed over by an accept, for that shard, with those contents and options |
| Receiver.OthersAsOperated | internal/pipeline/aggregate.go:142-172 | canceling, cutoffs and cleanup happen to the storage as they come, in order |
| Receiver.AcceptedIDsOfferedOnce | internal/pipeline/file_receiver.go:466-501 | over every run of receivers and storage as one machine, each ID is offered to merging at most once, if IDs lead into pending directories under names that differ as they do |
| Waiters.Rendezvous.Register | internal/incoming/web/api_files.go:234-237 | a fresh waiter under the key, replacing an earlier one |
| Waiters.Rendezvous.Deliver | internal/incoming/web/api_files.go:103-109 | the response goes to the waiter of its key, if any, which leaves the map; the send under the lock cannot block |
| Waiters.Rendezvous.ActiveDistinctAndEmpty | internal/incoming/web/api_files.go:85-138 | in every state the channels in the map are distinct, empty and have room |
| Waiters.Interleave | internal/incoming/web/api_files.go:85-138 | under any interleaving each waiter gets exactly the first response whose ID without extension is its key, unless another waiter took its place before, and no other |
| Waiters.OwnResponse | internal/incoming/web/api_files.go:85-138 | in any traffic a waiter still waiting gets the response for the ID it waits under if and only if that does not end in .ach |
| Waiters.FilesController.CreateAndRespond | internal/incoming/web/api_files.go:193-237 | with nothing in between, a create request gets its own response if and only if its ID does not end in .ach |
| Waiters.FilesController.CancelAndRespond | internal/incoming/web/api_files.go:260-310 | with nothing in between, a cancel request gets its own response if and only if its ID does not end in .ach twice |
| Waiters.ExtensionSharesKey | internal/incoming/web/api_files.go:101 | two IDs that differ in the extension answer the same waiter |
| CutoffTriggers.EveryTriggerAnsweredOnce | internal/pipeline/aggregate.go:148-172 | for any number of callers: the loop never blocks on a reply, each trigger taken gets exactly one once its cutoff is over, cutoffs never overlap |
| CutoffTriggers.PendingTriggerServed | internal/pipeline/aggregate.go:148-172 | from every reachable state: while the loop waits, the first trigger in the channel can be taken, its cutoff run, and its caller answered, with nothing else changed |
| CutoffTriggers.NewCallerHandsOver | internal/pipeline/manual_cutoff_times.go:127-136 | a new caller hands its trigger over if the channel is empty |
| CutoffTriggers.ScheduledCutoffRuns | internal/pipeline/aggregate.go:148-160 | a cutoff on schedule runs without any caller |
| CutoffTriggers.StoppedStays | internal/pipeline/aggregate.go:165-172 | a loop that has stopped takes no trigger any more |
| CutoffTriggers.StopsBetweenCutoffs | internal/pipeline/aggregate.go:148-172 | a shutdown waits for the cutoff that runs, and only a cutoff can panic |
| CutoffTriggers.FullReplyBlocks | internal/pipeline/manual_cutoff_times.go:130-131 | without room in the channel of the caller the loop would block for good |
| CutoffTriggers.TriggerManualCutoff | internal/pipeline/manual_cutoff_times.go:55-125 | every shard named is answered for by its last mention: a known one by its reply, an unknown one by an error; success if one was named and none failed |
| CutoffTriggers.HasErrors | internal/pipeline/manual_cutoff_times.go:46-53 | true exactly if some shard failed |
| Inbound.DeletesItselfIffFlat | internal/incoming/odfi/cleanup.go:85-87 | deleting by the last path element strikes the copied file if and only if the listing is flat |
| Inbound.HiddenByDot | internal/upload/sftp.go:191-196 | a listing leaves out the names that begin with a dot, and no others |
| Inbound.SaveFilepaths | internal/incoming/odfi/download.go:185-245 | without an error every listed file was copied in full; an error means a fault, or that somebody else removed a file meanwhile |
| Inbound.CopyFilesFromRemote | internal/incoming/odfi/download.go:137-181 | on success the copies are whole and are files of the server; unless a retrying agent hid a fault, they include all visible ones there at the start that nobody else took |
| Inbound.Surroundings.HandleAll | internal/incoming/odfi/processor.go:72-86 | every processor gets the file whatever the others do; no error means all took it |
| Inbound.TrimSpaceCuts | internal/incoming/odfi/processor.go:132 | what is parsed, handled and audited is the contents without the white space at both ends, and with all that is between |
| Inbound.TrimmedOnce | internal/incoming/odfi/processor.go:132 | that is one thing only |
| Inbound.Surroundings.ProcessFile | internal/incoming/odfi/processor.go:127-178 | no error means parsed, or parsed but for a missing file header, saved to the audit trail if there is one and the trimmed contents are not empty, and taken by every processor; an error means a fault or contents that do not parse |
| Inbound.ProcessFiles | internal/incoming/odfi/processor.go:88-125 | no error means every file of the three directories was processed; an error means a fault or a file that does not parse |
| Inbound.DeleteFilesOnRemote | internal/incoming/odfi/cleanup.go:71-102 | deletes only what was copied; on success all of it is gone, unless a retrying agent hid a fault |
| Inbound.CleanupEmptyFiles | internal/incoming/odfi/cleanup.go:54-69 | deletes only what was copied and is empty; without a fault, and if nobody else removes a file meanwhile, it fails exactly if one of these is gone already and the agent does not retry |
| Inbound.DeleteRemote | internal/incoming/odfi/scheduler.go:178-188 | deletes only what was copied, or only what is empty; without a fault, and if nobody else has removed a file, it fails exactly if both deletions are on, an empty file was copied and the agent does not retry |
| Inbound.HandleCopies | internal/incoming/odfi/scheduler.go:167-188 | processing and deletion of the copies: nothing is deleted unprocessed, whatever fails |
| Inbound.Tick | internal/incoming/odfi/scheduler.go:149-194 | with others adding and removing files at any moment, what is deleted was copied whole, taken by every processor and audited in this tick; on success, unless a retrying agent hid a fault, all visible files there at the start that nobody else took are handled, and gone unless kept; without a fault (the audit trail included) or a removal by others it fails exactly if a copy does not parse or an empty one is to be deleted twice without retries |
| Encrypted.EncryptedChest.Open | internal/storage/encryption.go:24-64 | opens to the revealed contents |
| Encrypted.EncryptedChest.Apply | internal/storage/encryption.go:76-101 | writes disfigured contents, passes everything else through |
| Encrypted.WriteReveals | internal/storage/encryption.go:92-101 | on the encrypting chest a write reveals what was written, at that path and no other |
| Encrypted.ReplaceReveals | internal/storage/encryption.go:76-78 | a replacement takes the contents along |
| Encrypted.DirectoryMoves | internal/storage/encryption.go:80-82 | a moved directory takes all below it along |
| Encrypted.DirectoryMovesAlone | internal/storage/encryption.go:80-82 | and nothing else changes |
| Encrypted.DirectoryGoes | internal/storage/encryption.go:88-90 | a removed one takes it away, and nothing else |
| Encrypted.EncryptedChestSimulates | internal/storage/encryption.go:24-101 | over every sequence of writes, moves, removals and replacements of existing files: same names, same opened contents as the plain chest |
| Encrypted.EncryptedChestSimulatesAll | internal/storage/encryption.go:24-101 | if empty contents reveal as empty, over every sequence of operations |
| Encrypted.SimulationIsSeen | internal/storage/encryption.go:24-74 | under the simulation every path opens to the same contents and every directory lists the same names |
| Encrypted.MissingReplacement | internal/storage/filesystem.go:119-122 | replacing a missing file keeps the simulation if and only if empty contents reveal as empty |
| Encrypted.SecondCancelFinds | internal/pipeline/merging.go:142-158 | on encrypted storage a second cancel finds the marker of the first if and only if empty contents can be revealed |

## Left out

- Runs.NormalRun: IDs that lead elsewhere than directly into a pending directory (deeper, beside or above it) are followed to their path, but no result speaks of runs with them; what lies above the storage root is kept under the component "..".
- Runs.CutoffOffersWindow: a request counts as one step, although queueing writes two files and canceling opens before it renames; shard names with slashes.
- Pending.AdmittedInWindow: file names without a slash, which is what IDs come to that lead into a pending directory.
- Pending.MergesExactlyTheUncanceled: the same.
- Pending.CancelSticks: the same.
- Pending.PrefixListingIsAcceptor: the same.
- Offer.OfferedInWindow: the same.
- Offer.MappedInWindow: the same.
- Offer.SameSecondOffersAgain: whether merging reads on below is up to the ACH library; both answers are covered.
- Offer.MappingInWindow: the same; what else the ACH library may fail on is part of the parameter that parses.
- Encrypted.SecondCancelFinds: IDs without a slash.
- Disk.Filesystem.WriteFile: errors of the host beyond those the tree explains (a full disk, permissions) and partial writes; the same holds for all operations of this class.
- Disk.Filesystem.Glob: patterns are a star and a suffix, the only ones in use; modification times are not kept.
- Merging.FilesystemMerging.WithEachMerged: parsing, writing, merging, flattening and hashing are parameters; a lookup in the index that could not be built is taken to panic.
- Receiver.FileReceiver.ProcessMessage: decoding and decrypting of messages, the contents of invalid-file events and the time of cancellation in the table.
- Receiver.JointQueuesAccepted: a failed accept is taken to leave nothing behind in the storage.
- Receiver.FilesTable.Cleanup: the SQL form; the Spanner form deletes by ID alone, which comes to the same for the owner of the row.
- Waiters.Rendezvous.Take: timeouts of waiters, which change no state: the entry stays in the map.
- CutoffTriggers.EveryTriggerAnsweredOnce: callers that come after the loop has stopped wait forever; nothing is claimed about when a reply comes.
- Inbound.Tick: listings are flat, the three directories differ and do not nest, and no remote name is used for a second file; white space beyond ASCII in trimming; the local directory that is left over.
- Encrypted.EncryptedChestSimulates: a cipher whose encryption fails.
- Retries of uploads and notifications: an error taken for non-retryable becomes nil there, so success of an upload means that the callback returned nil.
- Classification of corrections, returns and prenotes: the processors are arbitrary.
- FTP and SFTP clients, Kafka, routing, telemetry, metrics, logging, alerting and configuration: input and output.
- The schedule of cutoffs, holidays, filename templates, address lists and masking: behaviour of libraries and configuration.
- The protection of messages (base64, gzip, AES-GCM): compositions of standard library functions.
