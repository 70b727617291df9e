# Encastra, modelled and proved

Encastra runs graphs of components through a capability broker, and its editor keeps its own canvas,
history and import protocol. This project models the parts of it whose correctness spans many calls, and
proves what they keep:

* **The capability broker** (`FileSystem`, `FileSystemLaws`, `Filenames`, `Decimal`, `BrokerState`, `BrokerSafety`,
  `BrokerHandles`, `BrokerAudit`, `BrokerAnswers`, `BrokerReasons`, `BrokerLoss`, `BrokerLossRuns`, `Broker`). A filesystem of
  canonical paths with files, folders and symbolic links and a resolver that follows them; the broker as a
  function of its state, and as a class that does the same in place; then what every run keeps, and exactly
  when a run can lose a user's bytes. The central result is
  `BrokerSafety.EveryChangeIsAccountedFor`: in a run whose components write only to handles they created,
  every change outside the run's own directory is either a new file holding the source's bytes directly in
  a folder the node was granted, or a move taking away a source whose bytes already stand elsewhere.
* **The folder watcher** (`Watcher`, `WatcherRuns`): a poll loop over two tables, and statements about
  whole sequences of listings, failed polls and failed imports included.
* **The conversion interpreter** (`Convert`, `ConvertLaws`, `ConvertClaims`, `ConvertContent`,
  `ConvertRoundTrips`, `ConvertReadings`): chains of operations over nested values, which thread the broker;
  algebraic laws, an invariant and exactly which chains keep it, round trips, and exactly which texts and which
  JSON each value is read from.
* **Two parsers of one address** (`UrlAuthority`, `UrlAgreement`, `UrlMeaning`): the runtime's and the editor's,
  exactly where they agree on any address, and what the address means.
* **The editor** (`Graph`, `History`, `Clipboard`, `Canvas`, `CanvasEffects`, `EditorStore`, `ImportProtocol`, `ImportDesk`):
  reachability, bounded undo and redo, copy and paste, what every editing session keeps, and an
  asynchronous import protocol under every interleaving of its answers.
* **The evidence judge of a release** (`ScenarioJudge`, `ScenarioProblems`, `Acceptance`, `AcceptanceReasons`,
  `AcceptanceLaws`, `AcceptedRun`, `Pcap`, `Dns`, `DnsNames`): the verdict PASS shown equivalent to the evidence it
  claims, every objection to its reason, and two bounded binary parsers shown to invert the writers of their formats.

`Common` and `Text` are the vocabulary they share. Code that changes things step by step is modelled by methods
and classes, each proved equal to a specification function of the old state and carrying the invariant that
goes with it: the broker's methods keep the handle table and the run's directory consistent, the store's keep
every canvas well-formed, the desk's keep the protocol's invariant. The laws are lemmas about those functions.
Where the code does less than its own documentation says, the model follows the code, a lemma shows an input
on which the documented property fails, and another says exactly when it holds:

* `write_output` asks whether a handle was wired to the node, not who created it
  (`BrokerSafety.WiredFileCanBeOverwritten`, `BrokerSafety.WriteIsContainedExactly`); saving and moving do not
  ask whether it was wired at all (`BrokerAnswers.SavesWhatItWasNeverGiven`).
* A folder granted around the run's own directory lets a node move a user's file there under the name its next
  scratch file will have, and write over it (`BrokerLossRuns.LosingRun`). Which bytes can be lost, and which
  never: `BrokerLossRuns.LossExactly`, `BrokerLoss.BytesSurvive`, `BrokerLoss.NoBytesAreLost`.
* Cleaning a file name twice is not cleaning it once (`Filenames.SanitiseTwice`,
  `Filenames.LongDeviceNameTwice`); when it is: `Filenames.SanitiseTwiceExactly`.
* An import that fails in the middle of a poll drops the events already collected in it
  (`WatcherRuns.FailedImportDropsOthers`, `WatcherRuns.DroppedUntilSeparated`); when a poll delivers:
  `WatcherRuns.DeliversExactly`.
* `write-temp` relabels a handle without the host's record, so the order of a chain matters
  (`ConvertLaws.WriteTempBreaksIt`, `ConvertClaims.OrderDecides`, `ConvertClaims.ClaimsKeptExactly`); `round`
  compares against 2^63, so a number that rounds to exactly that becomes 2^63 - 1
  (`ConvertRoundTrips.RoundsExactly`); `map` over an absent value is an error
  (`ConvertLaws.AbsenceSurvivesExactly`).
* The two address parsers part on a `+` before the port, on surrounding white space and on a second `://`
  (`UrlAgreement.TrailingSpaceDisagrees`, `UrlAgreement.PortBeforeSecondSeparator`,
  `UrlAgreement.ParsersAgreeExactly`).
* `descendants` is documented as not including its start, and does on a cycle (`Graph.CycleHoldsItsStart`,
  `Graph.StartIsDownstreamExactly`).
* Deleting a connection deletes every connection with its id, and ids are not one-to-one
  (`CanvasEffects.SpelledAlike`, `CanvasEffects.SameIdGoesTogether`); deleting a selection that is gone already
  still clears what could be redone (`CanvasEffects.DeletingWhatIsGone`).
* An import's late acknowledgement can close a newer report (`ImportProtocol.NewerReportCanBeClosed`); when it
  does: `ImportProtocol.NewerReportIsClosedExactly`.
* A scenario with two checks of one name can pass although the host heard one of them fail
  (`ScenarioJudge.NoFailLineExactly`); the judge's documentation asks for two cycles in full mode and its
  code finds them by name only (`AcceptanceLaws.ModeOfFullCyclesIsNotRead`, `AcceptedRun.SampleIsAccepted`).
* A capture cut exactly behind a record is accepted as a shorter one (`Pcap.CutBehindARecord`).
* A network grant is compared as text. A host that ends in a colon and another's port has that text too, so a
  bracketed literal and a shorter one with a port can share a grant (`UrlMeaning.BracketedHostsShareAGrant`);
  otherwise a grant means one host and one port (`UrlMeaning.OneGrantExactly`).

`dafny verify dfyconfig.toml` checks everything.

## Model

| member | source | states |
|---|---|---|
| FileSystem.CanonicalResolvesToItself | crates/encastra-core/src/broker.rs:924-935 | a path that is already canonical and leads to something resolves to itself, within the system's limit of forty links |
| FileSystem.FoldersStayPut | crates/encastra-core/src/broker.rs:419-534 | creating or removing files never changes where any folder path resolves to, links included: what was checked stays checked |
| FileSystem.MakeDirsMakes | crates/encastra-core/src/broker.rs:350-357 | making the run directory leaves it resolving, adds folders and nothing else, and changes nothing where it was there already |
| FileSystemLaws.WhatStandsThere | crates/encastra-core/src/broker.rs:247-606 | what reading, writing and removing do behind a folder and a name, for nothing, a file, a folder and a link there: the library's calls the broker makes |
| FileSystemLaws.MissingFoldersAreMade | crates/encastra-core/src/broker.rs:178-188 | where the first of some names is free in an existing folder, `create_dir_all` through all of them succeeds, and the disk afterwards is the disk before with a folder at each of them and nothing else |
| FileSystemLaws.NothingIsMade | crates/encastra-core/src/broker.rs:178-188 | where a file, or a link that leads nowhere, has the first name, nothing is made |
| FileSystemLaws.MadeExactly | crates/encastra-core/src/broker.rs:350-357 | for every path of names it succeeds if and only if the path leads to a folder already, or the part of it that leads anywhere leads to a folder and the next name is free there |
| FileSystemLaws.UpLeadsToParent | crates/encastra-core/src/broker.rs:924-935 | `..` behind a folder is the folder it lies in, links resolved first |
| FileSystemLaws.LinkLeadsToTarget | crates/encastra-core/src/broker.rs:924-935 | a link leads where its target leads, read from the root or from the folder the link lies in |
| FileSystemLaws.FortyLinksAtMost | crates/encastra-core/src/broker.rs:924-935 | a chain of links is followed to its end if and only if there are at most forty |
| Filenames.SanitisedIsOrdinary | crates/encastra-core/src/broker.rs:873-920 | whatever name is asked for, the cleaned one is a single non-empty component: no separator, colon or NUL, not `.` or `..`, no leading space, no trailing dot or space, and no device name |
| Filenames.SanitiseKeepsExactly | crates/encastra-core/src/broker.rs:873-898 | a name is left alone exactly when it already is such a name, is short enough and does not start with a dot |
| Filenames.SanitiseTwice | crates/encastra-core/src/broker.rs:873-898 | cleaning is not idempotent: `. .x` changes on the second cleaning too |
| Filenames.SanitiseTwiceExactly | crates/encastra-core/src/broker.rs:873-898 | and cleaning twice is cleaning once if and only if what the first pass keeps, before a device name is made harmless, neither starts with a dot nor is a device name of full length |
| Filenames.LongDeviceNameTwice | crates/encastra-core/src/broker.rs:887-898 | a device stem with an extension that fills the limit gains a character and loses its last one on the second pass |
| Filenames.ReservedExactly | crates/encastra-core/src/broker.rs:906-920 | a name is taken for a device exactly when what stands before its first dot, trailing spaces left out, is CON, PRN, AUX, NUL, or COM or LPT with one digit of any script, in any letters |
| Filenames.SettleKeepsAStretch | crates/encastra-core/src/broker.rs:873-885 | cleaning keeps one stretch of the permitted characters in their order; before it only dots and spaces are lost, behind it only those and what lies beyond 120 characters |
| Filenames.SanitiseGives | crates/encastra-core/src/broker.rs:873-898 | `output` when nothing is left of a name, an underscore and the stretch that is kept when that would be taken for a device, and otherwise that stretch; nothing is left of dots, spaces and dropped characters, and something is when a letter, digit, dash or underscore comes among the first 120 that stay |
| BrokerSafety.SaveEffect | crates/encastra-core/src/broker.rs:419-534 | a successful save added one file that was not there, under the cleaned name, in the resolved folder, inside a granted folder and outside every startup folder, holding exactly the handle's bytes |
| BrokerSafety.MoveEffect | crates/encastra-core/src/broker.rs:542-596 | a successful move removed the source's own entry from a granted folder, at another place than the copy, after the copy stood there with the same bytes |
| BrokerSafety.StepIsSafe | crates/encastra-core/src/broker.rs:279-596 | every single call keeps the run's invariant and changes nothing outside the run directory except in the two accounted ways |
| BrokerSafety.RunStaysConsistent | crates/encastra-core/src/broker.rs:163-412 | from a fresh broker, every run in which components write only to handles they created keeps: scratch handles below the next number, at their own names in a link-free run directory, which still resolves to the same place |
| BrokerSafety.EveryChangeIsAccountedFor | crates/encastra-core/src/broker.rs:378-606 | over every such run, each path outside the run directory that a call changes was created by a save into a granted, non-startup folder with the source's bytes, or removed by a move whose bytes already stand at a formerly free place; nothing present is overwritten |
| BrokerLoss.NoBytesAreLost | crates/encastra-core/src/broker.rs:378-606 | while nobody else changes the disk, and no node may move a file from a folder outside the run directory into it, the bytes of every file outside it still stand in some file outside it at the end of the run |
| BrokerLoss.ApartLeadsNowhereInside | crates/encastra-core/src/broker.rs:598-617 | nobody may when every folder granted for writing lies apart from the run directory |
| BrokerLoss.BytesSurvive | crates/encastra-core/src/broker.rs:378-606 | whatever is granted, in every such run that saves and moves nothing into the run directory itself, the bytes of every file that does not lie directly in it still stand in such a file |
| BrokerLoss.LossNeedsRoutes | crates/encastra-core/src/broker.rs:542-606 | a run can lose bytes only if from the folder of every file that holds them, but for those directly in the run directory, moves between folders granted for writing lead into the run directory itself |
| BrokerLossRuns.LossExactly | crates/encastra-core/src/broker.rs:340-606 | and exactly then: for a file outside the run directory some disciplined run with nobody else at the disk ends with its bytes nowhere if and only if every such folder has such a route |
| BrokerLossRuns.NoGrantNoLoss | crates/encastra-core/src/broker.rs:542-617 | so nothing is ever lost where no node may write into the run directory itself, whatever is granted around it or inside it |
| BrokerLossRuns.OneNodeIsEnough | crates/encastra-core/src/broker.rs:542-617 | and a file whose bytes stand nowhere else can be lost as soon as one node may take from its folder and write into the run directory |
| BrokerLossRuns.FourStepsOverwrite | crates/encastra-core/src/broker.rs:340-606 | importing, moving, creating and writing are enough for that: what the node wrote stands in place of what the file held |
| BrokerLossRuns.LosingRun | crates/encastra-core/src/broker.rs:340-606 | a concrete disk, grant and run of four steps after which no file holds the user's bytes |
| BrokerSafety.WriteIsContainedExactly | crates/encastra-core/src/broker.rs:378-412 | writing through a handle leaves everything outside the run directory alone, for all bytes, if and only if the node cannot reach it, or it leads nowhere, or its path resolves into the run directory |
| BrokerSafety.WiredFileCanBeOverwritten | crates/encastra-core/src/broker.rs:392-404 | a node with no grant at all can overwrite a user's file that the graph wired to it |
| BrokerHandles.NumbersAreForever | crates/encastra-core/src/broker.rs:194-225 | over every run handle numbers stay below the next one, are never issued twice and never change path or display name |
| BrokerHandles.KindIsTheLatest | crates/encastra-core/src/broker.rs:257-271 | over every run the recorded kind of a number is the one it was last reclassified as, or else the one it was issued with |
| BrokerHandles.ScratchNamesDiffer | crates/encastra-core/src/broker.rs:340-376 | scratch names of different numbers differ, whatever names follow the dash |
| BrokerHandles.ScratchFilesAreSeparate | crates/encastra-core/src/broker.rs:340-412 | in every reachable state two scratch handles stand at different paths and writing through one leaves what reads through the other unchanged |
| BrokerHandles.WriteThenOpen | crates/encastra-core/src/broker.rs:279-412 | what a node writes to its own scratch handle is what it then opens, if it declared reading at all |
| BrokerHandles.ReachableIffGiven | crates/encastra-core/src/broker.rs:220-225 | a node reaches a handle exactly when some step of the run wired it there or the node itself created it |
| BrokerHandles.OpensExactlyWhatItWasGiven | crates/encastra-core/src/broker.rs:279-334 | opening answers given bytes if and only if the node holds a read grant, was given the handle during the run, claims the recorded kind, and the file holds those bytes under the ceiling |
| BrokerReasons.OpenAnswers | crates/encastra-core/src/broker.rs:279-334 | each refusal of an open if and only if its condition holds and no earlier one does; otherwise the answer is the host's own read |
| BrokerReasons.WriteAnswers | crates/encastra-core/src/broker.rs:378-412 | the same for a write: unknown handle, a handle not wired to the node, else the bytes where the handle leads |
| BrokerReasons.CreateAnswers | crates/encastra-core/src/broker.rs:340-376 | creating succeeds if and only if no fault happens and the run directory is there or can be made, and then hands out the next number with the kind asked for |
| BrokerReasons.CreateMakesTheDirectory | crates/encastra-core/src/broker.rs:350-357 | in particular a run directory that has gone is made again under the folder that is left of its path |
| BrokerHandles.ImportsOnlyWhatLiesInside | crates/encastra-core/src/broker.rs:724-767 | a guarded import succeeds exactly when the path resolves to a file whose folder lies within a readable folder, and the handle then stands for that resolved file |
| BrokerReasons.ImportAnswers | crates/encastra-core/src/broker.rs:724-767 | and what it answers otherwise: not a file, or a file in a folder no read grant covers |
| BrokerReasons.ImportedIsRead | crates/encastra-core/src/broker.rs:194-255 | a path the host imports gets the next number, the kind given and its last name or `file-` and the number, and reading it is reading what stands there |
| BrokerReasons.HostReadExactly | crates/encastra-core/src/broker.rs:247-255 | the host reads given bytes through a handle if and only if its path leads to a file that holds them and they are within 512 MiB |
| BrokerHandles.SortingSorts | crates/encastra-core/src/broker.rs:641-717 | listings come in name order and hold exactly what was collected |
| BrokerHandles.NotAfterExactly | crates/encastra-core/src/broker.rs:700-717 | and name order is that of a dictionary: a name that starts the other, or has the smaller character where they first differ, comes first |
| BrokerHandles.CollectsAllOrRefuses | crates/encastra-core/src/broker.rs:641-717 | collecting under a ceiling yields every readable file, or refuses as soon as one file more than the ceiling is met; never a cut list |
| BrokerHandles.ListingIsCompleteOrRefused | crates/encastra-core/src/broker.rs:641-717 | in a readable folder a listing answers all its files in order, or is refused for being over the ceiling |
| BrokerReasons.ListAnswers | crates/encastra-core/src/broker.rs:641-717 | a listing is done if and only if the folder resolves, a read grant of the node's own covers it, the system reads it and it is not over the ceiling; a folder that is not there, one no grant covers, and one with too many files are refused for that reason, and a folder that cannot be read fails |
| BrokerReasons.ListsTheFiles | crates/encastra-core/src/broker.rs:667-717 | what is listed is every file whose metadata can be read, with that file's own name, size and time, at its place in the resolved folder |
| BrokerAudit.EveryCallPaysWhatItOwes | crates/encastra-core/src/broker.rs:279-869 | every call adds exactly the records it owes to its own node's journal and none to any other |
| BrokerAudit.WhatIsOwed | crates/encastra-core/src/broker.rs:832-869 | a refusal owes exactly one record carrying its reason; every other success owes at least one allowed record, except `write_output`, which owes none |
| BrokerAudit.RefusalsChangeNothing | crates/encastra-core/src/broker.rs:279-869 | a refused call changes nothing but the journal |
| BrokerAudit.NothingLostFromTheJournal | crates/encastra-core/src/broker.rs:232-234 | over every run, what `take_calls` handed over followed by what remains is the full sequence of decisions, nothing lost or repeated |
| BrokerAnswers.SavesExactly | crates/encastra-core/src/broker.rs:419-534 | without a system fault a save succeeds if and only if the handle leads to a readable file and the folder exists, is granted, is no startup folder and has the cleaned name free |
| BrokerReasons.SaveAnswers | crates/encastra-core/src/broker.rs:419-534 | what a save answers, reason by reason: each refusal if and only if its condition holds and no earlier one does, over what the node's own grants name, what stands in the folder and which startup folders contain it |
| BrokerAnswers.MovesExactly | crates/encastra-core/src/broker.rs:542-596 | a move succeeds if and only if that save does and the source's folder is granted too; without a fault it is never left incomplete |
| BrokerReasons.MoveAnswers | crates/encastra-core/src/broker.rs:542-596 | likewise for a move, whose own refusals come before any of the save's |
| BrokerReasons.IncompleteMoveKeepsBoth | crates/encastra-core/src/broker.rs:568-596 | a move reported as incomplete left the copy and the original both standing with the same bytes |
| BrokerAnswers.SavesWhatItWasNeverGiven | crates/encastra-core/src/broker.rs:419-596 | with nothing wired to anybody a node is refused the file behind a handle when it opens it, and saves or moves that file exactly when its write grants allow it |
| BrokerAnswers.OwnScratchIsWritable | crates/encastra-core/src/broker.rs:340-412 | at the end of any disciplined run a node can write to every handle it created, unless somebody put a folder in its place |
| BrokerAnswers.ReachesListedHosts | crates/encastra-core/src/broker.rs:771-796 | a host is allowed if and only if one of the node's own network grants lists it |
| BrokerAnswers.UsesWhatItWasGranted | crates/encastra-core/src/broker.rs:804-828 | clipboard and notifications are allowed if and only if the node holds that grant |
| BrokerReasons.AskAnswers | crates/encastra-core/src/broker.rs:781-828 | hosts, clipboard and notifications are refused, each for its own reason, exactly without the grant of that kind |
| BrokerAnswers.WithinGrantsExactly | crates/encastra-core/src/broker.rs:598-617 | a folder counts as writable, or readable, if and only if a grant of that kind of the node's own names an existing folder that contains it once links are resolved |
| BrokerAnswers.ForbiddenExactly | crates/encastra-core/src/broker.rs:975-999 | a folder is forbidden if and only if a configured startup folder that exists contains it |
| Broker.AdmittedIsDeclared | crates/encastra-core/src/broker.rs:62-83 | a grant follows from a manifest alone if and only if it is for input handles and the manifest declares its kind for input handles and nothing wider |
| Broker.AdmittedOneByOne | crates/encastra-core/src/broker.rs:58-69 | and there is one for each such entry, in the manifest's order |
| Broker.GrantSet.AllowDeclaredInputHandles | crates/encastra-core/src/broker.rs:62-83 | afterwards that node holds a grant of a kind if and only if it held one before or the manifest declares the kind for input handles; no other node's grants change, and every grant stays declared |
| Broker.GrantSet.Grant | crates/encastra-core/src/broker.rs:85-97 | adds exactly one grant to one node, unchecked |
| Broker.GrantSet.GrantDeclared | crates/encastra-core/src/broker.rs:106-118 | grants exactly when the manifest declares the kind, changes nothing otherwise, and keeps every grant declared |
| Broker.Broker.constructor | crates/encastra-core/src/broker.rs:180-187 | a new broker has no handles, no wiring, an empty journal and number one next |
| Broker.Broker.New | crates/encastra-core/src/broker.rs:178-188 | a broker over the disk with its directory, exactly when that is there or could be made; without a fault always when the directory is missing under an existing folder; nothing changed otherwise |
| Broker.Broker.TakeCalls | crates/encastra-core/src/broker.rs:232-234 | hands over and forgets that node's records; like every method here it keeps the run's invariant for whoever created what |
| Broker.Broker.ImportFile | crates/encastra-core/src/broker.rs:194-210 | issues the next number for the path as given, named by its last component |
| Broker.Broker.MakeReachable | crates/encastra-core/src/broker.rs:220-225 | wires one handle to one node |
| Broker.Broker.Reclassify | crates/encastra-core/src/broker.rs:263-271 | changes the recorded kind of a known handle and nothing else |
| Broker.Broker.HostRead | crates/encastra-core/src/broker.rs:247-255 | reads what the record points at, whatever kind is claimed |
| Broker.Broker.OpenInput | crates/encastra-core/src/broker.rs:279-334 | answers and journals as the state function does: grant, wiring, existence, kind, then the bounded read |
| Broker.Broker.CreateOutput | crates/encastra-core/src/broker.rs:340-376 | a fresh scratch handle, wired to its creator and journalled, after the run directory has been made again if it had gone, which without a fault succeeds whenever it is missing under an existing folder; the run's invariant is kept with the new handle its creator's |
| Broker.Broker.WriteOutput | crates/encastra-core/src/broker.rs:378-412 | refuses unknown and unwired handles, writes otherwise, and journals only refusals; keeps the run's invariant for a node that created the handle |
| Broker.Broker.SaveTo | crates/encastra-core/src/broker.rs:419-534 | the same refusals in the same order, and the same copy, as the state function the safety lemmas are about |
| Broker.Broker.MoveTo | crates/encastra-core/src/broker.rs:542-596 | both ends checked before anything is copied, copy before removal, and a failed removal reported as an incomplete move |
| Broker.Broker.ListDir | crates/encastra-core/src/broker.rs:641-717 | the loop over directory entries, with its grant check and its early refusal, computes the state function's listing, which `BrokerReasons.ListAnswers` tells from the grants |
| Broker.RefusedForGood | crates/encastra-core/src/broker.rs:641-717 | leaving the loop at the first file over the ceiling gives the same answer as reading on |
| Broker.Broker.ImportGuarded | crates/encastra-core/src/broker.rs:724-767 | canonicalises first, then checks and imports what was canonicalised |
| Broker.Broker.CheckHttp | crates/encastra-core/src/broker.rs:781-796 | allowed exactly for a host on the node's list, journalled either way |
| Broker.Broker.UseClipboard | crates/encastra-core/src/broker.rs:804-815 | allowed exactly with a grant, journalled either way |
| Broker.Broker.Notify | crates/encastra-core/src/broker.rs:817-828 | allowed exactly with a grant, journalled either way |
| Watcher.FolderWatcher.Poll | crates/encastra-builtins/src/triggers.rs:98-202 | one poll leaves the memory and gives the events of the poll function; none when the listing or an import failed |
| Watcher.FolderWatcher.VisitFile | crates/encastra-builtins/src/triggers.rs:155-198 | one file's look: skipped, still settling, handed over, or an import that failed |
| Watcher.FolderWatcher.SweepFiles | crates/encastra-builtins/src/triggers.rs:153-201 | the loop over present files, stopped by a failed import, is the sweep function |
| Watcher.FolderWatcher.MarkExisting | crates/encastra-builtins/src/triggers.rs:123-132 | the first listing marks what is already there |
| Watcher.SweepStopsAtFailure | crates/encastra-builtins/src/triggers.rs:188 | after a failed import nothing later in the listing is looked at |
| Watcher.WantedByExtension | crates/encastra-builtins/src/triggers.rs:134-143 | a file is looked at if and only if no extensions were asked for or what follows its last dot, in small letters, is one of them |
| WatcherRuns.AtMostOnce | crates/encastra-builtins/src/triggers.rs:98-202 | in every run, failed polls included, two polls that hand over one path with one time have between them a listing that lacks it or shows another time |
| WatcherRuns.HandsOverExactly | crates/encastra-builtins/src/triggers.rs:153-201 | what a poll collects, exactly: of the files the filtered listing shows, in its order, those that are due, up to the first that cannot be imported; one event for each, with the handle its own import gave |
| WatcherRuns.EachFileOnce | crates/encastra-builtins/src/triggers.rs:192-198 | so no path comes twice in one poll, every event is of a file that was due, and a poll in which no import failed has one for every file that was |
| WatcherRuns.HandOversAreSeparated | crates/encastra-builtins/src/triggers.rs:98-202 | and over a whole run any two events of one path with one time, counted one by one, are of different polls with such a listing between them |
| WatcherRuns.ExistingFilesAreNotNews | crates/encastra-builtins/src/triggers.rs:120-132 | with `existing` off the same holds for every file of the first listing, counted as already handed over |
| WatcherRuns.DroppedUntilSeparated | crates/encastra-builtins/src/triggers.rs:188-201 | events collected in a poll that ends in a failed import are not delivered, nor collected again until such a listing |
| WatcherRuns.FailedImportDropsOthers | crates/encastra-builtins/src/triggers.rs:188 | it does happen: two files settle together, the second fails, the first is lost |
| WatcherRuns.DeliversExactly | crates/encastra-builtins/src/triggers.rs:98-202 | a poll delivers what it collected if and only if the folder was listed and no shown file that is due fails to import |
| WatcherRuns.TablesAreDisjointAndCurrent | crates/encastra-builtins/src/triggers.rs:145-151 | after every poll that obtained a listing the two tables share no path and hold only paths in that filtered listing, failed imports included |
| WatcherRuns.OnlyWhenSettled | crates/encastra-builtins/src/triggers.rs:155-186 | a file is handed over only if the listing before showed the same size and time, provided no import failed in the poll of that listing, whatever failed before |
| WatcherRuns.HandedOverByTheThird | crates/encastra-builtins/src/triggers.rs:155-198 | a file shown unchanged in three listings in a row with imports that succeed has been handed over, or was marked already, by the third |
| WatcherRuns.NewFileComesAtSecondLook | crates/encastra-builtins/src/triggers.rs:163-186 | a file nothing was remembered about is handed over at its second unchanged look and not at its first |
| WatcherRuns.ChangedFileComesAtThirdLook | crates/encastra-builtins/src/triggers.rs:164-186 | a file that changes while it is being watched starts over one look behind a new one: it is handed over by the second listing after the one that shows the change, and not before |
| Convert.ConvertAll | crates/encastra-core/src/convert.rs:24-49 | the loop over operations, with `map` taking the rest of the chain into the list, computes the chain function on value and broker |
| Convert.ConvertEach | crates/encastra-core/src/convert.rs:40-46 | the loop over elements, left at the first failure, computes the element-by-element function |
| Convert.ConvertOne | crates/encastra-core/src/convert.rs:51-283 | one operation on value and broker, broker calls included |
| Convert.FailureEndsTheList | crates/encastra-core/src/convert.rs:42-45 | one failing element decides the list: nothing after it is converted |
| ConvertLaws.ChainsCompose | crates/encastra-core/src/convert.rs:24-49 | for a first part without `map`, converting by a joined chain is converting by the one and then the other, broker included |
| ConvertLaws.AbsenceSurvivesExactly | crates/encastra-core/src/convert.rs:30-62 | an absent value comes out absent exactly when the chain has neither `map` nor `unwrap-option`, fails otherwise, and the broker is untouched either way |
| ConvertLaws.ValueOnlyKeepsBroker | crates/encastra-core/src/convert.rs:51-283 | chains without the two broker operations leave the broker as it was |
| ConvertLaws.EachIsPointwise | crates/encastra-core/src/convert.rs:40-46 | converting a list succeeds exactly when every element converts, keeps its length, and each result is that element's own |
| ConvertLaws.MapIsPointwise | crates/encastra-core/src/convert.rs:30-47 | the same for a chain that starts with `map`, which fails on anything but a list |
| ConvertLaws.MapsFuse | crates/encastra-core/src/convert.rs:30-47 | mapping one chain and then another succeeds exactly when mapping both joined does, with the same value |
| ConvertLaws.ConversionKeepsKindsHonest | crates/encastra-core/src/convert.rs:233-258 | without `write-temp`, a value whose handles all claim the host's recorded kind converts to one whose handles all do afterwards, however lists nest and handles repeat |
| ConvertClaims.ClaimsKeptExactly | crates/encastra-core/src/convert.rs:24-283 | for every chain that succeeds on every such value: the claims are still right if and only if there is no handle, or the last of `read-bytes`, `decode-image` and `write-temp` in it is not `write-temp`, or neither of the first two is in it and every handle was a file already |
| ConvertClaims.OrderDecides | crates/encastra-core/src/convert.rs:230-266 | so the order decides: converting by `read-bytes` or `decode-image` and then `write-temp` makes every handle's claim wrong, converting by the two the other way round makes it right, and both succeed exactly when the first of the two does alone |
| ConvertLaws.WriteTempBreaksIt | crates/encastra-core/src/convert.rs:260-266 | alone it always succeeds on a handle, and the claim is right exactly when the handle was a file already |
| ConvertContent.ReadBytesCopies | crates/encastra-core/src/convert.rs:230-241 | `read-bytes` answers a new handle of the node's own behind which stands exactly what the host read through the old one |
| ConvertContent.ReadBytesAnswers | crates/encastra-core/src/convert.rs:246-258 | otherwise it answers the host's own failure, or a failed write when no scratch file can be made, with the broker as it was |
| ConvertContent.CopyStaysIssued | crates/encastra-core/src/convert.rs:246-258 | once the scratch file is made its number stays issued, under the name `content.bin`, whether or not the bytes could be written |
| ConvertContent.NarrowsOnce | crates/encastra-core/src/convert.rs:243-258 | `decode-image` succeeds if and only if the content is an image, touches nothing but the kinds on record, and doing it twice is doing it once |
| ConvertContent.NarrowAnswers | crates/encastra-core/src/convert.rs:260-276 | otherwise it answers the host's own failure or that this is no image, with the broker as it was |
| ConvertContent.BoolSurvivesInt | crates/encastra-core/src/convert.rs:102-110 | true is one, and every integer but zero is true |
| ConvertRoundTrips.IntSurvivesText | crates/encastra-core/src/convert.rs:77-140 | every 64-bit integer printed and parsed is itself |
| ConvertRoundTrips.BoolSurvivesText | crates/encastra-core/src/convert.rs:77-168 | every boolean printed and parsed is itself |
| ConvertRoundTrips.NearestIsNearest | crates/encastra-core/src/convert.rs:120 | rounding is to the nearest integer, halves away from zero |
| ConvertRoundTrips.IntSurvivesFloat | crates/encastra-core/src/convert.rs:85-130 | to a float succeeds exactly up to 2^53 in size, and rounding that float gives the integer back |
| ConvertRoundTrips.RoundsExactly | crates/encastra-core/src/convert.rs:114-129 | rounding succeeds on exactly the finite numbers less than a half beyond 2^63 in size, never on infinities or NaN, and gives the nearest integer, or 2^63 - 1 for what rounds to 2^63 |
| ConvertRoundTrips.JsonRoundTripExactly | crates/encastra-core/src/convert.rs:189-232 | encoding to JSON and decoding is the identity exactly on booleans, integers, text, finite floats and absence, and fails on every other value |
| ConvertReadings.ParseBoolExactly | crates/encastra-core/src/convert.rs:148-166 | `parse-bool` gives true of exactly true, yes, 1 and on, false of exactly false, no, 0 and off, in any letters and with any white space around them, and fails on every other text |
| ConvertReadings.TwoWaysFromIntToBool | crates/encastra-core/src/convert.rs:112-166 | through text and back 0 and 1 become what `int-to-bool` makes of them; for every other integer the way through text fails and `int-to-bool` says true |
| ConvertReadings.ParseIntExactly | crates/encastra-core/src/convert.rs:138-146 | `parse-int` gives an integer if and only if it is an i64 and the text, white space left out, writes it: a sign that suits it or none, zeros, and its numeral |
| ConvertReadings.CoreIsTrimmed | crates/encastra-core/src/convert.rs:138-166 | every text holds exactly one core between white space, and trimming finds it |
| ConvertReadings.LibraryReads | crates/encastra-core/src/convert.rs:77-185 | a float is read from the core of a text, JSON from the text as it stands, and text stays as it is |
| ConvertReadings.EncodesExactly | crates/encastra-core/src/convert.rs:205-211 | encoding finds exactly the JSON that is the same scalar, and `null` for a float that is no number; everything else fails |
| ConvertReadings.DecodesExactly | crates/encastra-core/src/convert.rs:213-244 | decoding finds exactly the value that is the same scalar, the nearest float for an integer beyond the range; `null`, lists and objects fail |
| ConvertReadings.WrongKindIsRefused | crates/encastra-core/src/convert.rs:28-75 | a chain that starts with an operation not meant for its value fails there, with the broker as it was, whatever follows; what has not shipped says so |
| UrlAuthority.ReadingsAgree | crates/encastra-builtins/src/net.rs:276-316 | on one authority text the two parsers give the same answer, refusals included, if and only if no `+` starts an otherwise good port |
| UrlAgreement.ParsersAgreeExactly | apps/desktop/src/url.ts:27-66 | on every ASCII address without exception the editor's host is the runtime's permission authority, empty exactly where the runtime refuses, if and only if: with white space in front, the rest has no `://`, another scheme or refused authority text; with a second separator at the authority's last colon, a name has no colon before it or a port written as it would be printed, and a bracket no port or refused text; with white space behind, the text before it is in brackets without a port, or refused and not empty; and otherwise no `+` starts the port |
| UrlAgreement.RefusedExactly | apps/desktop/src/url.ts:36-66 | refused authority text is none, credentials, an unclosed bracket, a host of dots only, or a port that is no number up to 65535: exactly what the editor asks nothing about |
| UrlAgreement.LeadingSpaceExactly | apps/desktop/src/url.ts:28 | with any white space in front they agree if and only if the rest has no `://`, another scheme or refused authority text |
| UrlAgreement.OrdinaryAddressesAgreeExactly | apps/desktop/src/url.ts:27-66 | with no surrounding white space and at most one separator only the `+` is left |
| UrlAuthority.AuthorityIsNotEmpty | crates/encastra-builtins/src/net.rs:237-242 | the runtime never grants against an empty authority, so the editor's empty answer is unambiguous |
| UrlAgreement.LeadingSpaceRefused | apps/desktop/src/url.ts:28 | with any white space in front the runtime refuses |
| UrlAgreement.WhatTheEditorSkips | apps/desktop/src/url.ts:1-60 | six characters of ASCII white space in front of an address the editor does not see; any other character makes it another scheme |
| UrlAgreement.TrailingSpaceDisagrees | apps/desktop/src/url.ts:28 | an address that ends in white space behind a bare host: they disagree on it |
| UrlAgreement.TrailingSpaceBehindBracketAgrees | apps/desktop/src/url.ts:28 | behind a closing bracket it does no harm |
| UrlAgreement.PortBeforeSecondSeparator | apps/desktop/src/url.ts:28-31 | an address with a port right before a second separator: they agree on it if and only if the port is written as it would be printed and not the scheme's own, and the host has no dot at its end |
| UrlAgreement.EmptyPortBeforeSecondSeparator | apps/desktop/src/url.ts:28-31 | and with an empty port there they never agree |
| UrlMeaning.AddressMeansItsParts | crates/encastra-builtins/src/net.rs:251-317 | a scheme in any letters, a name or bracketed literal, a port or none and any path, query or fragment put together (section 3.2 of RFC 3986) are read as exactly those parts, 443 and 80 being the schemes' own ports; refused if and only if the port is beyond 65535 |
| UrlMeaning.OnlyTrailingDotsGo | crates/encastra-builtins/src/net.rs:297-299 | only dots at the end of a host are dropped, and all of them |
| UrlMeaning.ReadsExactly | crates/encastra-builtins/src/net.rs:251-317 | on every address: it is read as given parts if and only if it is put together from one of the two schemes in any letters, an authority without user information that splits into a host and a port text meaning them, and a path, query, fragment or nothing; every other address is refused |
| UrlMeaning.PermissionIsUsable | crates/encastra-builtins/tests/url_authority.rs:100-115 | for every address the text a permission is compared by is not empty, is in small letters and carries no path, query, fragment or user information |
| UrlMeaning.OneGrantExactly | crates/encastra-builtins/src/net.rs:232-242 | two addresses have one such text if and only if host and port agree, or one host ends in a colon and the other's port |
| UrlMeaning.PlainGrantIsExact | crates/encastra-builtins/src/net.rs:232-242 | so for hosts without a colon a grant means one host and one port |
| UrlMeaning.BracketedHostsShareAGrant | crates/encastra-builtins/src/net.rs:272-317 | and the other case happens: a bracketed literal with a port, and the literal that port would make, are two addresses with one grant |
| Graph.Expand | crates/encastra-core/src/graph.rs:191-195 | one node's edges followed: exactly what it feeds has been seen besides, and exactly the newly seen nodes are waiting besides |
| Graph.Descendants | crates/encastra-core/src/graph.rs:188-199 | stops on every graph, cycles included, and holds exactly the nodes at the end of a path of one edge or more |
| Graph.StartIsDownstreamExactly | crates/encastra-core/src/graph.rs:184-199 | the start is among them exactly when it feeds itself or something that leads back to it |
| Graph.CycleHoldsItsStart | crates/encastra-core/src/graph.rs:184-199 | of two nodes that feed each other both are descendants of either, the one asked about included |
| Graph.NothingOutsideDependsOnIt | crates/encastra-core/src/graph.rs:184-199 | a node that is not marked skipped takes nothing from the failed node or from a skipped one |
| History.EverythingReachableIsWithinLimit | apps/desktop/src/history.ts:40-76 | in every history reached from the empty one past and future together hold at most a hundred, so undo and redo never drop anything |
| History.UndoThenRedo | apps/desktop/src/history.ts:48-76 | redo takes back an undo: canvas and history are as they were |
| History.RedoThenUndo | apps/desktop/src/history.ts:48-76 | undo takes back a redo |
| History.UndoneBy | apps/desktop/src/history.ts:48-61 | after k undos the canvas is the k-th latest snapshot, and past and future are split there |
| History.UndosThenRedos | apps/desktop/src/history.ts:48-76 | k undos and k redos restore canvas and history |
| History.PastOfEdits | apps/desktop/src/history.ts:40-46 | after any edits the past is the latest hundred of what was recorded, in order |
| History.UndoReachesBack | apps/desktop/src/history.ts:40-61 | after n edits the k-th undo, up to the smaller of n and a hundred, shows the canvas before the k-th latest edit |
| History.UndoGivesOut | apps/desktop/src/history.ts:40-46 | and exactly that many undos are possible |
| Clipboard.FindFree | apps/desktop/src/history.ts:104-109 | the search for a free name stops for every finite set of taken names and finds the first free candidate |
| Clipboard.PasteInto | apps/desktop/src/history.ts:97-135 | the two loops of a paste compute the paste function and report the new names in order |
| Clipboard.RenamingIsInjective | apps/desktop/src/history.ts:102-112 | the renaming covers the clipboard, is one-to-one and leads only to names not on the canvas |
| Clipboard.PastedNodesAreCopies | apps/desktop/src/history.ts:114-120 | pasted nodes are the clipboard's one for one, 32 to the right and below, with the same data, distinct ids and none on the canvas |
| Clipboard.PastedEdgesAreCopies | apps/desktop/src/history.ts:122-132 | pasted edges are the clipboard's one for one under the renaming; none touches an original node |
| Clipboard.NamedInTurn | apps/desktop/src/history.ts:97-112 | each copy is named after its original: `-copy`, or `-copy` and the first number from two on, such that nothing on the canvas and neither the old nor the new name of a node before it is called so |
| Canvas.ActKeepsWellFormed | apps/desktop/src/store.ts:412-540 | every action keeps node ids distinct, every edge's ends present and one edge per input, on the canvas, on every snapshot in past and future, and on the clipboard |
| Canvas.ActKeeps | apps/desktop/src/store.ts:412-540 | and every action keeps the history within its limit |
| Canvas.PasteKeeps | apps/desktop/src/store.ts:1138-1150 | in particular a paste, whatever the clipboard was cut from and whatever was deleted since |
| Canvas.EverySessionStaysWellFormed | apps/desktop/src/store.ts:1104-1155 | so every session of connecting between present nodes, deleting, copying, pasting, duplicating, undoing and redoing does |
| Canvas.HistoryStaysWithinLimit | apps/desktop/src/store.ts:1104-1128 | and its history stays within the limit |
| Canvas.UndoTakesBackAnEdit | apps/desktop/src/store.ts:1104-1128 | in every session undoing an edit that recorded restores nodes and edges, and redoing it restores the editor |
| CanvasEffects.ConnectReplaces | apps/desktop/src/store.ts:526-540 | connecting adds the wire asked for behind the others, takes away exactly what fed that input before, and leaves order, nodes, selection and clipboard alone |
| CanvasEffects.DeletionTakesExactly | apps/desktop/src/store.ts:446-461 | deleting takes away exactly the named steps and the edges at them, keeps the order of the rest, unselects what was selected only if it was named, and does nothing when none is on the canvas |
| CanvasEffects.DeleteSelectedTakesTheSelected | apps/desktop/src/store.ts:412-424 | deleting the selection takes away exactly that step and the edges at it, leaves nothing selected and records the canvas before it, whether or not the step is still there |
| CanvasEffects.DeletingWhatIsGone | apps/desktop/src/store.ts:412-424 | where it is gone already nodes and edges stay as they are, and an undo is spent on nothing |
| CanvasEffects.DeleteConnectionTakesExactly | apps/desktop/src/store.ts:481-491 | deleting a connection takes away every edge with that id and nothing else |
| CanvasEffects.SameWireIdExactly | apps/desktop/src/store.ts:526-540 | two connections have one id if and only if their parts, written one behind the other, read the same |
| CanvasEffects.SameIdGoesTogether | apps/desktop/src/store.ts:481-540 | of two connections to different inputs, deleting one deletes the other too if and only if they read the same |
| CanvasEffects.SpelledAlike | apps/desktop/src/store.ts:481-540 | and such connections exist |
| CanvasEffects.CopyTakesExactly | apps/desktop/src/history.ts:84-89 | the clipboard holds exactly the chosen nodes, marked or open for editing, and the edges with both ends among them, as often and in the order the canvas does; with nothing chosen it stays as it was |
| CanvasEffects.PasteAdds | apps/desktop/src/store.ts:1138-1150 | pasting adds the copies behind what was there and leaves exactly them selected |
| CanvasEffects.AddedThenTaken | apps/desktop/src/store.ts:336-384 | a step that was just added is all that copying takes, and deleting the selection gives back the canvas before it with nothing marked |
| CanvasEffects.EditsRecordWhatWasThere | apps/desktop/src/store.ts:412-540 | every edit that did something put the canvas before it on top of the past and emptied the future |
| CanvasEffects.AddingAppends | apps/desktop/src/store.ts:336-384 | a new node stands behind the others, alone marked and selected, and undoing takes it away |
| CanvasEffects.ConfiguringTouchesOne | apps/desktop/src/store.ts:390-400 | a change of settings reaches the nodes of that name and nothing else, and undo passes over it |
| CanvasEffects.LoadingStartsOver | apps/desktop/src/store.ts:1341-1385 | loading forgets the history and the selection and keeps the clipboard |
| CanvasEffects.SelectingOnlySelects | apps/desktop/src/store.ts:386-388 | selecting one or all changes what is chosen to exactly that, and nothing else |
| CanvasEffects.UndoTouchesNodesAndEdges | apps/desktop/src/store.ts:1104-1128 | undo and redo put back nodes and edges, leave selection and clipboard alone, and do nothing when there is nothing to take back |
| EditorStore.Store.Connect | apps/desktop/src/store.ts:526-540 | the store's own step is the canvas action: the old wire into that input is replaced; like every method here it keeps all canvases well-formed and the history within its limit |
| EditorStore.Store.DeleteSelected | apps/desktop/src/store.ts:412-424 | likewise, with the edges at the deleted node |
| EditorStore.Store.DeleteSteps | apps/desktop/src/store.ts:446-461 | likewise, for several nodes |
| EditorStore.Store.DeleteStep | apps/desktop/src/store.ts:431-444 | likewise, for one |
| EditorStore.Store.DeleteConnection | apps/desktop/src/store.ts:481-491 | likewise, for one edge |
| EditorStore.Store.Undo | apps/desktop/src/store.ts:1104-1115 | likewise, from the history |
| EditorStore.Store.Redo | apps/desktop/src/store.ts:1117-1128 | likewise, from the history |
| EditorStore.Store.CopySelection | apps/desktop/src/store.ts:1130-1136 | likewise, into the clipboard |
| EditorStore.Store.PasteClipboard | apps/desktop/src/store.ts:1138-1150 | likewise, out of it |
| EditorStore.Store.DuplicateSelection | apps/desktop/src/store.ts:1152-1155 | likewise, one after the other |
| EditorStore.Store.AddNode | apps/desktop/src/store.ts:336-384 | likewise, under a new id, selected alone |
| ImportProtocol.ControlsMatchTheMachine | apps/desktop/src/import-machine.ts:138-206 | a control is enabled exactly when its press would change the machine |
| ImportProtocol.AnswersMoveTheirStage | apps/desktop/src/import-machine.ts:81-130 | each answer moves the machine from the one stage it answers and to one place, and is ignored everywhere else; the same event twice is the same as once |
| ImportProtocol.DialogExactly | apps/desktop/src/import-machine.ts:151-170 | at every reachable desk the dialog is open exactly while a publication is read or written, its report waits, or something failed |
| ImportProtocol.ReachableDesksAreInOrder | apps/desktop/src/store.ts:884-966 | under every order of presses and answers the machine is busy at a stage exactly when one task awaits that stage, and imports follow inspections |
| ImportProtocol.OwnersAnswerAlwaysCounts | apps/desktop/src/store.ts:905-966 | the answer to a task at work is never ignored: it moves the machine to where that answer leads |
| ImportProtocol.OneImportAtATime | apps/desktop/src/store.ts:937-966 | at most one publication is being written, and the machine says so |
| ImportProtocol.EveryImportWasInspected | apps/desktop/src/store.ts:937-943 | every import was called on the folder whose successful inspection came right before it |
| ImportProtocol.NothingInterruptsWork | apps/desktop/src/import-machine.ts:81-130 | while work is under way, close, import and confirm change nothing |
| ImportProtocol.ImportedStaysExactly | apps/desktop/src/store.ts:884-966 | an imported publication stays on screen exactly until Import or Close is pressed or a listing arrives, so the acknowledgement finds its own import whenever none of these came between |
| ImportProtocol.NewerReportIsClosedExactly | apps/desktop/src/store.ts:884-966 | whatever happens between an import and its acknowledgement, the acknowledgement closes a report if and only if the last inspection's answer, press of Import, Confirm or Close, or other acknowledgement in between was an inspection's answer, and it is that newer report |
| ImportProtocol.ReportIsShownExactly | apps/desktop/src/store.ts:884-966 | and from every desk in order, whose report is on screen is told by the last of these |
| ImportProtocol.NewerReportCanBeClosed | apps/desktop/src/store.ts:946-960 | and a reachable desk where that is a newer inspection being read |
| ImportDesk.Store.BeginImport | apps/desktop/src/store.ts:905-916 | a press starts a task exactly when the machine is not busy; like every action here it keeps the protocol's invariant |
| ImportDesk.Store.FolderChosen | apps/desktop/src/store.ts:918-929 | dismissed, or on to the inspection of that folder |
| ImportDesk.Store.PublicationInspected | apps/desktop/src/store.ts:929-931 | settles with the report of the folder that was inspected |
| ImportDesk.Store.ConfirmImport | apps/desktop/src/store.ts:937-944 | imports the inspected folder exactly when one is shown |
| ImportDesk.Store.PublicationImported | apps/desktop/src/store.ts:944-946 | shows the entry and asks for the library |
| ImportDesk.Store.LibraryListed | apps/desktop/src/store.ts:946-961 | acknowledges whatever is shown by then |
| ImportDesk.Store.Rejected | apps/desktop/src/store.ts:932-965 | settles with the failure |
| ImportDesk.Store.CloseImport | apps/desktop/src/store.ts:884-893 | closes exactly what is settled |
| ImportDesk.Store.SettleImport | apps/desktop/src/store.ts:1439-1446 | the machine moves and the task is over |
| ScenarioJudge.ParseSerial | scripts/cleanvm/report.py:180-191 | for every scenario, all assertions heard in order, and the latest RESULT line |
| ScenarioJudge.JudgeScenario | scripts/cleanvm/report.py:558-605 | the accumulating judge computes the verdict and the list of problems the lemmas are about |
| ScenarioJudge.PassExactly | scripts/cleanvm/report.py:558-605 | PASS if and only if there are checks, all ok and each heard as PASS, the counts and the RESULT line agree, nothing was forced, every required fragment is covered, the artefact is the expected one and no log or kept profile objects |
| ScenarioJudge.BlockedExactly | scripts/cleanvm/report.py:558-605 | BLOCKED if and only if the record was forced, says so itself and no check failed |
| ScenarioJudge.SerialIsExactlyTheChecks | scripts/cleanvm/report.py:573-582 | a passing scenario whose checks have different names was heard as exactly those checks, each once, with no FAIL |
| ScenarioJudge.SameNameHidesAFailure | scripts/cleanvm/report.py:573-582 | two checks of one name: a serial line with a FAIL that still passes |
| ScenarioJudge.NoFailLineExactly | scripts/cleanvm/report.py:573-582 | so PASS rules out a FAIL line if and only if the checks' names are different |
| ScenarioProblems.HeardExactly | scripts/cleanvm/report.py:180-191 | what counts as said about a scenario is its assertion lines, all of them and in their order |
| ScenarioProblems.LatestSummary | scripts/cleanvm/report.py:180-191 | and its summary is the latest RESULT line about it |
| ScenarioProblems.RecordObjections | scripts/cleanvm/report.py:558-572 | the objections to a record are exactly these: another result than the checks come to, each failed check, being forced, having no checks |
| ScenarioProblems.ChannelObjections | scripts/cleanvm/report.py:573-590 | to what was heard: each check not heard as it was recorded, another number of checks, a summary that differs, no summary |
| ScenarioProblems.RuleObjections | scripts/cleanvm/report.py:558-605 | by the judge's rules: each required fragment that stands in no check's name, another artefact, what the logs and, for two scenarios, the kept profile turned up |
| ScenarioProblems.ObjectionsCounted | scripts/cleanvm/report.py:558-605 | and none is made twice |
| ScenarioProblems.JudgedExactly | scripts/cleanvm/report.py:558-605 | PASS for no objection and checks that come to it, BLOCKED for checks that come to that, FAIL for everything else |
| Acceptance.FindStains | scripts/cleanvm/report.py:669-689 | a cycle may count exactly when it is a published build with a committed harness, no fault, and journeys at least three times with a hundred passes; what is reported against it is each reason that holds, once and in order |
| Acceptance.ManyMeansDifferent | scripts/cleanvm/report.py:792-799 | counting more than one key is finding two cycles that differ |
| Acceptance.FindComplaints | scripts/cleanvm/report.py:787-834 | no complaint exactly when there is at most one upgrade cycle, all cycles are one run of one well-identified installer, and every full or upgrade cycle is unblemished; and every complaint made is one of these that holds |
| Acceptance.Require | scripts/cleanvm/report.py:819-831 | fills one row of the matrix, showing no PASS from a cycle that cannot count |
| Acceptance.FindDifferences | scripts/cleanvm/report.py:836-847 | no difference exactly when both cycles exist on one named base, in different directories, with B matching everything in A's fingerprint; and every difference reported is one of these that holds |
| Acceptance.CheckNegative | scripts/cleanvm/report.py:850-875 | good exactly when the cycle carried a fault, failed where it had to with each complaint it had to, did not run what it must not, finished, and had no route out |
| Acceptance.FillMatrix | scripts/cleanvm/report.py:819-877 | a cell for every scenario each cycle needs, showing what that cycle proves of it, one for repeatability and one for the faults, with what each of them shows; every cell passes exactly when all three rows, repeatability and the faults do |
| Acceptance.RowOfPasses | scripts/cleanvm/report.py:819-828 | a row of PASS is the evidence itself for every scenario in it, in a cycle with no problems |
| Acceptance.JudgeRun | scripts/cleanvm/report.py:760-878 | CLEAN_VM_ACCEPTANCE is PASS if and only if everything it claims holds of the records and serial lines themselves; the matrix and the complaints beside it are those of the same cycles |
| AcceptanceReasons.NotAcceptedExactly | scripts/cleanvm/report.py:760-878 | a run is not accepted exactly for a complaint, a needed scenario that does not show PASS, B differing from A, no fault tried, or a fault unseen |
| AcceptanceReasons.FaultMissedExactly | scripts/cleanvm/report.py:850-875 | a fault goes unseen exactly when its cycle is missing, carried none, did not fail where and with the complaint it had to, ran what it must not, did not finish or had a route out |
| AcceptanceReasons.CellExactly | scripts/cleanvm/report.py:819-828 | a cell shows PASS when the checks come to it and nothing is held against scenario or cycle, BLOCKED when the checks come to that, FAIL otherwise |
| AcceptanceReasons.FullCycleNeeds | scripts/cleanvm/report.py:69-70 | a full cycle needs scenarios 1 to 13 but the eleventh, and that nothing was contaminated |
| AcceptanceReasons.TheLastOfANameCounts | scripts/cleanvm/report.py:770 | of several cycles of one name the last counts |
| AcceptanceReasons.TheSubjectIs | scripts/cleanvm/report.py:793 | what is judged as the subject is the last A, the last B and the first upgrade cycle |
| AcceptanceReasons.Sha256Exactly | scripts/cleanvm/report.py:735 | a digest is sixty-four lower-case hex digits, and one line feed may follow |
| AcceptanceLaws.AcceptedRunsWereHeardToPass | scripts/cleanvm/report.py:760-878 | in an accepted run, each scenario it rests on has checks, a clean cycle, and, names differing, not one FAIL line |
| AcceptanceLaws.FaultsNeverCount | scripts/cleanvm/report.py:819-875 | no cycle that serves as a fault's evidence also serves as a passing one |
| AcceptanceLaws.ModeOfFullCyclesIsNotRead | scripts/cleanvm/report.py:775-830 | a run is accepted if and only if it is accepted with its full cycles claiming any other mode but upgrade and nothing is held against a cycle that said full |
| AcceptedRun.SampleIsAccepted | scripts/cleanvm/report.py:760-878 | under every set of rules some run is accepted, and it is accepted still when its full cycles claim another mode |
| Pcap.ReadPcap | scripts/cleanvm/report.py:297-320 | the loop over records computes the reading function, flaws and their positions included |
| Pcap.ReadInvertsWrite | scripts/cleanvm/report.py:297-320 | whatever is written in either byte order is read back: all frames, whole and in order, and sixteen bits of link type |
| Pcap.AcceptsExactlyWhatIsWritten | scripts/cleanvm/report.py:297-320 | nothing else is accepted |
| Pcap.CutBehindARecord | scripts/cleanvm/report.py:297-320 | a capture cut behind a record reads as the records before the cut |
| Pcap.CutElsewhere | scripts/cleanvm/report.py:300-304 | a capture cut anywhere else, in the preamble, a header or a frame, is refused |
| Pcap.RefusedExactly | scripts/cleanvm/report.py:297-320 | on every file: it is refused for being shorter than a preamble, for none of the four magic numbers, or for a record header cut short or a record longer than what is left, at exactly the place where whole records end |
| Pcap.OrdersAndMagic | scripts/cleanvm/report.py:297-305 | what four bytes are worth in either order, and the two magic numbers |
| Dns.DnsName | scripts/cleanvm/report.py:323-347 | the loop of 128 places computes the reading function on every buffer and every pointer graph |
| Dns.ReadsEncodedNames | scripts/cleanvm/report.py:323-347 | a name encoded with at most 127 labels and pointers (section 4.1.4 of RFC 1035) is read as its labels joined by dots, ending behind its zero byte or first pointer |
| Dns.ReadableExactly | scripts/cleanvm/report.py:323-347 | a name is returned if and only if one is so encoded there |
| Dns.LoopsAreRefused | scripts/cleanvm/report.py:323-347 | nothing is read anywhere on a loop of labels and pointers |
| Dns.ReadInvertsWrite | scripts/cleanvm/report.py:323-347 | up to 127 printable labels written anywhere in a message are read back as themselves |
| Dns.TooManyLabelsAreRefused | scripts/cleanvm/report.py:327 | a name of more labels is refused |
| DnsNames.ReadsCompressedNames | scripts/cleanvm/report.py:323-347 | labels and then a pointer to a name anywhere in the message are read as those labels and that name's, and the message goes on two bytes behind the labels |
| DnsNames.StepsAreCounted | scripts/cleanvm/report.py:327 | what is encoded in at most 127 labels and pointers is read, and what takes 128 is not |
| DnsNames.ByteShown | scripts/cleanvm/report.py:336-340 | a byte is shown as itself from `!` to `~`, and otherwise as `\x` and two hex digits that stand for it |
| DnsNames.LabelsArePieces | scripts/cleanvm/report.py:323-347 | labels without dots are what stands between the dots of the name |
| DnsNames.PointerMeans | scripts/cleanvm/report.py:331-335 | a pointer is two bytes with the two high bits set, and leads where the other fourteen say |
| DnsNames.QuestionsAreCounted | scripts/cleanvm/report.py:350-362 | as many questions are looked at as the header counts, up to 64 |
| Dns.DnsQuestionNames | scripts/cleanvm/report.py:350-362 | the loop over questions, at most 64, computes the names function |
| Dns.EveryQuestionIsNamed | scripts/cleanvm/report.py:350-362 | a readable question section gives back every name, in order |
| Dns.OnlyQuestionsAreNamed | scripts/cleanvm/report.py:350-362 | and what is given back is always the longest section that can be read |

## Left out

- Time of check and time of use: a call's checks and its act are one step here; the rest of the machine changes the disk only between calls, and leaves the run's own directory alone.
- Operating system faults: each is a boolean handed to the call; a copy, a removal or the making of the run directory either happens whole or does nothing.
- The filesystem walk is POSIX's, with absolute paths and forty links; Windows paths and relative paths are not modelled.
- The width of `next_handle` (64 bits): numbers here do not wrap.
- Choosing grants (`resolve_grant_directory`, `sensitive_roots`), clocks in the journal and the wording of messages: reasons and details are values of a datatype.
- Unicode tables: which characters are alphanumeric is a parameter that must exclude separators and control characters; the file name's trimming is of spaces, the only white space it lets through.
- BrokerLossRuns.LossExactly: on a disk of fewer than 2^64 entries, because a number in a file's name has to fit the 120 characters a name may have.
- Watcher configuration text (folder, the splitting of the extension list), the kind guessed from a name and the timer trigger: the list of wanted extensions, the listing and the imports that succeed are inputs of a poll.
- Floats are NaN, an infinity or a real: negative zero and rounding of results are not modelled; printing and parsing of floats, JSON text and images are uninterpreted.
- Addresses are ASCII; sending requests is not modelled.
- Canvas.Connect: the library's `addEdge` is taken to append one edge with the identity of its ends; drags, node measurement, configuration panels beyond one edit, grants and messages of the store are not modelled.
- Canvas.AddNode: takes the id `makeId` returns to be new, which the counter restarting each session does not guarantee.
- ImportProtocol.Transition: the store's `busy` flag, messages and the listed library beside the machine are not modelled; listing the library never rejects.
- ImportProtocol.NewerReportCanBeClosed: whether closing a newer report loses work a person wanted is not modelled.
- ScenarioJudge.ParseSerial: takes each line already told apart by the two patterns.
- ScenarioJudge.JudgeScenario: takes what re-reading the journeys logs and counting rows in the kept profile turned up as lists of problems, and the table of required fragments as a parameter.
- Acceptance.JudgeRun: takes each cycle loaded, with the problems found in its command line, capture, hashes and serial identity as a list; the subject, identities and summary written beside the verdict are not modelled.
- The frame headers between a capture and its DNS messages, and the rule on names in them.
- Project files, publishing, validation, the runner, sessions, release scripts and the interface's rendering.
