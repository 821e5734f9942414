# ARPANET reconstruction: a verified model of its protocols, parsers and reducers

This project models the part of the laboratory that everything else trusts: the crash-consistent
store of guest disks, the reducers that turn direct evidence into conclusions, the parsers of
simulator traces, and the append-only recorders with their readers. The model is written in
Dafny 4.11 and checked with `dafny verify dfyconfig.toml`.

## How it is laid out

- **Workspace generations.** `GuestDisk` says what is on disk and what a power failure may leave of
  it; `WorkspaceProtocol` is a machine of atomic steps for publishing, selecting and leasing, with
  any number of processes, exceptions, deaths and power failures; `GuestWorkspace` is the class
  itself, whose methods perform those steps in the source's order while other processes run in
  between; `WorkspaceLosses` holds the runs that lose the current save, a parent or the end of a
  lease, and the seed after which the current save is safe.
- **Message journeys.** `JourneyRoute` derives the expected boundaries, `Journey` is the reducer,
  `JourneyMeaning` says what it accepts and answers in terms of the observations alone,
  `JourneyOrder` proves that it needs no global clock, `JourneyStream` is the sidecar's recorder and
  reader, `JourneyDisplay` the display's assignment. `JourneyEvidence`, `DirectJourney` and
  `FailoverJourney` follow one transaction hop by hop and show what its diagnosis must be;
  `EvidenceMeaning`, `DirectMeaning` and `FailoverMeaning` say which messages of the traces they find.
- **Trace parsers.** `Ka10Trace`, `Ka10Assembly`, `LeaderConversion`, `Imp11aTrace`, `H316Trace`;
  `H316Meaning` reads the transfers off the lines of the trace.
- **Terminal.** `ConsoleProjection`, `Teletype`, `RelayCourse` for what the relay loop does over a
  run of the world and `TerminalRelay` for the loop, `TerminalSession`, `InteractiveTelnet`;
  `JsonLines` holds the law of files cut anywhere.
- **Network control centre.** `HistoricalEvents`, `Reconciliation` with `ReconciliationMeaning`, which
  says what it answers by the last events alone, `RevisionObserver`, `HostInterface`, `HostIngress`.
- `Octets`, `Digests` and `Wrappers` are shared.

Where the source updates fields or loops over local variables, the model has a class or a method
with that loop, tied to a specification function about which the properties are proved. Where the
source computes values, the model has functions. Log lines and JSON records arrive taken apart into
datatypes; SHA-256 is an injective constructor; timestamps are integers; file data and directory
entries reach the disk only when flushed.

## What is not as its documentation says

- The workspace documentation promises that a partial generation cannot become current and that the
  current save survives interrupted publication. Against exceptions and process death this holds
  without condition (`WorkspaceProtocol.ProcessSafety`). Against power failure it holds exactly when
  the pointer is replaced by a generation whose directory entries are flushed
  (`WorkspaceProtocol.ReplaceIsSafeIff`), and two paths do not ensure that: the first publish of a
  workspace never flushes the entry of `generations` before the pointer
  (`WorkspaceLosses.SeedCanBeLost`), and select trusts a renamed save whose publisher died before
  flushing its entry (`WorkspaceLosses.RestoreCanBeLost`). These are the only two: outside that
  window, and with selects of flushed saves, every run is safe
  (`WorkspaceProtocol.PowerLossSafety`, `WorkspaceProtocol.SeededSafety`).
- A lease that release or a failed acquire has removed can come back by a power failure until the
  root is flushed, and its ended token is then accepted again (`WorkspaceLosses.EndedTokenReturns`,
  `WorkspaceProtocol.EndedForGoodIff`). Publishing over a save whose entry was never flushed can
  lose the parent and keep the child (`WorkspaceLosses.ChainCanBreak`).
- The console filter shows the per-line filter of its input except on lines where an idle flush put
  up the lone star of the prompt and the rest of the instrumentation text followed without another
  flush: each such line loses its one space (`ConsoleProjection.FilterExactness`).
- The short-leader conversion is an inverse only where the folding of types keeps types apart
  (`LeaderConversion.ShortRoundTrip`).
- A host-interface sender's restart is recognised by its packet zero only; when that packet is lost
  and the next one happens to be numbered one after the last, packets of two restarts join
  (`HostIngress.LostRestartMixes`), and in no other case (`HostIngress.OneRestartExactly`).
- The terminal record need not hold everything. Guest output after the relay's last look is left
  over (`RelayCourse.LastWordsLost`), and a read that the guest stopped taking is recorded whole
  although it was not sent whole (`RelayCourse.RefusedKeyRecorded`); nothing else differs
  (`RelayCourse.EndingLaws`).

## Model

| member | source | states |
|---|---|---|
| WorkspaceProtocol.ProcessSafety | ncc/guest_workspace.py:195-264 | in every run of any number of interleaved processes that publish and select only while holding the lease, with exceptions and process deaths at any step, the whole invariant holds at every moment; in particular current.json is absent or names a generation that verification accepts |
| WorkspaceProtocol.PowerLossSafety | ncc/guest_workspace.py:195-235 | the same from a new workspace on with power failures at any step, after each of which anything not flushed may be lost, given only that selects point at flushed saves and that no power failure falls between a seed publish replacing the pointer and the next flush of the root; and at every moment a further power failure is harmless if and only if there is no pointer yet or the entry of `generations` is flushed |
| WorkspaceProtocol.SeededSafety | ncc/guest_workspace.py:195-235 | once the entry of `generations` is flushed, in whatever follows the power may fail at any step of any publish or select of a flushed save and the pointer is safe at every moment |
| WorkspaceProtocol.SeededChoices | ncc/guest_workspace.py:195-235 | the same when each select chooses a save that is flushed at the time of the call |
| WorkspaceLosses.SeedThenAnything | ncc/guest_workspace.py:205-235 | an ordinary seed publish reaches such a state: after that run every legal continuation, with power failures at any step, keeps the pointer safe |
| WorkspaceProtocol.ShelteredSafety | ncc/guest_workspace.py:195-235 | with any selects: as long as each power failure meets a disk whose possible pointers and recorded parents are flushed, the invariant holds throughout, and a further power failure is harmless if and only if every pointer it may bring back is anchored |
| WorkspaceProtocol.GroundedStep | ncc/guest_workspace.py:161-264 | no step, and no power failure outside that window, unsettles a possible pointer or a recorded parent |
| WorkspaceProtocol.ChosenStaysSettled | ncc/guest_workspace.py:195-203 | a save flushed when it is chosen is flushed when the pointer is replaced |
| WorkspaceProtocol.ReplaceIsSafeIff | ncc/guest_workspace.py:195-203 | replacing the pointer leaves a workspace no power failure can break if and only if the entry of the generation and the entry of `generations` were flushed before |
| WorkspaceProtocol.PublishIsCareful | ncc/guest_workspace.py:205-235 | a publish over an earlier save always meets that condition; a seed publish meets it exactly when `generations` was flushed into the root before, which publish never does itself |
| WorkspaceLosses.SeedCanBeLost | ncc/guest_workspace.py:205-235 | a legal run whose seed publish replaces the pointer and whose power failure before the root is flushed leaves a pointer to nothing |
| WorkspaceLosses.RestoreCanBeLost | ncc/guest_workspace.py:195-203 | a legal run in which select verifies and points at a save whose publisher died between the rename and its flush, and a power failure then leaves a pointer to nothing |
| WorkspaceProtocol.StepKeeps | ncc/guest_workspace.py:161-264 | every step of every process, every exception, death and lease recovery keeps the invariant |
| WorkspaceProtocol.PowerLossKeeps | ncc/guest_workspace.py:74-95 | a power failure keeps the invariant of a workspace whose possible pointers are all anchored: what was flushed survives unchanged |
| WorkspaceProtocol.WholeWhenRenamed | ncc/guest_workspace.py:220-229 | when the pending directory is renamed, all seven media and the manifest are there, flushed, in flushed directories, and the manifest records exactly their identities |
| WorkspaceProtocol.RenameKeeps | ncc/guest_workspace.py:220-229 | the rename adds a whole generation whose parent is an older published one |
| WorkspaceProtocol.AnchoredIsSafe | ncc/guest_workspace.py:161-203 | when every pointer a power failure may bring back names a flushed entry, no power failure can leave an unsafe pointer |
| WorkspaceProtocol.SafeIsAnchored | ncc/guest_workspace.py:161-203 | and conversely |
| WorkspaceProtocol.SavesAreImmutable | ncc/guest_workspace.py:205-235 | no step changes a published generation, and only a power failure can remove one, and only one whose entries were never flushed |
| WorkspaceProtocol.OneOwner | ncc/guest_workspace.py:237-264 | in every legal run, with any exceptions, deaths and power failures, also those that undo the removal of a lease, at most one process, living or dead, claims the lease |
| WorkspaceProtocol.WrongToken | ncc/guest_workspace.py:258-264 | in every run, by any process and with any token: a release whose token is not that of the standing lease changes nothing; a token never issued, or of a lease that is over and that no power failure has brought back, is not; and the release that succeeds is the owner's |
| WorkspaceProtocol.EndedForGoodIff | ncc/guest_workspace.py:258-264 | the token of an ended lease is refused in every continuation, through any power failures, if and only if no lease with it is among those a power failure may still bring back |
| WorkspaceProtocol.FlushBuries | ncc/guest_workspace.py:237-264 | and that is so from the next flush of the root on, whoever makes it |
| WorkspaceProtocol.RemovedCanReturn | ncc/guest_workspace.py:262-264 | but not right after release has removed the lease |
| WorkspaceLosses.EndedTokenReturns | ncc/guest_workspace.py:258-264 | a legal run whose release has removed its lease, with the token spent, and whose power failure before the last flush brings the lease back, so that the old token is accepted |
| WorkspaceProtocol.OwnerStep | ncc/guest_workspace.py:237-264 | no step and no power failure breaks what is known of the names, the lease and the leases that may come back |
| WorkspaceProtocol.PublishReplacesParent | ncc/guest_workspace.py:210-233 | when a publish replaces the pointer, the pointer still names exactly the parent recorded in the new manifest |
| WorkspaceProtocol.EverySaveHasASeed | ncc/guest_workspace.py:205-235 | in every run whose power failures meet a sturdy disk, from every published generation the recorded parents form a finite chain of published generations that ends in a seed |
| WorkspaceProtocol.ParentsSurviveIff | ncc/guest_workspace.py:205-235 | with `generations` flushed, no power failure can part a save from its parent if and only if the entries of all recorded parents are flushed |
| WorkspaceLosses.ChainCanBreak | ncc/guest_workspace.py:195-235 | a legal run that publishes over an unflushed save and loses that parent, not the child, to a power failure |
| WorkspaceProtocol.Ancestry | ncc/guest_workspace.py:205-235 | that chain, parent by parent |
| GuestDisk.DurableSurvives | ncc/guest_workspace.py:66-95 | a directory all of whose data and entries were flushed comes back from a power failure exactly as it was |
| GuestDisk.TamperingShows | ncc/guest_workspace.py:161-193 | against the manifest of an accepted generation, a directory is accepted if and only if it is asked for under that name and holds the same seven non-empty media byte for byte |
| GuestWorkspace.Workspace.Publish | ncc/guest_workspace.py:205-235 | for every interleaving of other processes and every pattern of raising operations: an identifier is returned if and only if the media are complete, none is empty, the pointer is the parent, the provenance suits the parent and none of its operations raises; success means the pointer moved from the parent to an accepted generation with exactly the given contents and parent; refusal, exactly when media are missing or the pointer is not the parent, changes nothing; earlier saves are untouched, and unless something raises no temporary pointer and no pending directory is left |
| GuestWorkspace.Workspace.Select | ncc/guest_workspace.py:195-203 | succeeds if and only if verification accepts the generation before the call and no operation raises, and then points at it; a refused generation leaves the pointer alone; no save changes, and unless something raises no temporary pointer is left |
| GuestWorkspace.Workspace.Point | ncc/guest_workspace.py:195-203 | verify, write and flush the temporary pointer, replace, flush the root, each step interruptible: the pointer ends as the old one or the new |
| GuestWorkspace.Workspace.Build | ncc/guest_workspace.py:214-229 | adds at most the new generation, holding exactly the given contents |
| GuestWorkspace.Workspace.CopyMedium | ncc/guest_workspace.py:82-95 | copies and flushes one medium and notes the identity of the copy |
| GuestWorkspace.Workspace.Seal | ncc/guest_workspace.py:221-228 | manifest written and flushed, four directories flushed innermost first, the copies unchanged |
| GuestWorkspace.Workspace.Finish | ncc/guest_workspace.py:221-230 | the rename puts exactly the filled directory in place |
| GuestWorkspace.NewIsAccepted | ncc/guest_workspace.py:161-193 | verification accepts a generation just put in place if and only if no medium is empty and the provenance suits the parent |
| GuestWorkspace.Workspace.Unwind | ncc/guest_workspace.py:202-235 | the finally clauses remove the temporary pointer and an unfinished save, and nothing else |
| GuestWorkspace.Workspace.Acquire | ncc/guest_workspace.py:237-256 | succeeds if and only if no lease stood and no operation raises, making this process the holder with this token; failure takes the lease away again, and a standing lease is untouched |
| GuestWorkspace.Workspace.Release | ncc/guest_workspace.py:258-264 | for any token that is not another process's standing one: succeeds exactly for the holder with its own token, which is then refused for good, through any power failure; otherwise nothing changes |
| GuestWorkspace.Workspace.Yield | ncc/guest_workspace.py:237-264 | whatever other processes do, nothing the lease protects changes under its holder |
| JourneyRoute.RouteMirroring | ncc/message_journey.py:566-638 | every accepted route of n components has 2(n-1) boundaries a leg, the reply leg is the request leg reversed with directions flipped, all keys and ids differ, and every interface belongs to its component |
| JourneyRoute.RouteAlongPath | ncc/message_journey.py:596-638 | the request leaves each component of the path and enters the next, in order |
| JourneyRoute.RouteMeans | ncc/message_journey.py:566-638 | a route is accepted if and only if it is configured, repeats no component, knows all its components and every two neighbours have one link that is bound to interfaces; each crossing then uses the two ends of that link |
| JourneyRoute.DeriveBoundaries | ncc/message_journey.py:566-614 | the derivation with its loops, error by error |
| JourneyRoute.CrossPath | ncc/message_journey.py:590-610 | the loop over neighbouring components |
| JourneyRoute.BoundariesForCrossings | ncc/message_journey.py:617-638 | the loop numbering two boundaries a crossing |
| JourneyRoute.CrossingLaw | ncc/message_journey.py:596-608 | a crossing runs from the first component to the second, each end owned by its component |
| Journey.Compare | ncc/message_journey.py:166-185 | observed exactly when the class and every expected field are equal; any known difference is a contradiction; otherwise ambiguous |
| Journey.ValidateObservations | ncc/message_journey.py:684-762 | the validation loop with its dictionaries, error by error |
| JourneyOrder.CheckExactly | ncc/message_journey.py:684-762 | the loop accepts exactly observations with distinct ids, each acceptable by itself, and each source in order: same provenance, rising sequence, ticks and route positions never back |
| Journey.Collect | ncc/message_journey.py:420-436 | every observation is assigned to its crossing, or the first one at no crossing is an error |
| Journey.DiagnoseMessageJourney | ncc/message_journey.py:405-492 | the whole reducer: errors, per-boundary assessments, first unresolved boundary and state |
| JourneyMeaning.DiagnosisMeans | ncc/message_journey.py:405-492 | what the diagnosis says, in terms of the observations and their fields: a boundary is missing when no observation has its key, contradictory when exactly one has and its known class, or with the class equal a field both expected and seen, differs, ambiguous when there are several or the one leaves something unknown, observed when the one agrees; the first boundary not observed is the one answered, the state is named after its condition, and the supports are the identifiers at the boundary, in order |
| JourneyMeaning.ComparisonMeans | ncc/message_journey.py:166-185 | contradiction, ambiguity and agreement of one message with what is expected, class and field by field |
| JourneyMeaning.AcceptanceMeans | ncc/message_journey.py:684-762 | the reducer answers if and only if topology and route are those expected and, over indices, identifiers are distinct, each observation is genuine and on the route, and each has the provenance of the earlier ones of its source, a higher sequence, and neither tick nor position before theirs |
| JourneyOrder.NoGlobalClock | ncc/message_journey.py:405-492 | any reordering that keeps each source in its own order is accepted exactly when the original is, with the same state, the same first boundary, and at every boundary the same condition and the same supporting observations |
| JourneyOrder.ReorderedAcceptable | ncc/message_journey.py:684-762 | acceptance relates two observations only when one source made both |
| JourneyOrder.SameDiagnosed | ncc/message_journey.py:438-492 | the diagnosis depends on which observations there are, not on their order |
| JourneyOrder.PrefixAccepted | ncc/message_journey.py:405-436 | acceptance is prefix-closed |
| JourneyStream.ReadMessageJourneyStream | ncc/message_journey_stream.py:243-296 | the reader, record by record |
| JourneyStream.StreamMeans | ncc/message_journey_stream.py:243-296 | the reader accepts exactly a valid header, observations that the reducer accepts, and at the end perhaps one diagnosis, which must be the reducer's own |
| JourneyStream.MessageJourneyStreamRecorder.Publish | ncc/message_journey_stream.py:163-185 | a batch is published whole exactly when the reducer accepts it after what is held; a refused one changes neither file nor recorder |
| JourneyStream.MessageJourneyStreamRecorder.Complete | ncc/message_journey_stream.py:187-204 | writes the diagnosis of the observations held, once |
| JourneyStream.MessageJourneyStreamRecorder.ReadsBack | ncc/message_journey_stream.py:129-296 | whenever the file is read it gives exactly the observations and terminal flag of the recorder |
| JourneyStream.LogReadsBack | ncc/message_journey_stream.py:243-296 | a log of accepted observations reads back as written, however it was batched, and a terminal diagnosis always re-verifies |
| JourneyStream.CutReadsBack | ncc/message_journey_stream.py:243-296 | cut after any record, it reads as the observations before the cut, terminal exactly when nothing is missing |
| JourneyStream.MessageJourneyStreamRecorder.CutAnywhere | ncc/message_journey_stream.py:218-296 | the same for the file cut after any character past the header |
| JourneyDisplay.EveryObservationAssigned | ncc/journey_display.py:155-168 | every accepted observation supports exactly one boundary that is not missing, the one at its own crossing, so neither consistency error can occur |
| JourneyDisplay.AssignObservations | ncc/journey_display.py:155-168 | fails exactly when an observation supports two boundaries or when the supported and the held observations differ, and otherwise gives each observation its boundary |
| ConsoleProjection.HistoricalConsoleProjection.ProjectByte | ncc/historical_terminal.py:108-141 | one byte extends what is on the screen to what the reference says for the longer history |
| ConsoleProjection.HistoricalConsoleProjection.Project | ncc/historical_terminal.py:108-141 | so does any chunk |
| ConsoleProjection.HistoricalConsoleProjection.FlushPending | ncc/historical_terminal.py:143-163 | an unforced flush shows a bare prompt and nothing else held back; the forced one shows the rest |
| ConsoleProjection.Display | ncc/historical_terminal.py:95-163 | for every chunking and every placement of unforced flushes, closed by one forced flush, the screen equals the per-line filter of the whole input if and only if no line loses its space |
| ConsoleProjection.FlushShowsPrompt | ncc/historical_terminal.py:95-163 | a flush puts up a bare prompt or what is missing of it, and nothing else; text that neither starts an instrumentation text nor starts with one is on the screen as it arrives |
| ConsoleProjection.FilterExactness | ncc/historical_terminal.py:95-163 | the screen is shorter than the filtered input by exactly the number of lines that lose their space: those where a flush showed the lone star and none showed the space |
| ConsoleProjection.LossHappens | ncc/historical_terminal.py:143-156 | an input and a flush that lose it |
| Teletype.SafeTeletypeRenderer.Render | ncc/historical_terminal.py:63-86 | however output is cut into calls, the pieces make up the picture of the whole: one line break for CR, LF or CR LF, everything unprintable spelled out |
| Teletype.PictureIsSafe | ncc/historical_terminal.py:63-86 | nothing but line feeds and printable characters reaches the screen |
| Teletype.PictureGrows | ncc/historical_terminal.py:69-86 | what each byte adds, across any cut |
| Teletype.GlyphMeans | ncc/historical_terminal.py:69-86 | bell, backspace, tab and printable bytes are shown as themselves, any other as a backslash, an x and its value in two hexadecimal digits, high one first |
| Teletype.PrepareTerminalInput | ncc/historical_terminal.py:166-201 | forwards exactly the acceptable bytes before the first local control, translated, and counts the rest: forwarded, blocked and rejected add up |
| Teletype.KeysAreForGuest | ncc/historical_terminal.py:166-201 | no reserved, high-bit, line-feed or delete byte is forwarded |
| Teletype.KeysMean | ncc/historical_terminal.py:166-201 | which bytes are kept, in order, and that a line feed becomes a carriage return and a delete a backspace |
| TerminalRelay.RunCharacterTerminal | ncc/historical_terminal.py:248-347 | for every run of guest output, which may come at any moment, of operator reads and of sends that raise: ending, bytes sent, record and position are those of the course of the run, a finished screen is the filtered and rendered picture of exactly the recorded guest output unless a line loses its space, and the recorder never refuses |
| TerminalRelay.Relay.Serve | ncc/historical_terminal.py:285-347 | one pass of the loop makes exactly the pass of the course, ending by ending |
| TerminalRelay.Relay.RelayOutput | ncc/historical_terminal.py:273-284 | records and shows all output there is at that moment or, exactly when it passes the limit, nothing; the recorder never refuses |
| TerminalRelay.Relay.RelayInput | ncc/historical_terminal.py:297-347 | a read: refusals recorded, then forwarded bytes recorded and sent, or nothing when they pass the limit, or cut short when sending raises, and then the exit |
| TerminalRelay.Relay.Send | ncc/harness_process.py:157-166 | all of the data is recorded; the guest takes all of it, or only the part before the send raises |
| TerminalRelay.Relay.FinishProjection | ncc/historical_terminal.py:268-272 | the closing flush leaves exactly the finally shown text, rendered |
| RelayCourse.RelayedLaws | ncc/historical_terminal.py:248-347 | in every run both limits hold, nothing reserved is recorded, the filter is given exactly the recorded slice of the guest output, and what is recorded of the operator equals what the guest took if and only if no send raised |
| RelayCourse.EndingLaws | ncc/historical_terminal.py:285-347 | how the loop ended: the record is what was typed in the passes before plus what the last one sent or tried to send; record and guest differ if and only if in the last pass the guest was alive, something was read within the limits and the guest took less than it, and then by exactly the refused end of that one read; guest output is left unrecorded if and only if some came after the last look, and then exactly that |
| RelayCourse.EndingsMean | ncc/historical_terminal.py:285-347 | which ending a pass has, if and only if: output limit, process exit, end of input, input limit, a raising send, or the operator leaving |
| RelayCourse.QuietShowsPrompt | ncc/historical_terminal.py:285-297 | after a pass that finds nothing to read, a prompt the guest has just put out is on the screen |
| RelayCourse.LastWordsLost | ncc/historical_terminal.py:286-293 | what a guest puts out between the last look and its death is never recorded or shown |
| RelayCourse.RefusedKeyRecorded | ncc/historical_terminal.py:324-331 | a key typed to a guest that has just stopped is recorded and was never sent |
| TerminalSession.ReadTerminalSession | ncc/terminal_session.py:278-345 | the reader, header limits and record by record |
| TerminalSession.ReadsExactly | ncc/terminal_session.py:285-345 | a log is readable if and only if every record is good where it stands: numbered by its place, stamped, after no end; data of a known direction, within a chunk and the totals, with its own length and digest; controls known and counted; an end that counts and digests all before it; and what is read is the bytes each direction carried, in order |
| TerminalSession.TerminalSessionRecorder.AppendChunk | ncc/terminal_session.py:216-245 | a chunk is written exactly when it fits its direction and its stamp is well formed |
| TerminalSession.TerminalSessionRecorder.Bytes | ncc/terminal_session.py:133-150 | the log then reads back with these bytes appended; a refused call leaves whole leading chunks at most, up to the first that does not fit |
| TerminalSession.TerminalSessionRecorder.Control | ncc/terminal_session.py:152-175 | a control is recorded exactly when known for the profile and counted within bounds |
| TerminalSession.TerminalSessionRecorder.Complete | ncc/terminal_session.py:177-209 | the end record agrees with everything read |
| TerminalSession.TerminalSessionRecorder.CutAnywhere | ncc/terminal_session.py:258-345 | the recorder's file cut anywhere past its first line is accepted with prefixes of the bytes both ways and of the controls, and uncut it gives all of them |
| TerminalSession.ReadingIsPrefixClosed | ncc/terminal_session.py:285-345 | a prefix of a readable log is readable and holds prefixes of both byte strings |
| TerminalSession.ReadWithinLimits | ncc/terminal_session.py:285-345 | accepted sessions are within both limits |
| TerminalSession.ErrorIsFinal | ncc/terminal_session.py:285-345 | reading stops at the first fault |
| JsonLines.CutLaw | ncc/terminal_session.py:258-284 | a file of records cut after any character: the reader gets exactly the records written whole and is told of a remainder exactly when the cut is inside one |
| JsonLines.CutRecords | ncc/message_journey_stream.py:218-242 | the same for records with an invertible one-line encoding |
| Ka10Trace.ParseKa10ImpTrace | ncc/ka10_imp_journey.py:90-216 | the parsing loop, error by error |
| Ka10Trace.Reconstruct | ncc/ka10_imp_journey.py:273-283 | the octets of the collected valid bits, or an error exactly when they do not cover the message |
| Ka10Trace.AcceptedExactly | ncc/ka10_imp_journey.py:90-216 | a trace is accepted exactly when it is the print of the messages answered: sequences without gap, ticks never back, every message proved by its words |
| Ka10Trace.NeverUncovered | ncc/ka10_imp_journey.py:273-283 | the error that the words do not cover the message cannot occur |
| Ka10Trace.Coverage | ncc/ka10_imp_journey.py:129-180 | checked words carry exactly as many valid bits as their widths reach into the message |
| Ka10Trace.ValueBound | ncc/ka10_imp_journey.py:273-283 | the collected value fits the octets it is written into |
| Ka10Assembly.AssemblyRoundTrip | ncc/ka10_imp_journey.py:90-216 | any octets cut left-aligned into words of any 32 or 36 bit widths parse back to exactly those octets |
| LeaderConversion.NoscWords | ncc/ka10_imp_journey.py:219-270 | the conversion with its refusals |
| LeaderConversion.Lengths | ncc/ka10_imp_journey.py:236-256 | which length errors can occur; the last two comparisons never fail |
| LeaderConversion.ShortLeader | ncc/ka10_imp_journey.py:257-268 | the short leader recovered field by field |
| LeaderConversion.ConvertedBits | ncc/ka10_imp_journey.py:257-268 | where each bit of the long leader goes in the short one |
| LeaderConversion.ShortRoundTrip | ncc/ka10_imp_journey.py:219-270 | a short message through its long form with any padding comes back; its leader is the same exactly when type and subtype are kept apart |
| LeaderConversion.LongRoundTrip | ncc/ka10_imp_journey.py:219-270 | an accepted long message is the long form of its answer exactly when its type is one the folding produces and a NOP carries no subtype |
| LeaderConversion.LeaderWords | ncc/ka10_imp_journey.py:257-268 | the two leader words determine the fields |
| Imp11aTrace.ParseImp11aTrace | ncc/imp11a_journey.py:60-166 | the parsing loop, error by error |
| Imp11aTrace.AcceptedExactly | ncc/imp11a_journey.py:60-166 | parsing and printing of record groups are mutually inverse |
| Imp11aTrace.MemoryWordInverts | ncc/imp11a_journey.py:169-170 | the stored word determines the network word |
| Imp11aTrace.Swapped | ncc/imp11a_journey.py:169-170 | the stored word is the network word with its octets exchanged |
| H316Trace.ParseH316Trace | ncc/h316_journey.py:69-157 | the parsing loop over udp, message, word, repeat and receive-done lines |
| H316Trace.ReadLine | ncc/h316_journey.py:90-139 | what one line does to the closed records, the pending transfer and the transport numbers |
| H316Trace.ReadWords | ncc/h316_journey.py:117-124 | octal tokens are appended, anything else marks the transfer compressed |
| H316Trace.ParsedLaws | ncc/h316_journey.py:69-157 | a parsed trace holds every word shown for an open transfer and every count announced, in order; sequences strictly increase, only exact transfers are complete, no two neighbours are left to merge |
| H316Meaning.ParseMeans | ncc/h316_journey.py:69-229 | a parsed trace from its lines: one chunk for each message line, lasting to the line that reports or replaces it, with the words of its own lines, complete unless a repeat or a token that is not octal spoiled it or the count differs, the number of the receive-done line that closed it and of nothing else, and the transport number of its own transport line; the transfers are these chunks, joined exactly where neighbours are receives of one device with one number |
| H316Meaning.MergedMeans | ncc/h316_journey.py:200-229 | merging cuts the chunks exactly where neighbours do not belong together, each transfer having the words and counts of all its chunks |
| H316Trace.ReassembleReceivedChunks | ncc/h316_journey.py:200-229 | the pop-and-append loop yields one transfer for each maximal group of chunks |
| H316Trace.MergingLaws | ncc/h316_journey.py:200-229 | merging conserves words and declared counts, leaves nothing to merge, is idempotent, and keeps completeness honest |
| H316Trace.MergedIncreasing | ncc/h316_journey.py:200-229 | source order survives merging |
| H316Trace.GroupsPartition | ncc/h316_journey.py:200-229 | the groups are the transfers, in order, none empty |
| Reconciliation.Reconcile | ncc/reconciliation.py:287-375 | the reducer with its loops, error by error |
| ReconciliationMeaning.LinesMean | ncc/reconciliation.py:287-452 | the condition and support of every line and of its two ends, from the last events about them: which end is down or looped, unknown, contradictory or stale, where a report is believed exactly when its neighbour is the one its state and the configuration call for |
| ReconciliationMeaning.ImpsMean | ncc/reconciliation.py:455-489 | the reach and support of every IMP, from its last report and the last events about its far ends |
| ReconciliationMeaning.AnswersMean | ncc/reconciliation.py:287-324 | the reducer answers if and only if time and interval are sensible, the events rise and are not in the future, and those about anything configured are sound |
| Reconciliation.Observe | ncc/reconciliation.py:325-358 | one pass over the events fills the two maps |
| Reconciliation.ValidateEventOrder | ncc/reconciliation.py:512-524 | the first fault of the order, if any |
| Reconciliation.ReconcileOneImp | ncc/reconciliation.py:455-489 | the collection of peers that report down |
| Reconciliation.NewestEnd | ncc/reconciliation.py:325-341 | of a line end exactly its last event is held, on every prefix |
| Reconciliation.NewestReport | ncc/reconciliation.py:342-357 | of an IMP exactly its last report is held |
| Reconciliation.ConditionsAge | ncc/reconciliation.py:395-489 | the same events reduced later: every line keeps its state or is stale for good, every IMP only moves from up or unknown to partitioned to stale |
| Reconciliation.LineAges | ncc/reconciliation.py:395-452 | so for one line, with the same support |
| Reconciliation.ImpAges | ncc/reconciliation.py:455-489 | so for one IMP |
| Reconciliation.PartitionedMeans | ncc/reconciliation.py:455-489 | partitioned if and only if the IMP is overdue and the far ends of all its lines, at least two, freshly report down as configured |
| Reconciliation.SwappedEnds | ncc/reconciliation.py:287-375 | swapping the declared ends of any lines changes nothing in what the reducer answers for any stream, views or fault |
| Reconciliation.SameNoted | ncc/reconciliation.py:325-357 | in particular nothing in the observations the fold holds |
| Reconciliation.SupportIsReal | ncc/reconciliation.py:559-570 | every cited support, of lines, IMPs and line ends, is a strictly increasing list of sequences of events in the stream |
| Reconciliation.NeverRaises | ncc/reconciliation.py:287-324 | the reducer succeeds on every stream the historical reader accepts, from the run start and the last event on |
| Reconciliation.NotedDirect | ncc/reconciliation.py:432-452 | only states that can be paired are held, so no state lookup fails |
| Reconciliation.PairingLaws | ncc/reconciliation.py:492-509 | exchanging the ends mirrors the state; which pairs give which state |
| Reconciliation.NumbersAscend | ncc/reconciliation.py:144-148 | the IMP list is ascending and exactly the configured IMPs |
| HistoricalEvents.ValidateEventRecords | ncc/historical_events.py:277-302 | the first fault of a stream, if any |
| HistoricalEvents.AcceptedExactly | ncc/historical_events.py:277-302 | accepted exactly when numbered from one, never before the start, never back in time, each record well shaped |
| HistoricalEvents.ShapeMeans | ncc/historical_events.py:344-412 | which records are well shaped, kind by kind |
| HistoricalEvents.PrefixAccepted | ncc/historical_events.py:277-302 | acceptance is prefix-closed |
| HistoricalEvents.HistoricalEventRecorder.Append | ncc/historical_events.py:128-149 | a batch is written whole exactly when it continues the stream; every prefix of the log is accepted |
| HostInterface.PacketRoundTrip | ncc/host_interface.py:54-79 | decoding undoes encoding for at most 65534 words; longer packets cannot be encoded |
| HostInterface.DatagramRoundTrip | ncc/host_interface.py:54-79 | a decoded datagram is the only encoding of its packet |
| HostInterface.DatagramMeans | ncc/host_interface.py:54-79 | a datagram octet by octet: letters, number, count, flags and words, each with its high octet first |
| HostIngress.PassiveHostIngress.Receive | ncc/host_interface.py:133-178 | a refused packet changes no state; an accepted one completes at most one message, made of the packets in progress and itself |
| HostIngress.PassiveHostIngress.CheckSequence | ncc/host_interface.py:165-174 | duplicates and backward packets are refused, zero restarts |
| HostIngress.PassiveHostIngress.ReadyPacket | ncc/host_interface.py:113-126 | announces readiness under the number not yet acknowledged, and says nothing else: taken in anywhere it completes no message and adds no word to one; refused exactly beyond the wire's range |
| HostIngress.CompletedIsARun | ncc/host_interface.py:133-163 | a completed message is the words of one gap-free run of the packets just accepted, containing no earlier end |
| HostIngress.CompletedExactly | ncc/host_interface.py:133-163 | a packet completes a message if and only if it is final and has words, and the message is all the words since the last end, gap or restart, whatever was lost or completed before that |
| HostIngress.EmittedWasSent | ncc/host_interface.py:133-163 | over loss, duplication and reordering, what comes out is a whole-packet suffix of a message sent, ending with its last packet |
| HostIngress.OnlyOneSent | ncc/host_interface.py:133-163 | and of no other message |
| HostIngress.NothingLost | ncc/host_interface.py:133-163 | with nothing lost from sequence zero no packet is refused and the output is the sent messages, in order |
| HostIngress.EmittedOverRestarts | ncc/host_interface.py:133-174 | for any raw arrivals of any number of sender restarts: all messages that come out are of one restart each if and only if no silent join is inside a completed message, and then each is a whole-packet suffix of one message that restart sent |
| HostIngress.OneRestartExactly | ncc/host_interface.py:133-174 | message by message: its packets come from one restart if and only if none of them is a silent join, that is, a change of restart numbered one after the last packet accepted while a message is in progress |
| HostIngress.SilentJoinMixes | ncc/host_interface.py:133-174 | after a silent join, the packets that follow in order up to the next end complete a message of two restarts |
| HostIngress.OneRestartWasSent | ncc/host_interface.py:133-163 | a message of one restart is a whole-packet suffix of one message that restart sent |
| HostIngress.AnnouncedIsNotSilent | ncc/host_interface.py:165-174 | restarts whose first arrival is their packet zero never join silently, whatever else is lost or refused |
| HostIngress.LostRestartMixes | ncc/host_interface.py:165-174 | with a silent join a message nobody sent can come out |
| InteractiveTelnet.ReadInteractiveTelnetStream | ncc/interactive_telnet.py:400-499 | the reader, record by record |
| InteractiveTelnet.ReadsExactly | ncc/interactive_telnet.py:400-499 | a transcript is readable if and only if every record is good where it stands: commands at even places after good answers, numbered, within the limits and printable; answers right after their command with matching number, prompt, truncation, length and digest; an end that counts answers and failures and gives no clean reason after one; and the session holds exactly these exchanges, the unanswered command and the end |
| InteractiveTelnet.InteractiveTelnetRecorder.Command | ncc/interactive_telnet.py:204-241 | recorded exactly when nothing is pending or failed, the limit leaves room and the line is acceptable; otherwise nothing changes |
| InteractiveTelnet.InteractiveTelnetRecorder.Answer | ncc/interactive_telnet.py:243-298 | recorded exactly for the pending command and consistent fields; the reader then sees this exchange |
| InteractiveTelnet.InteractiveTelnetRecorder.Complete | ncc/interactive_telnet.py:300-326 | ends with exact counts; a clean reason is refused after a failure |
| InteractiveTelnet.InteractiveTelnetRecorder.CutAnywhere | ncc/interactive_telnet.py:373-399 | the file cut anywhere past its first line is accepted with the exchanges recorded before the cut |
| InteractiveTelnet.ReadIsOrderly | ncc/interactive_telnet.py:400-499 | what the reader accepts: numbered commands, all exchanges complete but perhaps the last, failure remembered, every limit kept |
| InteractiveTelnet.NothingAfterFailure | ncc/interactive_telnet.py:425-428 | no command or result ever follows a failed result |
| InteractiveTelnet.EndsHonestly | ncc/interactive_telnet.py:746-781 | the counts that end a session are those of its exchanges, and a clean ending has no failure |
| InteractiveTelnet.PrefixHolds | ncc/interactive_telnet.py:400-499 | prefixes are accepted and hold prefixes |
| InteractiveTelnet.AcceptedCommand | ncc/interactive_telnet.py:346-370 | exactly printable ASCII within the limit that is more than spaces |
| RevisionObserver.Observer.ClassifyRevision | ncc/historical_display.py:237-271 | the generation and the change name after any sequence of snapshots |
| RevisionObserver.SharedGeneration | ncc/journey_display.py:99-133 | two snapshots share a generation exactly when nothing between them breaks the growth, and then file, run and header are equal and the earlier records are a prefix of the later |
| RevisionObserver.NamesOfChanges | ncc/historical_display.py:237-271 | the name of every change: identity changed, restarted, truncated, appended, replaced or as before |
| FailoverJourney.ForwardPathFollows | ncc/pdp11_its_failover_journey.py:283-354 | a followed message has the same words on both sides of each modem hop, is contained in every packet, and is delivered unchanged but for the host octet |
| FailoverJourney.RequestFollowed | ncc/pdp11_its_failover_journey.py:226-247 | the request found is an application message for host 106 and was followed |
| FailoverJourney.ReplyFollowed | ncc/pdp11_its_failover_journey.py:250-280 | the reply found is on the same link, after the request was delivered, and was followed |
| FailoverMeaning.ExtractionMeans | ncc/pdp11_its_failover_journey.py:137-280 | over indices of the traces: the extraction is of the first request that the traces carry to host 106 and of the first reply they carry back; it ends without a request only if none is carried, without a reply only if none is carried to that first request, and in a word too wide only if there is one |
| FailoverMeaning.ForwardMeans | ncc/pdp11_its_failover_journey.py:283-354 | which transfers a message is followed by: at each hop the first that carries it on, and none is found only if there is none |
| FailoverMeaning.UserMessageMeans | ncc/pdp11_its_failover_journey.py:587-602 | which transfers are application data, word by word |
| FailoverJourney.ExtractionIsForced | ncc/pdp11_its_failover_journey.py:137-190 | whenever extraction returns, both messages were followed and the first missing boundary is the ingress of host 106; the boundary count, the adapter checks and the last guard never fail |
| FailoverJourney.LegsCover | ncc/pdp11_its_failover_journey.py:357-479 | the fourteen observations cover every boundary but the last of each leg, each as expected |
| FailoverMeaning.ObservationsMean | ncc/pdp11_its_failover_journey.py:357-479 | each observation is of its own boundary, by the transfer of the path that crosses it, out of the trace of the IMP it is at |
| DirectJourney.RequestFollowed | ncc/pdp11_its_journey.py:289-337 | the open request was followed over its hop |
| DirectJourney.ReplyFollowed | ncc/pdp11_its_journey.py:340-398 | the control reply, after the request was delivered, was followed |
| DirectMeaning.ExtractionMeans | ncc/pdp11_its_journey.py:168-398 | over indices of the traces: the extraction is of the first open request, and of the first control reply to it that is carried; it ends without a request or a reply only if there is none |
| DirectMeaning.HopMeans | ncc/pdp11_its_journey.py:289-398 | which transfers a message is followed by over its hop, and none is found only if there is none |
| DirectJourney.CollectKa10 | ncc/pdp11_its_journey.py:205-217 | the candidate list: messages whose short form is what IMP 6 delivered |
| DirectMeaning.ConsumedMeans | ncc/pdp11_its_journey.py:205-217 | a supplied KA10 trace contributes its only matching message; that there is not exactly one is the only error |
| DirectMeaning.StoredMeans | ncc/pdp11_its_journey.py:225-237 | and so does one of the IMP11-A |
| DirectMeaning.ObservationsMean | ncc/pdp11_its_journey.py:401-618 | each observation is of its own boundary, by the transfer of the path that crosses it, out of the trace of the IMP it is at; those of the guests are by the messages they took in |
| DirectJourney.ExtractionIsForced | ncc/pdp11_its_journey.py:168-286 | with both guest traces the diagnosis is complete, otherwise it stops at the first guest ingress without one; no guard, count, adapter or fingerprint check can fail |
| JourneyEvidence.DeliveredUnchanged | ncc/pdp11_its_journey.py:723-739 | a transfer that matches the expectation has the same words but for the host octet of the first |
| JourneyEvidence.LeaderRecovered | ncc/message_journey.py:341-379 | the decoded fields determine the two leader words |
| JourneyEvidence.LeaderOctets | ncc/message_journey.py:341-379 | type, host, link and subtype are the first four octets in network order; the class goes by the type |
| JourneyEvidence.UserOctets | ncc/message_journey.py:341-379 | the further fields of a user message are the next six octets, the opcode only on link zero |
| JourneyEvidence.FingerprintInjective | ncc/message_journey.py:331-338 | equal fingerprints mean equal words |
| JourneyEvidence.ForcedDiagnosis | ncc/message_journey.py:438-492 | when the boundaries before a gap are covered by matching observations, the diagnosis can only be that the gap is the first missing boundary, or complete without one |
| JourneyEvidence.RouteLegs | ncc/message_journey.py:566-638 | the legs of a route: halves of the boundaries, alternating directions, and where they end |

## Left out

- WorkspaceProtocol.ProcessSafety: callers are not modelled; that only the lease holder publishes and selects, that a recovered lease belonged to a dead process, and that a drawn identifier is new are its protocol. The creator of a workspace, which holds the build lease instead, is taken as a lease holder.
- WorkspaceProtocol.PowerLossSafety: a file is written in one step and then flushed, so a half-written copy is not distinguished from an unflushed one; the clean-up of a failed publish removes its files in one step.
- GuestWorkspace.Workspace.Publish: symlink, permission and path checks, the metadata and input identities of a workspace, the creation time and the textual form of identifiers are left out; a manifest keeps whether the result path is absolute and the digest well formed.
- JourneyRoute.DeriveBoundaries: takes a topology that shared-topology validation has accepted; that validation is a list of field checks and is left out.
- Journey.DiagnoseMessageJourney: identifier syntax, external evidence references and transport sequences do not affect the diagnosis and are left out.
- JourneyStream.ReadMessageJourneyStream: the run identity, provenance list and transaction window of the header are left out; they are checked field by field.
- JourneyDisplay.AssignObservations: the rest of the display snapshot is projection only.
- FailoverJourney.ExtractionIsForced: the lookup of modem devices and host bindings is taken as given, and so is the parsing of the three traces; error texts are merged into kinds.
- DirectJourney.ExtractionIsForced: the same; guest messages are those their parsers accept.
- Ka10Trace.ParseKa10ImpTrace: the regular expressions over log text are left out, and so for the other two parsers.
- TerminalRelay.RunCharacterTerminal: one observation stamp stands for the clock; local notices on the screen and what a cut request does, to the link and to the record, are left out; so are failures to write to the screen.
- TerminalSession.ReadTerminalSession: the header's descriptive fields are left out; the limits and the profile are kept.
- InteractiveTelnet.ReadInteractiveTelnetStream: the header's descriptive fields are left out; the limits are kept.
- Reconciliation.Reconcile: the mapping from a shared topology to nominal lines is left out; the lines are given.
- HistoricalEvents.ValidateEventRecords: field sets, JSON types and the topology in the header are left out.
- HostIngress.EmittedWasSent: sequence numbers do not wrap round, as the source does not let them.
- Report decoding, checksums and throughput reports: fixed field tables that would add only easy members.
- HTTP servers, viewers, process and simulator control, installation scripts: presentation or operating-system work.
- Completed-run adapters and summaries: long lists of field comparisons.
