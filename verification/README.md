# GOFFY verification model

A Dafny model of the parts of GOFFY where a mistake would be hard to see: the binary
scanner and importer for the AOSP product, the command run against a phone, the live-connection
registry of the hub, the text redaction of the setup doctor, the confined evidence writer, the
ROM-0 refresh with its packet, guide and checklist, the unlock evidence, and the audit evidence
of the export image. `dafny verify dfyconfig.toml` checks everything.

| file | what it models |
|---|---|
| `ApkSigningBlock.dfy`, `SchemeBytes.dfy`, `Bytes.dfy`, `Slices.dfy` | the APK Signing Block as a grammar, the scanner that walks it in place, an encoder, and the answer over the bytes of the file |
| `AospImport.dfy` | the write-if-absent import over a file tree with a fault at any operation |
| `Timeline.dfy` | the timeline of a screen and its split into task cards |
| `DeviceCommand.dfy`, `DeviceScreens.dfy`, `StaleCard.dfy` | one command run: a session with a phone that may answer anything, recorded as a history of looks and actions; what is focused, tapped and typed, over the nodes shown; and one whole run that is accepted for the wrong reason |
| `Deadline.dfy`, `Clock.dfy` | timeouts and waits under a deadline, with a clock moved by commands, sleeps and a time of its own for each look |
| `ConnectionRegistry.dfy` | the registry object, and all interleavings of its tasks around one FIFO lock |
| `SafeText.dfy`, `Substrings.dfy` | path redaction, terminal sequences and escapes |
| `NoFollowWriter.dfy` | output confined to `.goffy-validation`: path check, directory creation, descriptor walk |
| `UnlockEvidence.dfy`, `UnlockFields.dfy`, `EvidenceKeys.dfy` | producer, loader and probe check of the unlock evidence, what they accept field by field, and the search for sensitive keys |
| `Rom0Packet.dfy`, `BootloaderGuide.dfy`, `Rom0Report.dfy`, `OperatorChecklist.dfy`, `Rom0Refresh.dfy`, `RomReadiness.dfy`, `SampleRefreshes.dfy` | the ROM-0 refresh: four derivations of readiness, the files it publishes, its answers over the fields of the request, and two requests in full |
| `Json.dfy`, `Options.dfy`, `Results.dfy` | values shared by the modules above |
| `ImageAudit.dfy`, `ImageFindings.dfy` | scanner reports, the evidence made from them, the runner that consumes it, and the verdict over the report as written |

Code that changes state is modelled by classes and loops proved against specifications; code made
of expressions by functions. What the outside world decides is either a field that fixes all its
answers (the phone, as a function of the whole history), a list of faults, or a nondeterministic
choice (which system call is refused).

Some results say where the code does less than one might expect:

- `UncountedCardsLookFresh`: a card that was there before Send but on no screen seen before it
  makes the command look fresh; `StaleCardIsAccepted` is a whole run accepted on such a card.
  `VerifiedCardIsNew` gives the condition under which accepted evidence is from a new card.
- `ApprovalTappedIff`: OK with an approval configured does not mean that Approve was tapped; it was
  exactly when some poll offered the button. `StaleCardIsAccepted` is a run without the tap.
- `RetryGetsPastFault`: a retry of an import does not get past a file that a write left partly
  written, unless what was written happens to be the whole source (`PartialFileStopsRetries`).
- `PendingInOrderIff`: a refresh that is ready always shows its review step as ready while the step
  it must follow is not done, and one without stock restore evidence asks for a later step first;
  `OrderFailsOnRefreshes` has a request for each.
- `SafeTextShowsPathIff`: the output of `safe_text` can show an absolute path, because terminal
  sequences are dropped and line ends escaped after the path scan. `SafeTextShowsRootIff`: by the
  first of these it can even show the repository or the home directory (`StrippingBringsRootBack`),
  which the redacted text never holds. `CleanTextIsSafe` has a condition on the value that excludes
  all of it.
- `BuildReport`: a scanner report file holding only `null` ends the audit, for a pinned image and a
  supported scanner, in an unassigned variable; and without a named scanner the Trivy result is
  returned even when it is refused. A report file that is not UTF-8 ends it in an uncaught error.
- `CreatedIsCurrentIff`: evidence created with a clock behind the probe's is refused at once
  (`SampleIsRefused`).

## Model

| member | source | states |
|---|---|---|
| `ApkSigningBlock.BlockIffRegionSplits` | scripts/create_aosp_product_import.py:267-284 | the tests before the loop accept exactly the files that end with a signing block for some entries, and leave exactly the bytes of those entries |
| `ApkSigningBlock.EncodeInjective` | scripts/create_aosp_product_import.py:286-298 | the bytes of a region determine its entries: two valid lists with the same encoding are equal |
| `ApkSigningBlock.BlockUnique` | scripts/create_aosp_product_import.py:265-299 | a file ends with a block for at most one list of entries |
| `ApkSigningBlock.SchemesInFirstOccurrenceOrder` | scripts/create_aosp_product_import.py:293-297 | the reported names are those of the known ids present, each once, ordered by first occurrence |
| `ApkSigningBlock.StuckParse` | scripts/create_aosp_product_import.py:288-292 | where the loop gives up, no list of valid entries splits the whole region |
| `ApkSigningBlock.WalkPairs` | scripts/create_aosp_product_import.py:283-299 | the loop ends, reads in bounds, and returns the schemes of a complete split of the region, or nothing when no split exists |
| `ApkSigningBlock.DetectSignatureSchemes` | scripts/create_aosp_product_import.py:265-299 | for every byte string: the schemes of the block the file ends with, by the grammar alone, and nothing if there is none |
| `Bytes.U32Bytes` | scripts/create_aosp_product_import.py:270-291 | a 32-bit field is read with its first byte lowest |
| `Bytes.U64Bytes` | scripts/create_aosp_product_import.py:270-291 | a 64-bit field is its low four bytes and then its high four |
| `SchemeBytes.SchemeReportedIff` | scripts/create_aosp_product_import.py:265-309 | over the bytes: a scheme is reported exactly when the last end record points behind a block with equal sizes and the magic, whose entries chain up to its end, and the four id bytes of one of them are those of the scheme |
| `SchemeBytes.OnlyThreeSchemes` | scripts/create_aosp_product_import.py:302-309 | no other name is reported |
| `ApkSigningBlock.DirectoryOfEndRecord` | scripts/create_aosp_product_import.py:267-271 | the end record written with an offset gives that offset back, if its bytes do not hold the magic again |
| `ApkSigningBlock.ScanEncodedApk` | scripts/create_aosp_product_import.py:265-309 | round trip: an encoded APK scans to exactly the known schemes put in, for any prefix, entries, directory and comment that does not bring the magic back |
| `AospImport.SafeDestination` | scripts/create_aosp_product_import.py:320-328 | a destination is refused exactly when it is absolute, holds `..`, or resolves outside the root; otherwise it is what it resolves to |
| `AospImport.OneFile` | scripts/create_aosp_product_import.py:114-128 | for a readable source: copied exactly when nothing is at the destination and no path above it is a file, unchanged exactly when it holds the bytes, and each refusal exactly in its case |
| `AospImport.UnreadableFile` | scripts/create_aosp_product_import.py:114-118 | an unsafe destination or a source that is no file stops the import before anything is touched |
| `AospImport.AospCheckout.Execute` | scripts/create_aosp_product_import.py:103-130 | the loop over the planned files, with its two refusals up front, leaves the tree and statuses of the recursive import |
| `AospImport.ImportNeverOverwrites` | scripts/create_aosp_product_import.py:114-128 | success or not, with any faults, every entry that existed is unchanged; what is new are planned destinations under the root and directories above them |
| `AospImport.ImportedFilesEqualSources` | scripts/create_aosp_product_import.py:114-130 | every file that got through holds its source's bytes when the run ends; on success that is every planned file |
| `AospImport.SecondRunUnchanged` | scripts/create_aosp_product_import.py:119-122 | after a successful run a second one reports only "unchanged" and leaves the tree as it is |
| `AospImport.StoppingStep` | scripts/create_aosp_product_import.py:114-128 | a failed run stopped at the file after those that got through, on the tree those left |
| `AospImport.RetryResumes` | scripts/create_aosp_product_import.py:114-130 | a retry reports the files that got through as "unchanged" and carries on at the file that stopped the run |
| `AospImport.RetryGetsPastFault` | scripts/create_aosp_product_import.py:119-128 | if only a fault stopped the run, the retry gets past that file exactly when no partly written file was left |
| `AospImport.PartialFileStopsRetries` | scripts/create_aosp_product_import.py:119-128 | a tree and a write fault after which every run refuses the empty file that was left, while an undisturbed run succeeds |
| `Timeline.WindowIsOneCard` | scripts/run_moto_g_device_smoke.py:2761-2798 | every node of a window has the command's first header as its nearest header; a later node of that card is left out only past 30 nodes when no header follows |
| `DeviceScreens.SegmentJoins` | scripts/run_moto_g_device_smoke.py:2743-2758 | the texts of a card are joined by single spaces before markers are looked for |
| `DeviceScreens.HeaderIff` | scripts/run_moto_g_device_smoke.py:2788-2791 | a card starts where the next node shows one of fourteen status words, up to white space and case |
| `DeviceScreens.TimelineFollowsTitle` | scripts/run_moto_g_device_smoke.py:2718-2731 | the timeline is what follows the first visible title |
| `DeviceScreens.TextNodesJoin` | scripts/run_moto_g_device_smoke.py:2718-2731 | it keeps the nodes with a text that are no input fields, in order |
| `Timeline.WindowIsFirstTitledCard` | scripts/run_moto_g_device_smoke.py:2761-2798 | on a timeline of well-formed cards the window is exactly the first card titled with the command |
| `Timeline.OccurrencesAreTitles` | scripts/run_moto_g_device_smoke.py:2738-2740 | when the command shows only in titles, its occurrences are the cards titled with it |
| `Timeline.FreshCountMeansNewCard` | scripts/run_moto_g_device_smoke.py:2743-2785 | a positive fresh count means an added card, and the window is one of the added cards, if the earlier cards visible now were all counted before |
| `Timeline.UncountedCardsLookFresh` | scripts/run_moto_g_device_smoke.py:2743-2785 | with nothing added the count is fresh exactly when more earlier cards show the command than were counted before |
| `DeviceCommand.TapsAtMostOnce` | scripts/run_moto_g_device_smoke.py:2212-2316 | in a disciplined history Send and Approve are tapped at most once, Approve only after Send, and no more keys are sent than the command has |
| `DeviceCommand.BaselineBoundsEveryScreen` | scripts/run_moto_g_device_smoke.py:1953-2183 | the baseline is at least the count on every screen seen before Send |
| `DeviceCommand.SendIsOnScreen` | scripts/run_moto_g_device_smoke.py:2679-2710 | the control taken for Send is an enabled node of the screen it was looked for on |
| `DeviceScreens.FocusedFieldWasShown` | scripts/run_moto_g_device_smoke.py:2584-2594 | whatever field is focused was the first enabled input field of a screen seen before that is no password field and does not show the endpoint |
| `DeviceScreens.NoFieldWasShown` | scripts/run_moto_g_device_smoke.py:1946-2011 | a run that finds no field was shown none on any screen |
| `DeviceScreens.SendIsChosen` | scripts/run_moto_g_device_smoke.py:2679-2710 | Send is the first enabled node that says so, else the first enabled one described so, else the rightmost small enabled button beside the field |
| `DeviceScreens.TappedSendWasShown` | scripts/run_moto_g_device_smoke.py:2135-2212 | a tap on Send hits that control on the last screen, enabled and 96 pixels inside the viewport, with the command in a field that was shown, up to white space and case |
| `DeviceScreens.UntappedSendWasHidden` | scripts/run_moto_g_device_smoke.py:2135-2200 | a run that gives up on Send was shown none, or one too close to the edge |
| `DeviceScreens.TappedApproveWasLone` | scripts/run_moto_g_device_smoke.py:2273-2316 | a tap on Approve hits the only enabled node with the configured text in the fresh command's card, which shows all approval markers |
| `DeviceScreens.KeysSpellCommand` | scripts/run_moto_g_device_smoke.py:2400-2466 | the keys sent spell a beginning of the command in lower case |
| `DeviceScreens.NoKeyIff` | scripts/run_moto_g_device_smoke.py:2411-2466 | the key fallback is refused for a supported command exactly when it holds one of five punctuation characters |
| `DeviceScreens.SupportedIff` | scripts/run_moto_g_device_smoke.py:1939-1945 | a command is typed only with 1 to 120 letters, digits, spaces and `.,_:-` |
| `DeviceCommand.Session.FindField` | scripts/run_moto_g_device_smoke.py:1946-2011 | looks for an editable field with at most five swipes; the baseline covers every screen looked at |
| `DeviceCommand.Session.TypeCommand` | scripts/run_moto_g_device_smoke.py:2012-2073 | focus, clear only stale text, type, hide the keyboard, look again; stops at the first failed step |
| `DeviceCommand.Session.TypeKeys` | scripts/run_moto_g_device_smoke.py:2400-2456 | sends the key of each character of the command in order, until one fails |
| `DeviceCommand.Session.EnterCommand` | scripts/run_moto_g_device_smoke.py:2012-2134 | the command is in the last observed field afterwards, or the failure says why not |
| `DeviceCommand.Session.RevealSendControl` | scripts/run_moto_g_device_smoke.py:2135-2185 | at most four swipes; gives up only after all four with Send still not safely visible |
| `DeviceCommand.Session.Poll` | scripts/run_moto_g_device_smoke.py:2260-2371 | one round of the wait: accepts only verified evidence with no approval pending, taps only the lone approval button of the fresh card, swipes only after the screen settled |
| `DeviceCommand.Session.AwaitEvidence` | scripts/run_moto_g_device_smoke.py:2223-2395 | at most wait timeout + 2 looks and three swipes after Send; OK means verified evidence, no approval pending and nothing overlooked; times out only when the whole timeout passed since the first look, with nothing overlooked |
| `DeviceCommand.Session.SubmitAndVerify` | scripts/run_moto_g_device_smoke.py:1923-2395 | against any phone: every action of the run was justified by what was seen and done before it, each swipe and tap by a look right before, OK means the last screen verifies the command, asks for no approval it offers a button for, and nothing was overlooked before; every failure has its stated cause, and swipes and polls stay within their bounds |
| `DeviceCommand.VerifiedIsFresh` | scripts/run_moto_g_device_smoke.py:2271-2328 | an accepted screen shows strictly more of the command than every screen seen before Send |
| `DeviceCommand.VerifiedCardIsNew` | scripts/run_moto_g_device_smoke.py:2271-2328 | accepted evidence holds all markers and lies in a card added since, if some screen before Send showed as many of the command as the earlier cards do now |
| `DeviceCommand.DecisionsHold` | scripts/run_moto_g_device_smoke.py:2271-2337 | each decision of a poll means what the history says: ambiguous, one button of the fresh card, verified, or none of these; it accepts exactly on verified evidence with no approval pending |
| `DeviceCommand.ApprovalTappedIff` | scripts/run_moto_g_device_smoke.py:2273-2328 | an accepted run tapped Approve exactly when some poll showed a lone approval button in the fresh card; never without approval markers or a button; where it did not although the accepted card asks, that card holds no enabled button with the text |
| `DeviceCommand.TappedOnlyIfOffered` | scripts/run_moto_g_device_smoke.py:2273-2316 | in a disciplined history Approve is tapped only where a poll offered it |
| `StaleCard.StaleCardIsAccepted` | scripts/run_moto_g_device_smoke.py:1946-2328 | for any `strip`, `casefold` and `upper` that tell "hi" from a status word as those of Python do: a whole disciplined run that is accepted on a card that was there before Send, with an approval wanted and not tapped |
| `Deadline.BoundedTimeout` | scripts/run_moto_g_device_smoke.py:2499-2513 | no timeout exactly when less than a second per command is left; otherwise all remaining commands together fit before the deadline |
| `Deadline.Adb.LatestUiText` | scripts/run_moto_g_device_smoke.py:2469-2496 | no command can pass the deadline; once the dump was issued and worked, the read is issued too, with at least one second; the nodes are those of that read, or none |
| `Deadline.Adb.Round` | scripts/run_moto_g_device_smoke.py:1850-1863 | one round waits out the interval or reaches the deadline; it sleeps and looks within the deadline, up to the time the look takes by itself |
| `Deadline.Adb.WaitForPairing` | scripts/run_moto_g_device_smoke.py:1825-1876 | OK exactly if the last screen, as read off the phone by the last look, shows the paired link, otherwise the deadline has passed; it ends by the deadline but for the last look, for any interval, also zero or negative, as long as the clock moves; the rounds are at most those that sleeps and looks leave room for |
| `Deadline.PairedIff` | scripts/run_moto_g_device_smoke.py:1905-1913 | a screen counts as paired exactly with the link title, the endpoint and a hub id, without the unconfigured mark, a password field, a pairing or token label, or an input field that shows the endpoint |
| `ConnectionRegistry.Registry.Register` | hub/src/goffy_hub/connections.py:17-19 | the lock section adds the socket to the credential's set and changes nothing else |
| `ConnectionRegistry.Registry.Unregister` | hub/src/goffy_hub/connections.py:21-28 | the lock section drops the socket, and the credential with its last socket |
| `ConnectionRegistry.Registry.Revoke` | hub/src/goffy_hub/connections.py:30-32 | the lock section removes the credential and hands over exactly its sockets |
| `ConnectionRegistry.HandedToOneRevoke` | hub/src/goffy_hub/connections.py:30-32 | a registration is handed to at most one revoke |
| `ConnectionRegistry.StepKeepsInv` | hub/src/goffy_hub/connections.py:13-38 | every step of every task keeps the invariant: one lock holder, a FIFO queue, a log of each run task's request, the map as the log says, closes only after release |
| `ConnectionRegistry.ReachableInv` | hub/src/goffy_hub/connections.py:13-38 | the invariant holds after every run from the empty registry |
| `ConnectionRegistry.RegistryIsLinearizable` | hub/src/goffy_hub/connections.py:17-32 | in every interleaving the lock sections run in the order in which the lock was asked for, each task's request is logged once, the map holds exactly the registrations no later lock section ended, no empty set, and no registration is taken by two revokes |
| `ConnectionRegistry.RevokesCloseWhatTheyTook` | hub/src/goffy_hub/connections.py:30-38 | a returned revoke attempted to close exactly the sockets registered when its lock section ran, whichever closes raised; no lock holder awaits a close |
| `ConnectionRegistry.RevokeCanReturn` | hub/src/goffy_hub/connections.py:34-38 | a revoke that let the lock go can return by its own steps alone, whichever closes raise: open closes end as chosen, finished ones stay, and nothing else changes |
| `ConnectionRegistry.ClosedExactlyOnce` | hub/src/goffy_hub/connections.py:34-38 | in every run no close is started twice or ends unstarted, and a returned revoke closed each socket it took exactly once |
| `ConnectionRegistry.EveryTaskCanFinish` | hub/src/goffy_hub/connections.py:13-38 | no reachable state has a stuck task: each can be brought to its end, a revoke with every close done |
| `ConnectionRegistry.NewTaskCanFinish` | hub/src/goffy_hub/connections.py:13-38 | in every reachable state any request can be made and then served |
| `ConnectionRegistry.HolderFinishes` | hub/src/goffy_hub/connections.py:17-32 | from any reachable state the lock holder can finish with lock steps alone |
| `ConnectionRegistry.WaiterGetsThrough` | hub/src/goffy_hub/connections.py:21-38 | a waiting task gets through its lock section in a number of lock steps fixed by its place in the queue, with every close still pending |
| `SafeText.UnchangedIffNoMatch` | scripts/setup_doctor.py:50-50 | a scan leaves a text as it is exactly when the pattern matches nowhere in it |
| `SafeText.ScanIsFixpoint` | scripts/setup_doctor.py:393-393 | the scanned text has no further match, and a second scan changes nothing |
| `SafeText.ScanKeepsTheRest` | scripts/setup_doctor.py:393-393 | all text outside the replaced runs is kept in order, and each replaced run starts with a slash and holds no stop character |
| `SafeText.PathIsHidden` | scripts/setup_doctor.py:50-50 | an absolute path becomes one mark, up to the first of five stop characters |
| `SafeText.ReplaceAt` | scripts/setup_doctor.py:391-392 | the first occurrence of a root is replaced by its mark, then those after its end |
| `SafeText.RepoIsNamed` | scripts/setup_doctor.py:384-393 | a path below the repository is shown below `<repo>` |
| `SafeText.HomeIsNamed` | scripts/setup_doctor.py:384-393 | a path below the home directory is shown below `<home>` |
| `SafeText.SuffixOfMarkKept` | scripts/setup_doctor.py:384-393 | what follows `<repo>` or `<home>` is kept up to the first slash that can start a match |
| `SafeText.RedactedHidesRoots` | scripts/setup_doctor.py:384-393 | the redacted text holds neither the repository root nor the home directory |
| `SafeText.MarkInRootComesBack` | scripts/setup_doctor.py:384-393 | a root that spells a mark comes back, so the result above needs roots without `<` |
| `SafeText.StagedIsOnePass` | scripts/setup_doctor.py:399-401 | the four staged escapes equal one pass over the characters |
| `SafeText.UnescapeEscaped` | scripts/setup_doctor.py:399-401 | a decoder recovers every escaped text |
| `SafeText.EscapeInjective` | scripts/setup_doctor.py:399-401 | different texts have different escapes |
| `SafeText.StripIff` | scripts/setup_doctor.py:49-49 | stripping takes exactly the sequences of ESC, a bracket, parameters, intermediates and a final character, from left to right, and keeps the rest |
| `SafeText.SafeTextIsReadable` | scripts/setup_doctor.py:396-401 | the output holds no C0 control but tab and no DEL, and decodes to the redacted text without exactly its terminal sequences |
| `SafeText.EscapeOfOne` | scripts/setup_doctor.py:399-401 | a backslash and a line end show as two characters, another control character by two hexadecimal digits, the rest as it is |
| `SafeText.EscapeJoins` | scripts/setup_doctor.py:399-401 | texts are escaped character by character |
| `SafeText.SafeTextShowsPathIff` | scripts/setup_doctor.py:396-401 | the output shows an absolute path exactly when some slash of the redacted text was kept from a match only by a dropped sequence or an escaped character |
| `SafeText.SafeTextShowsRootIff` | scripts/setup_doctor.py:396-401 | the output shows a root, escaped, exactly when the redacted text holds it once its terminal sequences are dropped |
| `SafeText.CleanTextIsSafe` | scripts/setup_doctor.py:384-401 | from a value without an escape character and without a slash directly before an escaped character, the output shows no absolute path and neither root |
| `SafeText.StrippingBringsRootBack` | scripts/setup_doctor.py:397-398 | an input whose dropped terminal sequence makes the root whole again where the path pattern does not match |
| `SafeText.StrippingBringsPathBack` | scripts/setup_doctor.py:397-398 | an input whose dropped terminal sequence uncovers a path, for any repository and home not in it |
| `SafeText.EscapingBringsPathBack` | scripts/setup_doctor.py:399-401 | an input whose escaped line end lets a path begin, for any repository and home not in it |
| `NoFollowWriter.ConfinedOutputPath` | scripts/create_rom_stock_restore_evidence.py:115-147 | accepted parts are non-empty, hold no `..`, lie below the validation directory and pass no link; refused exactly when the check fails or the directory itself is named |
| `NoFollowWriter.AcceptedIff` | scripts/create_rom_stock_restore_evidence.py:115-147 | a path, absolute or from the root, is accepted with these parts exactly if it is `.goffy-validation` and then them, not empty, without `..`, and no entry at or above it is a link |
| `NoFollowWriter.Process.OpenLastDirectory` | scripts/create_rom_stock_restore_evidence.py:154-159 | after the walk only the last directory's descriptor is open, each earlier one was closed once, and every directory passed is a real one |
| `NoFollowWriter.Process.WriteFileAt` | scripts/create_rom_stock_restore_evidence.py:160-164 | the file's descriptor is closed on every path; a link or directory of that name is never written |
| `NoFollowWriter.Process.WriteTextNoFollow` | scripts/create_rom_stock_restore_evidence.py:150-166 | whatever is refused, the descriptor table is as before and each descriptor opened was closed exactly once; success means the text is at the target and nothing else changed; without a refusal it succeeds exactly when the walk meets only directories and no link |
| `NoFollowWriter.Process.MakeDirectories` | scripts/create_rom_stock_restore_evidence.py:134-134 | only missing directories on the way are added; without a refusal it succeeds exactly when no file is in the way |
| `NoFollowWriter.Process.WriteOutput` | scripts/create_rom_stock_restore_evidence.py:132-166 | the whole write: refused paths change nothing, everything beside the target is kept but for new directories above it, the target is as before or holds a first part of the text, descriptors are balanced, and without a refusal it succeeds exactly when nothing blocks the path |
| `UnlockEvidence.CreatedIsWellFormed` | scripts/create_rom_unlock_eligibility_evidence.py:72-115 | what the producer returns meets every rule the loader checks |
| `UnlockEvidence.LoadedIsWellFormed` | scripts/create_rom_unlock_eligibility_evidence.py:224-300 | what the loader accepts meets the same rules |
| `UnlockEvidence.RenderedLoadsBack` | scripts/create_rom_unlock_eligibility_evidence.py:224-300 | well-formed evidence is rendered and loaded without loss |
| `UnlockEvidence.CreatedLoadsBack` | scripts/create_rom_unlock_eligibility_evidence.py:72-300 | round trip: loading what was created returns the same fields |
| `UnlockFields.CreateIff` | scripts/create_rom_unlock_eligibility_evidence.py:72-115 | evidence is created exactly from allowed answers and a readable probe, without sensitive keys, that shows the expected phone |
| `UnlockFields.CreatedSays` | scripts/create_rom_unlock_eligibility_evidence.py:72-115 | it carries the answers, the phone, the time of the probe and the hash of exactly the phone's public fields |
| `UnlockFields.LoadIff` | scripts/create_rom_unlock_eligibility_evidence.py:224-300 | evidence is loaded exactly from an object with only the known keys, none sensitive at any depth, whose phone, binding, answers and times are all valid |
| `UnlockFields.SearchIff` | scripts/validate_rom_manual_gates.py:342-358 | the search for a sensitive key finds one exactly when there is one, at any depth |
| `EvidenceKeys.UnmarkedIsHarmless` | scripts/validate_rom_manual_gates.py:20-37 | a text without one of ten letter pairs holds none of the sixteen sensitive terms |
| `UnlockEvidence.WrittenKeysAreHarmless` | scripts/validate_rom_manual_gates.py:342-358 | no key that the evidence writes or reads from a probe holds a sensitive term |
| `UnlockEvidence.NoSensitiveKey` | scripts/create_rom_unlock_eligibility_evidence.py:228-232 | rendered evidence never trips the search for sensitive keys |
| `UnlockEvidence.ProbeBlockers` | scripts/create_rom_unlock_eligibility_evidence.py:334-386 | the blockers are exactly those that apply, and none exactly when target, hash, path and the three times agree within a day |
| `UnlockEvidence.CurrentIffNothingApplies` | scripts/create_rom_unlock_eligibility_evidence.py:334-386 | the evidence is current for a probe exactly when no blocker applies |
| `UnlockEvidence.CreatedIsCurrentIff` | scripts/create_rom_unlock_eligibility_evidence.py:72-386 | fresh evidence is current for its own probe exactly when 0 to 24 hours passed since the probe |
| `UnlockEvidence.SampleIsRefused` | scripts/create_rom_unlock_eligibility_evidence.py:334-386 | a probe from which evidence is made, and refused for that probe, a microsecond before it and a day and a microsecond after |
| `Rom0Packet.NoProbeBlockersIff` | scripts/create_rom0_manual_action_packet.py:622-652 | the probe has no blockers exactly when it is ok, lists none, and shows the expected unlocked device with all six fields |
| `Rom0Packet.ProbeReadinessBlockers` | scripts/create_rom0_manual_action_packet.py:622-652 | the growing list is the probe's own blockers followed by its objections, none repeated |
| `Rom0Packet.BlockedReasons` | scripts/create_rom0_manual_action_packet.py:655-678 | no reason exactly when all five kinds of evidence are ready and the probe has no blocker; each missing kind has its own reason after those of the probe |
| `Rom0Packet.PacketAgrees` | scripts/create_rom0_manual_action_packet.py:134-211 | status, `blocked_by` and the readiness action agree: ready, empty and empty exactly when all evidence is ready; blocked exactly without unlock or stock evidence |
| `BootloaderGuide.GuideOkIff` | scripts/create_rom_bootloader_visibility_guide.py:98-170 | the guide is ok exactly when it lists no blocker, and exactly when the file holds valid evidence of the visible bootloader; missing and invalid files are told apart |
| `BootloaderGuide.PacketAndGuideAgree` | scripts/create_rom_bootloader_visibility_guide.py:127-156 | on one file the packet counts fastboot as ready exactly when the guide shows the bootloader and the evidence names version and device |
| `Rom0Report.Unique` | scripts/refresh_rom0_action_packet.py:499-507 | the deduplicated blockers are the same set, none repeated, and empty only if there were none |
| `Rom0Report.GeneratedReadsBack` | scripts/refresh_rom0_action_packet.py:476-482 | the status text put into a detail is read back from it |
| `OperatorChecklist.EvidenceInputs` | scripts/create_rom0_operator_checklist.py:544-558 | the dictionary holds the last status of each name, its keys in order of first occurrence |
| `OperatorChecklist.ChecklistBlockers` | scripts/create_rom0_operator_checklist.py:196-228 | no blocker exactly when the report is refreshed, lists none, has no invalid input and every readiness holds; each cause has its own blocker, none repeated |
| `OperatorChecklist.BuildChecklist` | scripts/create_rom0_operator_checklist.py:102-182 | the checklist is ok exactly when the report is ready and confirms every readiness; then it lists no blocker; its steps are those of what was read off the report |
| `OperatorChecklist.InOrderIff` | scripts/create_rom0_operator_checklist.py:231-541 | when every ready step has the steps it must follow done: never with a ready review, nor in two further named cases |
| `Rom0Refresh.LookupsAgree` | scripts/refresh_rom0_action_packet.py:492-496 | the report's first-entry lookup and the checklist's last-entry dictionary agree on inputs with different names |
| `Rom0Refresh.PendingReadyIff` | scripts/refresh_rom0_action_packet.py:260-298 | the pending report is ready exactly when the evidence is complete and the guide was written |
| `RomReadiness.CompleteIff` | scripts/create_rom0_manual_action_packet.py:622-678 | the packet is ready for review exactly when the probe shows the unlocked phone with all fields and each of the five kinds of evidence has the fields asked for |
| `RomReadiness.ReportVerdict` | scripts/refresh_rom0_action_packet.py:260-298 | the report is ok, and its status says so, exactly with complete evidence, a written guide and a published checklist; it has errors exactly with an invalid input or without a phone |
| `RomReadiness.StepsShow` | scripts/create_rom0_operator_checklist.py:231-541 | what every step of the checklist of a refresh shows, over the request; the destructive step is always blocked |
| `Rom0Refresh.ManualCheckHasEvidence` | scripts/create_rom0_operator_checklist.py:284-525 | on the checklist of a refresh the manual bootloader check is never asked for before the host evidence it must follow |
| `Rom0Refresh.PendingInOrderIff` | scripts/create_rom0_operator_checklist.py:231-541 | the checklist of a refresh shows its steps in order exactly when it is not ready for review and no step is asked for ahead of missing stock restore evidence |
| `SampleRefreshes.LastRequestIsReady` | scripts/refresh_rom0_action_packet.py:131-257 | a request in full whose evidence is complete, unlock evidence created from its own probe |
| `SampleRefreshes.OrderFailsOnRefreshes` | scripts/create_rom0_operator_checklist.py:231-541 | the refresh with nothing recorded and the one with everything recorded show a step before the one it must follow |
| `Rom0Refresh.ChecklistConfirmsReport` | scripts/create_rom0_operator_checklist.py:102-228 | the checklist built from the pending report is ok exactly when that report is ready, although it derives readiness from statuses, a blocker text and the guide's status text |
| `Rom0Refresh.FinalAgrees` | scripts/refresh_rom0_action_packet.py:223-242 | the report with the checklist's entry is as ready as the pending one if the checklist is loaded, and not ready if it is invalid |
| `Rom0Refresh.FinalReadsTheSame` | scripts/refresh_rom0_action_packet.py:223-242 | the checklist's own entry changes nothing the checklist reads off the report |
| `Rom0Refresh.Workspace.RemoveChecklist` | scripts/refresh_rom0_action_packet.py:466-473 | exactly the two checklist files are gone |
| `Rom0Refresh.Workspace.GenerateGuide` | scripts/refresh_rom0_action_packet.py:360-386 | every refusal becomes an invalid entry; a loaded entry names the status of the guide for the packet's file, and both guide files are there; report and checklist files are untouched |
| `Rom0Refresh.Workspace.WriteChecklist` | scripts/refresh_rom0_action_packet.py:422-463 | both files with the report's verdict and steps, or neither and a saved report that is not ready, or an exception and neither |
| `Rom0Refresh.Workspace.Refresh` | scripts/refresh_rom0_action_packet.py:131-257 | for every pattern of refused writes the disk stays consistent; on return the saved report is the returned one but for its time, it is built from the request's evidence, and the checklist files are there exactly when it lists them and carry its verdict and steps, which it also spells out; the probe and both packet files are there; without a refusal it is ready exactly with complete evidence |
| `ImageAudit.TotalIsLength` | scripts/create_tflite_task_text_export_image_audit_evidence.py:212-235 | the six counts add up to the number of findings counted |
| `ImageAudit.DigestOfPinned` | scripts/create_tflite_task_text_export_image_audit_evidence.py:312-312 | for a pinned image the part after the last `@` is its 71-character digest |
| `ImageAudit.AddStringList` | scripts/create_tflite_task_text_export_image_audit_evidence.py:292-301 | the identities gain exactly the non-blank strings of the list, stripped |
| `ImageAudit.ParseTrivy` | scripts/create_tflite_task_text_export_image_audit_evidence.py:199-235 | the counts tally the severities of all findings in well-typed results, and every malformed result or unknown severity is a blocker at its place |
| `ImageAudit.ParseGrype` | scripts/create_tflite_task_text_export_image_audit_evidence.py:238-265 | the counts tally one severity for each match, and every malformed match or unknown severity is a blocker at its place |
| `ImageAudit.TrivyCleanIff` | scripts/create_tflite_task_text_export_image_audit_evidence.py:199-235 | no blocker and no blocking severity exactly when every result is well typed and every finding low or negligible |
| `ImageAudit.GrypeCleanIff` | scripts/create_tflite_task_text_export_image_audit_evidence.py:238-265 | the same for the matches of a Grype report |
| `ImageAudit.ParseReport` | scripts/create_tflite_task_text_export_image_audit_evidence.py:175-196 | Grype only when it is named; in every other case the Trivy result, also a refused one |
| `ImageAudit.CountsSumToFindings` | scripts/create_tflite_task_text_export_image_audit_evidence.py:199-265 | the counts of a parsed report sum to the number of its findings |
| `ImageAudit.IdentityBlockers` | scripts/create_tflite_task_text_export_image_audit_evidence.py:304-316 | no blocker exactly when the report names the image or its digest |
| `ImageAudit.BuildReport` | scripts/create_tflite_task_text_export_image_audit_evidence.py:55-135 | evidence is issued exactly for a pinned image, a supported scanner and a clean report that names the image, and carries that scan's identities and counts, with no blocking finding; exactly a file that is not UTF-8, and in one case a `null` payload, end it in an uncaught error |
| `ImageFindings.SeverityIsRead` | scripts/create_tflite_task_text_export_image_audit_evidence.py:319-332 | the severity of a finding is its text under `Severity`, else under `severity`, normalised; any other text is unknown |
| `ImageFindings.CleanIffSafe` | scripts/create_tflite_task_text_export_image_audit_evidence.py:94-135 | evidence can be issued exactly for a report whose findings all say low or negligible and that names the image or its digest, over the JSON of either scanner |
| `ImageFindings.SeriousIsRefused` | scripts/create_tflite_task_text_export_image_audit_evidence.py:94-135 | one critical, high or medium finding and no evidence is issued |
| `ImageFindings.TrivyCountsAreSaid` | scripts/create_tflite_task_text_export_image_audit_evidence.py:199-235 | the low and negligible counts of issued evidence are the numbers of findings that say so, and there are no others |
| `ImageFindings.GrypeCountsAreSaid` | scripts/create_tflite_task_text_export_image_audit_evidence.py:238-265 | the same for Grype matches, where the vulnerability's text goes before the match's |
| `ImageFindings.PinnedIff` | scripts/create_tflite_task_text_export_image_audit_evidence.py:67-67 | a pinned image is a name without `@` or space, `@sha256:` and 64 hexadecimal digits |
| `ImageFindings.EvidenceReadsBack` | scripts/create_tflite_task_text_export_image_audit_evidence.py:124-135 | scanner, identities, report and hash are written as they are |
| `ImageAudit.VerifyEvidence` | scripts/run_tflite_task_text_model_maker_docker.py:297-319 | the objections are exactly those that apply, and none exactly when schema, image, ok flag and three zero counts are as required; exactly a file that is not UTF-8 or a payload that is no object has no answer |
| `ImageFindings.RunnerAcceptsIff` | scripts/run_tflite_task_text_model_maker_docker.py:297-319 | the runner accepts exactly the schema, the image, `ok` and three counts that are 0 or `False` |
| `ImageAudit.IssuedIsAcceptedForItsImage` | scripts/run_tflite_task_text_model_maker_docker.py:297-319 | issued evidence is accepted for the image it was issued for and for no other |

## Left out

- Android/Kotlin app, MCP transport, QR drawing, training scripts, HTTP and Docker calls: not part of this model.
- XML parsing, JSON text, SHA-256, datetime parsing, `strip`, `lower`, case folding, Unicode classes and `str()`: function parameters with the law each proof names.
- `validate_fastboot_evidence` and the GSI, DSU and stock loaders: their results are parameters; the same fastboot result feeds packet and guide.
- The search for forbidden commands in rendered packets, guides and checklists: a parameter for each of the three.
- Concurrent change of files during one call: not modelled; `resolve()` is fixed during an import.
- Platforms without `O_NOFOLLOW`, hard links, and writes that report fewer bytes than asked: not modelled; `os.close` and `unlink` do not fail.
- Cancellation of tasks and the fairness of the event loop: the lock is FIFO and a progress result names the steps, it does not claim they are scheduled.
- Deadline.Adb.WaitForPairing: asks that every round moves the clock, by a positive interval or by the time each look takes, because `time.monotonic` moves on its own only as that time; with a non-positive interval the wait polls without sleeping and its rounds are bounded only by that.
- SafeText.RedactedHidesRoots: asks for absolute roots without `<`; `MarkInRootComesBack` has a root with one that is not hidden.
- AospImport.RetryGetsPastFault: the partly written file the source leaves is modelled as it is; no repair is claimed.
- SafeText.SafeTextIsReadable: says nothing of C1 control characters, which the source passes through.
- Text of blockers in the unlock, audit and error lists: named cases instead of sentences; those of packet, guide and checklist are constants, of whose wording nothing is stated.
- Pauses between device commands: taken as the source takes them, but only the second after each poll and the one before the first look after Send are stated.
- Tap positions, screenshots, artifacts and log files of the device run: not modelled, nor the geometry of very short controls.
- The device-map, memory and hub-link runs beside the normal command run: the same helpers in a fixed order.
- Packet and guide action lists, Markdown and step texts: constant data.
- Refresh schema checks, display paths and `destructive_actions`: constants that always pass for a report built by the refresh.
- Reading a refresh report or writing audit evidence from the command line: file plumbing around the modelled functions.
- JSON numbers with fractions: a count of `0.0` is refused by the source and has no value in the model.
