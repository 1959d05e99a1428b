# Data-loss-prevention agent: a verified model

The agent decides which files may be read from or written to removable media, network drives and optical discs,
which processes may start, and what gets logged. This project models its hard core in Dafny and proves what that
core keeps over all inputs, all interleavings and all runs.

| file | what it models |
|---|---|
| `CStrings.dfy` | bytes and C strings, the searchers `sms_strnstr` and `sms_strstr`, and the path-prefix test built on them |
| `DrvKext.dfy`, `Refetch.dfy` | the enforcement tables, the derived table `CtrlDeviceEx`, the file decisions, and what mount changes do to them |
| `SecRule.dfy` | device rules and their compilation into the records the kernel side reads |
| `Policies.dfy`, `PolicyMan.dfy`, `Emitters.dfy` | DLP policies, their translation, the rules in force, and when both emitters agree |
| `Precedence.dfy`, `EndToEnd.dfy` | which removable-drive rule wins, and what it means for a file |
| `DiscsAndShares.dfy` | the bits of media control, and what they mean for discs and network shares |
| `ApprovalRewrite.dfy` | offline mode: approvals become blocks |
| `DeviceLog.dfy`, `LogPipeline.dfy` | the 60-second duplicate filter and the threaded log pipeline around it |
| `EventQueue.dfy`, `Heartbeat.dfy` | the event loop, and the registration and heartbeat machine |
| `MkPath.dfy`, `CupsReader.dfy` | the in-place `mkdir -p` and the buffered line reader |
| `IpcCodec.dfy` | the `CIPCMessage` wire format |
| `AppControl.dfy` | hexadecimal patterns, chunked binary search, and process verdicts |

Code that changes state in place is modelled by classes whose methods are proved against specification functions
(`Kext` against `Apply`, `Disk.MkPathNp` against `Result`, `CupsFile.Gets` against `GetLine`, `DeviceLogProcess`
against `Next`); what the agent promises is then proved about those functions.

## What came out

Where something one would expect holds only under a condition, the condition is proved to be the exact one.

- `sms_strstr` finds the first match in every text iff each recurrence of the token's first character starts a
  suffix of the token that is also a prefix of it. The empty token is never found, not even in the empty text.
- The derived table agrees with a recomputation after every operation except two: clearing the volumes while the
  table holds entries, and seeing a known device on another bus, which appends a second entry behind the old one; this
  does no harm iff there is no old entry and the new one, if any, equals every entry behind its place.
  "Known" is a prefix test: the new device name need only be a prefix of a recorded one.
- On Linux every mount change fetches the volumes anew and rebuilds nothing: the old entries stay and govern first, a new
  set of entries goes behind them, and a table that held any entry never agrees afterwards. The 36 places of the table
  are used up after a number of mount changes that is computed exactly; the next policy message repairs everything.
- An exception list with more than 26 entries counts as no exceptions at all.
- The Finder-type bypass of the read check answers `KAUTH_RESULT_DEFER` (3) from a function of boolean type.
- The two rule emitters agree, whatever the device rules are, iff every media policy in force is typed as control, and
  either no CopyEx policy is in force, or all copy policies in force are typed prevent-plus, or a single mistyped CopyEx
  policy is the only copy policy in force and nothing in force precedes it. A copy policy typed as control beside a
  well-typed CopyEx policy is in force but not written.
- Media control and a shared-folder policy can silence each other: when media control blocks network drives but no
  removable access, and no copy policy comes before the shared-folder policy, neither has a rule in force and shares are
  free. Which of the two decides in all other cases is stated exactly.
- The CopyEx form of the approval rewrite tests the found verdict twice and never the not-found one, so it removes the
  approvals of a control iff an inspecting control does not ask approval for what was not found. What saves the
  offline mode is that parsing already reads every CopyEx approval as a block.
- A CopyEx policy keeps its device rule through that rewrite unless sections save logs and all that do lose them; `LosesLog`
  says exactly which do, and no section that was parsed is among them.
- `erase` deletes every row with the same time and sequence number; it loses exactly the row it was meant for iff no
  other row shares its key. Sequence numbers restart with the process.
- `_mkpath_np` reports EEXIST for a directory it has just made iff the path ends with a slash and the parent
  directory was missing too.
- The line reader merges a line that ends in CR with an empty LF-ended line behind it, cuts longer lines at the size of
  its buffer, and reads a line that fills the buffer with an empty one behind it. Lines shorter than that come back
  exactly iff no such pair is among them; for lines of any length the exact condition is `ReadsBack`.
- The chunked pattern search misses exactly the patterns all of whose occurrences straddle two reads.
- After an undisturbed unregistration the supervisor ends up online iff it was offline with a change to online queued
  last. Over every run it heads for online with neither an agent nor a heartbeat iff the last action that was no tick and
  no handling of a queued change is one of `Abandons`: an unregistration or the stop of the heartbeat overtaking such a
  change, an on/offline message asking for online with nobody there, or a registration or TTL message without a process
  id. Two steps suffice: such a message at the start, and its handling.
- The silence of an agent just heard of while online is ever noticed iff the heartbeat runs, that is, iff some start of
  it was not followed by a stop. A TTL message registers an agent without starting the heartbeat, and an agent that
  registers while the heartbeat is being stopped is left without one.

## Model

| member | source | states |
|---|---|---|
| CStrings.SmsStrnstr | main/PIKern/SmartCmd.cpp:1370-1396 | for a non-empty token the first occurrence lying wholly in the first n characters, or none if there is none; the empty token is found at 0 |
| CStrings.PrefixTest | main/PIKern/kauth_listener.cpp:392-415 | a bounded search with the token's own length succeeds iff the token is a prefix, and with the look at the next character iff the volume path is the file path or an ancestor of it at a slash |
| CStrings.IsUnderBase | main/PIKern/kauth_listener.cpp:392-415 | the path test of the decision functions answers exactly that |
| CStrings.SmsStrstr | main/PIKern/SmartCmd.cpp:1329-1367 | the pointer loop equals the forward scan, and any position it returns starts a full match |
| CStrings.StrstrExact | main/PIKern/SmartCmd.cpp:1329-1367 | the scan yields the first match or none, in every text, iff every recurrence of the token's first character starts a suffix that is also a prefix |
| CStrings.ScanMisses | main/PIKern/SmartCmd.cpp:1329-1367 | for any other token, the text that misses: the token's start repeated before the token |
| CStrings.DistinctFirstIsRestartable | main/PIKern/SmartCmd.cpp:1329-1367 | a token whose first character does not recur is searched correctly |
| DrvKext.Kext.PolicyApply | main/PIKern/SmartCmd.cpp:1116-1131 | the table grows by the entry iff one of its four flags is on |
| DrvKext.Kext.ExceptSearch | main/PIKern/SmartCmd.cpp:1260-1277 | the first exception entry with that mount path, letter case aside |
| DrvKext.Kext.UpdateDriveName | main/PIKern/SmartCmd.cpp:1134-1233 | the table grows by the volume's resolution: its exception, else its first bus-compatible policy, if a flag is on |
| DrvKext.Kext.PolicyUpdate | main/PIKern/SmartCmd.cpp:1236-1257 | from any state, the table becomes the recomputation over all volumes |
| DrvKext.Kext.SetDrivePolicy | main/PIKern/SmartCmd.cpp:153-212 | the policy list is replaced, the table rebuilt, and the two Bluetooth flags say whether some Bluetooth entry asks for them |
| DrvKext.Kext.SetExceptDrivePolicy | main/PIKern/SmartCmd.cpp:217-249 | the exceptions are replaced, all of them zeroed when there are more than 26, and the table rebuilt |
| DrvKext.Kext.SearchKnown | main/PIKern/PISecSmartDrv.c:360-428 | the first recorded volume whose device name the new one is a prefix of |
| DrvKext.Kext.VolumeUpdate | main/PIKern/PISecSmartDrv.c:360-428 | a new volume is added and resolved, a known one on the same bus is left alone, on another bus it is changed and resolved again behind its old entry |
| DrvKext.SeenVolumes | main/PIKern/PISecSmartDrv.c:360-428 | what the volumes are after one was seen: the first whose device name starts with the new one takes the new mount path and bus type if the bus type is new; without one the volume is appended |
| DrvKext.Kext.VolumeClear | main/PIKern/PISecSmartDrv.c:430-444 | all volumes are gone and the table is as before |
| DrvKext.Kext.FetchVolumes | main/PIKern/KextDeviceNotify.cpp:34-38 | the volumes are cleared and those mounted are seen one by one, with no rebuild |
| DrvKext.StepAgreement | main/PIKern/SmartCmd.cpp:1116-1277 | an operation on an agreeing state keeps the table equal to the recomputation iff it is not one of the disturbing ones |
| DrvKext.ChangeAgreement | main/PIKern/PISecSmartDrv.c:360-428 | a bus change keeps agreement iff the old volume had no entry and the new one, if any, equals every later entry |
| DrvKext.RunAgreement | main/PIKern/SmartCmd.cpp:1236-1257 | over any run not disturbed since its last rebuild the table agrees and holds no more entries than there are volumes |
| DrvKext.TooManyExceptsAreNone | main/PIKern/SmartCmd.cpp:217-249 | with more than 26 exceptions no mounted volume has one |
| DrvKext.ExceptionDecides | main/PIKern/SmartCmd.cpp:1134-1150 | with up to 26 exceptions the first one with the mount path of a volume, in any letter case, decides there by its four flags, before every policy |
| Refetch.FetchIsRun | main/PIKern/KextDeviceNotify.cpp:34-38 | a fetch is the run of one clearing and one update for each volume |
| Refetch.FetchAppends | main/PIKern/KextDeviceNotify.cpp:34-38 | for any volumes, a fetch leaves the old table in place and appends what it would put into an empty one |
| Refetch.OldEntriesGovern | main/PIKern/PIESF.cpp:163-177 | a path with a governing entry keeps it through a mount change, and only other paths see the new entries |
| Refetch.FetchUnrelated | main/PIKern/PISecSmartDrv.c:360-428 | when no device name is a prefix of an earlier one, what is appended is a whole recomputation |
| Refetch.StaleNeverAgrees | main/PIKern/PIESF.cpp:163-177 | whatever is mounted, a table that held an entry does not agree after a mount change |
| Refetch.FetchAgreesExactly | main/PIKern/PIESF.cpp:163-177 | with unrelated volumes it agrees iff it was empty |
| Refetch.FetchesStack | main/PIKern/PIESF.cpp:163-177 | mount changes stack one recomputation upon the other |
| Refetch.RefetchesFitExactly | main/PIKern/SmartCmd.cpp:1116-1131 | how many mount changes with the same volumes fit the table, exactly |
| Refetch.RebuildRepairs | main/PIKern/SmartCmd.cpp:1236-1257 | the next policy or exception message makes the table agree again |
| DrvKext.Kext.Search | main/PIKern/kauth_listener.cpp:392-415 | the first table entry whose volume covers the path |
| DrvKext.Kext.BlockRead | main/PIKern/kauth_listener.cpp:308-376 | denied iff the governing entry blocks all or reads and the path is not in an allowed folder; deferred for the Finder-type bypass; the log parameter is that entry's or unchanged |
| DrvKext.ReadBypassExactly | main/PIKern/kauth_listener.cpp:338-366 | the bypass is for a path of "/Volumes/" and one name, and the three processes by the start of their names in any letter case |
| DrvKext.Kext.BlockWrite | main/PIKern/kauth_listener.cpp:379-431 | denied iff the governing entry blocks all, or blocks writes with the block-write-all mark, outside allowed folders |
| DrvKext.Kext.AllowWrite | main/PIKern/kauth_listener.cpp:434-477 | allowed iff the governing entry blocks neither reads nor writes, with the log parameter that entry calls for |
| DrvKext.Kext.CopyPrevent | main/PIKern/kauth_listener.cpp:533-571 | scanned iff the governing entry blocks writes without the mark, outside allowed folders |
| DrvKext.Kext.CheckContents | main/PIKern/kauth_listener.cpp:252-305 | a written file is scanned, deleted or accepted exactly as its one governing entry, its size and the scanner's answer say |
| SecRule.SecRuleObject.GetData | main/PISupervisor/common/src/DLPPolicy.cpp:165-243 | the record after the call, as a function of the rule and of what the record held |
| SecRule.RecordNames | main/PISupervisor/common/src/DLPPolicy.cpp:165-236 | the code and name of each kind of record, its flags, and the mark of a floppy rule |
| SecRule.ApplyPolicyDrive | main/PISupervisor/src/PIDeviceMan.cpp:217-275 | one record per drive rule in order with block-all off, or the single clearing floppy record when there is none |
| SecRule.NothingApplies | main/PISupervisor/src/PIDeviceMan.cpp:217-245 | something is always sent, and without a drive rule it applies to no volume |
| SecRule.CompiledBluetooth | main/PIKern/SmartCmd.cpp:192-208 | the two Bluetooth flags are set iff some Bluetooth rule is for selected devices, or logs |
| SecRule.FirstRecordOfType | main/PIKern/SmartCmd.cpp:1182-1228 | on USB-like buses, on ATAPI and on shared folders the first compatible record is that of the first removable, disc or network-drive rule |
| SecRule.OtherBusesAreFree | main/PIKern/SmartCmd.cpp:1182-1228 | on any other bus no record applies |
| SecRule.UsbPolicyIsFirstRemovable | main/PISupervisor/src/PIDeviceMan.cpp:247-275 | on a USB-like bus the first compatible record is that of the first removable-drive rule |
| SecRule.RemovableMeaning | main/PISupervisor/common/src/DLPPolicy.cpp:165-243 | the record of a removable rule denies reads, denies writes, scans or allows exactly as the rule says, and the three write outcomes exclude each other |
| SecRule.ShareMeaning | main/PISupervisor/common/src/DLPPolicy.cpp:196-206 | a network-drive rule means the same for a share |
| SecRule.DiscMeaning | main/PISupervisor/common/src/DLPPolicy.cpp:165-243 | a disc rule denies what it blocks, and nothing on a disc is scanned |
| SecRule.EntryOfRule | main/PIKern/SmartCmd.cpp:1116-1131 | there is an entry iff the rule logs or blocks something, it logs iff the rule does, and it carries the mount path |
| SecRule.GoverningOnVolume | main/PIKern/SmartCmd.cpp:1134-1233 | on a volume of any of the three kinds the first rule meant for it governs, or a later volume |
| SecRule.GoverningOnUsbVolume | main/PIKern/SmartCmd.cpp:1134-1233 | the same for removable drives: the governing entry is that of the first removable rule, or of a later volume when that rule has no flag on |
| PolicyMan.PolicyManager.BuildRules | main/PISupervisor/src/PIPolicyMan.cpp:525-542 | every used policy builds its rule, unused ones stay |
| PolicyMan.PolicyManager.DisableCopyByMedia | main/PISupervisor/src/PIPolicyMan.cpp:568-655 | when the first used media policy controls the bit, every used copy policy gets disabled, and nothing else changes |
| PolicyMan.PolicyManager.DisableSharedFolderByMedia | main/PISupervisor/src/PIPolicyMan.cpp:568-655 | only the first used shared-folder policy gets disabled, when the media policy controls network drives |
| PolicyMan.PolicyManager.ValidateMediaRules | main/PISupervisor/common/src/DLPPolicy.cpp:1461-1481 | the in-place erase loop drops exactly the removable rules beside a copy policy and the network-drive rules beside a shared-folder policy |
| PolicyMan.PolicyManager.FindPreventPlus | main/PISupervisor/src/PIPolicyMan.cpp:1072-1099 | whether a copy policy is used, and whether a shared-folder policy is used before the first of them |
| PolicyMan.PolicyManager.DisableMediaByPreventPlus | main/PISupervisor/src/PIPolicyMan.cpp:1072-1138 | only the first used media policy is changed, only when it blocks no removable access, by the erase loop |
| PolicyMan.PolicyManager.TranslateList | main/PISupervisor/src/PIPolicyMan.cpp:510-566 | the passes one after the other equal the one-pass translation of each policy |
| PolicyMan.PolicyManager.TranslatePolicy | main/PISupervisor/src/PIPolicyMan.cpp:90-104 | both mode lists are translated |
| PolicyMan.PolicyManager.ChangeMode | main/PISupervisor/src/PIActionOnChangeOnOfflineMode.cpp:18-34 | the mode is switched and both lists are translated again |
| PolicyMan.PolicyManager.GetCurrentRule | main/PISupervisor/src/PIPolicyMan.cpp:670-741 | the CopyEx rule in force first, then each policy's contribution in list order; the answer says whether there is any |
| PolicyMan.PolicyManager.MakeDeviceRuleXml | main/PISupervisor/src/PIPolicyMan.cpp:407-488 | the rules written for one mode, in document order |
| Emitters.EmittersAgreeExactly | main/PISupervisor/src/PIPolicyMan.cpp:407-488 | both emitters give the same rules for every assignment of device rules iff the types in force allow it: the condition named above |
| Emitters.EmittersAgree | main/PISupervisor/src/PIPolicyMan.cpp:670-741 | on well-typed lists the document holds exactly the rules in force, in the same order |
| Emitters.EmittersDisagreeOnMixedTypes | main/PISupervisor/src/PIPolicyMan.cpp:249-266 | an instance of the other side, with the rules translation really builds: the mistyped copy policy's rule is in force and not written |
| PolicyMan.TranslationIdempotent | main/PISupervisor/src/PIPolicyMan.cpp:90-104 | translating again, as every mode change does, changes nothing |
| Precedence.RemovableCount | main/PISupervisor/src/PIPolicyMan.cpp:525-655 | for every loaded list, the exact number of removable rules in force |
| Precedence.CopyExAfterTranslation | main/PISupervisor/src/PIPolicyMan.cpp:568-655 | the CopyEx policy in force is the first used one, unless media control blocks removable access |
| Precedence.SoleRemovableRule | main/PISupervisor/src/PIPolicyMan.cpp:670-741 | with one media and one copy policy at most, exactly one removable rule is in force: media's if it blocks or stands alone, else that of the policy `getCurrentDLPPolicy` returns |
| Precedence.CurrentCopyPolicyIsFirst | main/PISupervisor/src/PIPolicyMan.cpp:753-810 | on loaded lists the current copy policy is the first used one of its subtype, and it exists iff a copy policy is used |
| EndToEnd.DecisionsFollowSoleRule | main/PIKern/kauth_listener.cpp:308-570 | from the loaded policies of a mode to the file: on a USB volume every decision is the one the sole removable rule calls for, and a rule with no flag on leaves it to the later volumes |
| EndToEnd.DecidedWhenApart | main/PIKern/kauth_listener.cpp:392-415 | a volume decides about the paths under it that lie under no earlier volume and no exception entry |
| EndToEnd.StickIsReadBlocked | main/PIKern/kauth_listener.cpp:308-376 | a system with one stick and one media policy meets all the assumptions of the end-to-end theorem, and reading the stick's files is denied |
| EndToEnd.MediaControlPrevails | main/PISupervisor/common/src/DLPPolicy.cpp:1249-1356 | under a blocking media policy reads and writes are denied by its two bits, and nothing is scanned or let through, whatever copy policies there are |
| EndToEnd.PlainCopyScans | main/PISupervisor/common/src/DLPPolicy.cpp:531-556 | under a plain copy policy without the block-write-all option contents are scanned, and nothing is denied or let through unscanned |
| EndToEnd.PlainCopyBlocks | main/PISupervisor/common/src/DLPPolicy.cpp:531-556 | with the block-write-all option a plain copy policy denies writing iff some verdict in use is not to allow, and scans nothing |
| EndToEnd.CopyExDecides | main/PISupervisor/common/src/DLPPolicy.cpp:631-649 | what a CopyEx policy means for reading, writing and scanning, with and without the option, by its sections |
| EndToEnd.OtherRulesInForce | main/PISupervisor/common/src/DLPPolicy.cpp:467-470 | every used shared-folder, upload, print, clipboard and application policy has its one rule in force, unless it is the shared-folder policy that media control disables |
| DiscsAndShares.MediaRulesFollowBits | main/PISupervisor/common/src/DLPPolicy.cpp:1249-1356 | a media policy emits its rules in one order, and each blocks exactly what its own bit says |
| DiscsAndShares.StorageRulesInForce | main/PISupervisor/src/PIPolicyMan.cpp:670-741 | for every loaded list, the disc rules and the network-drive rules in force, in order |
| DiscsAndShares.DiscDecisions | main/PIKern/kauth_listener.cpp:308-570 | on a disc reading is denied iff the first used media policy has the read bit, writing iff it has the write bit, and nothing is scanned |
| DiscsAndShares.ShareDecisions | main/PIKern/kauth_listener.cpp:308-570 | on a share the first network-drive rule in force decides |
| DiscsAndShares.SharedFolderDecidesExactly | main/PISupervisor/src/PIPolicyMan.cpp:1072-1138 | with one media and one shared-folder policy, exactly when shares are under which of them, and when under neither |
| ApprovalRewrite.PreventPlusPolicy.ChangePlain | main/PISupervisor/common/src/DLPPolicy.cpp:425-465 | controls and both logs become the rewritten ones |
| ApprovalRewrite.PlainRewriteExact | main/PISupervisor/common/src/DLPPolicy.cpp:425-465 | no active approval is left, active verdicts are the old ones with approval read as block, inactive ones stay |
| ApprovalRewrite.ConditionsConserved | main/PISupervisor/common/src/DLPPolicy.cpp:425-465 | no log condition is lost between the two logs, and in inspection mode none appears |
| ApprovalRewrite.ConditionsFollow | main/PISupervisor/common/src/DLPPolicy.cpp:440-459 | with inspection, the found and the not-found log condition each go over to the block log iff their verdict was approval, and all other bits stay |
| ApprovalRewrite.AllConditionsFollow | main/PISupervisor/common/src/DLPPolicy.cpp:428-438 | without inspection all three conditions go over iff approval was asked and the allow log has any |
| ApprovalRewrite.PlainIdempotent | main/PISupervisor/common/src/DLPPolicy.cpp:425-465 | a second rewrite changes nothing |
| ApprovalRewrite.CopyRuleKept | main/PISupervisor/common/src/DLPPolicy.cpp:531-556 | the device rule of a copy policy is the same before and after |
| ApprovalRewrite.ParseControl | main/PISupervisor/common/src/DLPPolicy.cpp:1869-1901 | each verdict is to block iff the last child with its key says "block" or "approval", and to allow otherwise |
| ApprovalRewrite.ChangeControl | main/PISupervisor/common/src/DLPPolicy.cpp:1955-1979 | the found or the uninspected verdict is rewritten, the not-found one never |
| ApprovalRewrite.ControlRewriteExact | main/PISupervisor/common/src/DLPPolicy.cpp:1955-1979 | a control asks no approval afterwards iff it is not an inspecting one that asks approval for what was not found |
| ApprovalRewrite.ApprovalSurvives | main/PISupervisor/common/src/DLPPolicy.cpp:1955-1979 | a control the rewrite leaves asking |
| ApprovalRewrite.GetControlCount | main/PISupervisor/common/src/DLPPolicy.cpp:1980-2009 | the three tallies are the true counts of the active verdicts |
| ApprovalRewrite.TalliesConserved | main/PISupervisor/common/src/DLPPolicy.cpp:1980-2009 | over any list, approvals are recounted as blocks except the not-found ones, and each category keeps its sum |
| ApprovalRewrite.ValidateWithUninspected | main/PISupervisor/common/src/DLPPolicy.cpp:2182-2202 | the logs after approvals have become blocks, without inspection |
| ApprovalRewrite.ValidateAt | main/PISupervisor/common/src/DLPPolicy.cpp:2204-2307 | the same for the found and for the not-found condition |
| ApprovalRewrite.RecordsFollow | main/PISupervisor/common/src/DLPPolicy.cpp:2204-2307 | what the allow log recorded of approvals that became blocks the block log records now, and the allow log goes on iff allowances are left |
| ApprovalRewrite.RecordsFollowUninspected | main/PISupervisor/common/src/DLPPolicy.cpp:2182-2202 | the same without inspection |
| ApprovalRewrite.ChangeSection | main/PISupervisor/common/src/DLPPolicy.cpp:2401-2428 | the loop over the controls and the log adjustment by the counts before and after |
| ApprovalRewrite.ParsedSectionKept | main/PISupervisor/common/src/DLPPolicy.cpp:2401-2428 | a parsed section is left exactly as it is, its logs included |
| ApprovalRewrite.SectionIdempotent | main/PISupervisor/common/src/DLPPolicy.cpp:2401-2428 | a second rewrite of any section changes nothing |
| ApprovalRewrite.LogLostExactly | main/PISupervisor/common/src/DLPPolicy.cpp:2156-2307 | a section saves logs after the rewrite iff it did before and its controls and logs are not of the one kind that loses them |
| ApprovalRewrite.CopyExRuleKept | main/PISupervisor/common/src/DLPPolicy.cpp:631-641 | the device rule of a CopyEx policy is the same before and after iff no section saved logs or some section that did keeps them |
| ApprovalRewrite.ParsedRuleKept | main/PISupervisor/common/src/DLPPolicy.cpp:2502-2514 | the rewrite leaves the sections of a parsed CopyEx policy as they are |
| ApprovalRewrite.PreventPlusPolicy.ChangeControlApprovalToBlock | main/PISupervisor/common/src/DLPPolicy.cpp:651-653 | each kind of policy answers with its own rewrite |
| ApprovalRewrite.ValidateDLPPolicyXml | main/PISupervisor/src/PIPolicyMan.cpp:218-230 | every prevent-plus policy of the offline list is rewritten and no other one is touched |
| ApprovalRewrite.OfflineNeverAsks | main/PISupervisor/src/PIPolicyMan.cpp:218-230 | after loading no offline policy asks for approval in a verdict in use |
| ApprovalRewrite.EntryIdempotent | main/PISupervisor/src/PIPolicyMan.cpp:218-230 | rewriting a policy again changes nothing |
| ApprovalRewrite.OfflineRulesKept | main/PISupervisor/src/PIPolicyMan.cpp:218-230 | built, validated and merged, the rewritten list gives the very rule sequence the original one would |
| DeviceLog.SameEvent | main/PISupervisor/src/PIDeviceLog.cpp:204-251 | ten comparisons amount to equality of the ten fields |
| DeviceLog.FirstDuplicate | main/PISupervisor/src/PIDeviceMan.cpp:1446-1464 | the first cached log with the same ten fields and at most 60 seconds old, none before it being such |
| DeviceLog.DeviceManager.IsDuplicatedDeviceLog | main/PISupervisor/src/PIDeviceMan.cpp:1438-1488 | true iff the cache holds a log with the same ten fields, at most 60 seconds old; and the cache left behind |
| DeviceLog.CacheRefinesHistory | main/PISupervisor/src/PIDeviceMan.cpp:1438-1488 | in a chronological run a log is a duplicate iff some log ever accepted has the same ten fields and is at most 60 seconds old |
| DeviceLog.EvictionExact | main/PISupervisor/src/PIDeviceMan.cpp:1438-1488 | eviction drops outdated logs only iff no live log precedes an outdated one in the scanned part |
| LogPipeline.SQLiteStub.PushBack | main/PISupervisor/src/PISQLiteStub.cpp:100-170 | the log is stored under the next sequence number |
| LogPipeline.SQLiteStub.Erase | main/PISupervisor/src/PISQLiteStub.cpp:256-313 | every row with that time and sequence number is gone, the others stay in order |
| LogPipeline.EraseExact | main/PISupervisor/src/PISQLiteStub.cpp:256-313 | erasing removes exactly one given row iff no other row has its key |
| LogPipeline.DeviceLogProcess.AddDeviceLog | main/PISupervisor/src/PIActionProcessDeviceLog.cpp:290-298 | the log is queued last and the queue signalled |
| LogPipeline.DeviceLogProcess.TakeBatch | main/PISupervisor/src/PIActionProcessDeviceLog.cpp:163-189 | the whole queue becomes the batch and the signal is taken back |
| LogPipeline.DeviceLogProcess.BatchTurn | main/PISupervisor/src/PIActionProcessDeviceLog.cpp:191-212 | one log is dropped, sent, or handed over for saving with the rest of the batch |
| LogPipeline.DeviceLogProcess.SaveTurn | main/PISupervisor/src/PIActionProcessDeviceLog.cpp:300-318 | one log is stored |
| LogPipeline.DeviceLogProcess.ResendTurn | main/PISupervisor/src/PIActionProcessDeviceLog.cpp:320-344 | a stored log is sent, or the turn ends the loop |
| LogPipeline.DeviceLogProcess.EraseTurn | main/PISupervisor/src/PIActionProcessDeviceLog.cpp:320-344 | the row just sent is erased |
| LogPipeline.StepConserves | main/PISupervisor/src/PIActionProcessDeviceLog.cpp:155-344 | every atomic section keeps the multiset of logs over all places, apart from the log it adds |
| LogPipeline.StepKeepsInv | main/PISupervisor/src/PIActionProcessDeviceLog.cpp:155-344 | every atomic section keeps the invariant: unique keys, held rows stored, a waiting queue signalled |
| LogPipeline.RunConserves | main/PISupervisor/src/PIActionProcessDeviceLog.cpp:155-344 | in every interleaving the logs added or found at the start are queued, pending, sent, dropped or stored, each exactly once |
| LogPipeline.CustodyKept | main/PISupervisor/src/PIActionProcessDeviceLog.cpp:300-344 | a log once sent, stored or on its way to the database stays so |
| LogPipeline.EveryEraseHasItsSend | main/PISupervisor/src/PIActionProcessDeviceLog.cpp:320-344 | in every run the rows resent are, in order, the rows erased and the one about to be erased, and their logs are among the sent ones as often |
| LogPipeline.ErasedAfterSent | main/PISupervisor/src/PIActionProcessDeviceLog.cpp:320-344 | a row about to be erased is stored, and its own send was the last successful one, with every earlier one erased already |
| LogPipeline.ResentInOrder | main/PISupervisor/src/PIActionProcessDeviceLog.cpp:320-344 | in every run the rows resent since the latest load are the first ones of its batch in its order, all of them once the thread is idle unless a send was refused |
| LogPipeline.NothingAfterRefusal | main/PISupervisor/src/PIActionProcessDeviceLog.cpp:330-335 | between a refused send and the next load no row is sent or erased |
| LogPipeline.LeftInOrder | main/PISupervisor/src/PIActionProcessDeviceLog.cpp:155-228 | in every run the log thread drops, sends or stores the logs in the order in which they were added |
| LogPipeline.DroppedHaveTwins | main/PISupervisor/src/PIActionProcessDeviceLog.cpp:191-212 | every dropped log has a twin that was sent or is kept for sending |
| LogPipeline.DroppedExactly | main/PISupervisor/src/PIActionProcessDeviceLog.cpp:191-212 | in any chronological interleaving a log is dropped iff it is no AirDrop log and a twin at most 60 seconds old got past the filter before; otherwise it is sent or saved |
| EventQueue.RunKeepsOrder | main/PISupervisor/src/PIEventHandler.cpp:34-80 | handled events, rest of the batch and queue are the added events in order, and a waiting queue is signalled |
| EventQueue.SleepsOnlyWhenDone | main/PISupervisor/src/PIEventHandler.cpp:34-80 | when the loop is about to sleep, every event added has been handled, in order |
| EventQueue.EventHandler.AddEvent | main/PISupervisor/src/PIEventHandler.cpp:159-168 | the event is queued last and the queue signalled |
| EventQueue.EventHandler.TakeBatch | main/PISupervisor/src/PIEventHandler.cpp:41-67 | the whole queue becomes the batch and the signal is taken back |
| EventQueue.EventHandler.DispatchNext | main/PISupervisor/src/PIEventHandler.cpp:69-78 | the next event of the batch is handed to its handler |
| Heartbeat.HeartbeatCheck.OneSecond | main/PISupervisor/src/PIActionHeartbeatCheck.cpp:92-125 | one turn of the tick loop |
| Heartbeat.OfflineLatency | main/PISupervisor/src/PIActionHeartbeatCheck.cpp:92-125 | when nothing but the heartbeat happens after an agent falls silent, "offline" is queued more than three and at most four cycles later, at one exact second and not before |
| Heartbeat.SilenceNoticed | main/PISupervisor/src/PIActionHeartbeatCheck.cpp:92-125 | in any run without a sign of life, whatever mode changes are asked for and handled, the agent is given up at the same exact second, more than three and at most four cycles later, and "offline" is queued then iff the supervisor is online |
| Heartbeat.OrphanNoticed | main/PISupervisor/src/PIActionHeartbeatCheck.cpp:105-124 | with no agent and a running heartbeat, online mode is noticed at the end of every cycle and only there |
| Heartbeat.FirstCheckAfterStart | main/PISupervisor/src/PIActionHeartbeatCheck.cpp:24-40 | a heartbeat that is started makes its first check a full cycle later |
| Heartbeat.SignRestartsClock | main/PISupervisor/src/PIActionProcessTTL.cpp:36-47 | in any run, after a registration or a TTL message with an id the heartbeat watches that agent from second zero |
| Heartbeat.GivenUpInTime | main/PISupervisor/src/PIAgentStub.cpp:61-81 | in any run with the heartbeat on, an agent silent for three cycles since its last message is still registered, and after four it is not |
| Heartbeat.NoticedExactly | main/PISupervisor/src/PIActionHeartbeatCheck.cpp:92-125 | the silence of an agent just heard of while online is ever noticed iff the heartbeat runs |
| Heartbeat.RunningExactly | main/PISupervisor/src/PIEventHandler.cpp:208-257 | over every run the heartbeat runs iff some start of it was not followed by a stop |
| Heartbeat.UnwatchedAgent | main/PISupervisor/src/PIActionProcessTTL.cpp:25-52 | a run from the start after which a registered agent is online and its silence is never noticed |
| Heartbeat.RegisteredWhileStopping | main/PISupervisor/src/PIEventHandler.cpp:208-257 | another one: a registration between the two actions of an unregistration |
| Heartbeat.NoFalseAlarm | main/PISupervisor/src/PIActionProcessTTL.cpp:36-47 | in every run from the start in which, while the heartbeat runs, a message with an id comes every three cycles at the latest, the queued mode changes are those the messages asked for and no other |
| Heartbeat.QueueAsAsked | main/PISupervisor/src/PIAgentStub.cpp:61-114 | the same from any state, by what the agent stub has noted |
| Heartbeat.UnregisterExactly | main/PISupervisor/src/PIActionUnregister.cpp:23-37 | once the queued changes are handled after an undisturbed unregistration, the supervisor is online iff it was offline with a change to online queued last, and agent and heartbeat are gone |
| Heartbeat.StepAbandons | main/PISupervisor/src/PIActionOpenClientIPC.cpp:491-503 | ticks and handled changes do not matter for whether the supervisor heads for online with neither agent nor heartbeat, and of all other actions, on/offline messages included, exactly the named ones lead there |
| Heartbeat.AbandonedExactly | main/PISupervisor/src/PIEventHandler.cpp:208-257 | over every run it ends so iff the last such action is one of the named ones |
| Heartbeat.OnlineWithoutAgent | main/PISupervisor/src/PIActionUnregister.cpp:23-37 | a run from the start that ends so: a change to online asked for before an unregistration is handled after it |
| Heartbeat.OnlineFromTheStart | main/PISupervisor/src/PIActionOpenClientIPC.cpp:491-503 | the shortest such run: an on/offline message at the start, and its handling |
| MkPath.Disk.GoUp | main/PISupervisor/apple/src/ESFControl.cpp:961-1032 | the path is cut at its slashes until a directory can be made, every cut remembered in the buffer |
| MkPath.Disk.GoDown | main/PISupervisor/apple/src/ESFControl.cpp:1034-1055 | the slashes come back one by one with their directories, up to the parent path |
| MkPath.Disk.MkPathNp | main/PISupervisor/apple/src/ESFControl.cpp:918-1071 | the answer and the file system equal the outcome computed over the whole path at once, and the buffer shows the parent path again |
| MkPath.MkPathExact | main/PISupervisor/apple/src/ESFControl.cpp:918-1071 | success or EEXIST iff the path is a directory afterwards; only prefixes of the path are added, and none is missing on success |
| MkPath.TrailingSlashReportsExisting | main/PISupervisor/apple/src/ESFControl.cpp:1034-1071 | EEXIST for a directory just made iff the path ends with a slash and its parent was missing |
| MkPath.MkPathKeepsTree | main/PISupervisor/apple/src/ESFControl.cpp:918-1071 | the file system stays a tree |
| CupsReader.CupsFile.Fill | main/PISupervisor/apple/src/ESFControl.cpp:1613-1645 | the buffer is refilled behind what was consumed, with zero bytes only at the end of the file |
| CupsReader.CupsFile.Gets | main/PISupervisor/apple/src/ESFControl.cpp:1654-1720 | whatever the reads return, the next line of the whole text and how far it advances |
| CupsReader.CupsFile.AllLines | main/PISupervisor/apple/src/ESFControl.cpp:1654-1720 | for any split into reads, repeated calls give the lines of a splitter over the whole content |
| CupsReader.EveryTextHasLines | main/PISupervisor/apple/src/ESFControl.cpp:1654-1720 | every text consists of terminated lines and a rest |
| CupsReader.LinesMerged | main/PISupervisor/apple/src/ESFControl.cpp:1654-1720 | what is read of such a text: each line in its pieces, fused where a line feed follows a carriage return, then the rest |
| CupsReader.ReadBackExact | main/PISupervisor/apple/src/ESFControl.cpp:1654-1720 | lines of any length and ending come back exactly iff none is longer than the room, and each that fills it is made up for by a fused pair with only empty lines between, and no other pair fuses |
| CupsReader.ShortLinesExact | main/PISupervisor/apple/src/ESFControl.cpp:1654-1720 | for lines shorter than the room that condition says that no empty LF-ended line follows a CR-ended one |
| IpcCodec.IpcMessage.AddBinary | main/PIKern/include/IPCMessage.h:124-138 | the parameter is appended and its index returned |
| IpcCodec.IpcMessage.GetData | main/PIKern/include/IPCMessage.h:352-400 | the bytes are the encoding, the cursor ends at their end, and the total-size field equals their number |
| IpcCodec.IpcMessage.SetData | main/PIKern/include/IPCMessage.h:305-350 | the fields and parameters are those the bytes announce |
| IpcCodec.NegativeCount | main/PIKern/include/IPCMessage.h:333-350 | a negative count reads no parameters |
| IpcCodec.LowestByteFirst | main/PIKern/include/IPCMessage.h:352-380 | integers go out with the lowest byte first |
| IpcCodec.HeaderLayout | main/PIKern/include/IPCMessage.h:352-380 | where total size, process id, reserved bytes, command and count are |
| IpcCodec.ParameterLayout | main/PIKern/include/IPCMessage.h:382-398 | where each length field and each parameter is |
| IpcCodec.DecodeEncode | main/PIKern/include/IPCMessage.h:305-400 | reading what was written gives back the command, the count and every parameter, whatever follows in memory |
| IpcCodec.EncodeDecode | main/PIKern/include/IPCMessage.h:305-400 | writing what was read reproduces the message byte for byte |
| IpcCodec.MessagesAreSelfDelimiting | main/PIKern/include/IPCMessage.h:89-111 | no message is a proper beginning of another one |
| AppControl.HexToBin | main/PISupervisor/common/src/DLPApplication.cpp:87-101 | one byte for each two digits, an odd last digit dropped; whatever bytes the digits print come back |
| AppControl.HexRoundTrip | main/PISupervisor/common/src/DLPApplication.cpp:87-115 | the pattern of printed bytes is those bytes, in either letter case |
| AppControl.ContainsInBuffer | main/PISupervisor/common/src/DLPApplication.cpp:117-159 | true iff the pattern occurs in the buffer |
| AppControl.ContainsInFile | main/PISupervisor/common/src/DLPApplication.cpp:51-85 | true iff the pattern occurs in the file inside one of the chunks read; these have 1 to 8192 bytes and make up the file unless a match ended the search |
| AppControl.ChunkedSearchExact | main/PISupervisor/common/src/DLPApplication.cpp:51-85 | a chunked search succeeds iff some occurrence in the whole text lies inside one chunk |
| AppControl.ApplicationPolicy.ParsePolicyInfo | main/PISupervisor/common/src/DLPPolicy.cpp:846-897 | the list is the exec entries then the file-open entries; one counter is the number of exec entries, the other that of the Windows executables among them |
| AppControl.ApplicationPolicy.IsProcessAllow | main/PISupervisor/src/PIApplicationControl.cpp:84-220 | the verdict with the counter shortcuts is that of the full scan |
| AppControl.VerdictExactly | main/PISupervisor/src/PIApplicationControl.cpp:84-220 | the full scan blocks by process name, then file name, then contents, each by the first listed application hit, and nothing on the allowed lists |
| AppControl.AllowedExactly | main/PISupervisor/src/PIApplicationControl.cpp:254-284 | allowed are the listed process names and the paths that a listed file name is part of |

## Left out

- Sockets, the communicator and packets: a send is an answer the step carries.
- Shell commands, device notifications, mount lists and disk arbitration: volumes and bus types are inputs.
- XML parsing and writing: parsed policies are datatypes, the written document is its sequence of rules.
- SQLite itself: a table whose operations succeed. Rows of an earlier process are assumed older than this one's start.
- DrvKext.Kext.PolicyApply: requires room in the table for an enabled entry, since the code would write behind it.
- DrvKext.Kext.UpdateDriveName: the same; moreover the branch outside Linux that recognises two kinds of volumes by name when the bus type is unknown is not modelled, so an unknown bus stays unknown, as it does on Linux.
- DrvKext.Kext.FetchVolumes: requires what it adds to fit, like VolumeUpdate; which mounts are reported, and their bus types, are inputs.
- DrvKext.Kext.VolumeUpdate: requires what it adds to fit the volume array and the table, since the code would write behind them.
- DrvKext.Kext.SetDrivePolicy: requires at most 36 policies; with more, the code writes one entry behind the array (its guard is `nPos > MAX_POLICY`) and later scans behind it.
- DrvKext.Kext.SetExceptDrivePolicy: requires at most 36 exceptions; with more, the code copies none but later scans behind the array.
- DrvKext.Kext.BlockRead: the allowed-folder test is an input, since it reads before the start of short paths, and appending to the driver's log is not modelled; the log parameter that would be appended is.
- DrvKext.Kext.BlockWrite: the same.
- DrvKext.Kext.CopyPrevent: the same.
- DrvKext.Kext.AllowWrite: appending to the driver's log is not modelled.
- DrvKext.Kext.CheckContents: only the copy policy; the print and upload tests it also calls, which may write the log parameter too, are not modelled.
- Kernel decisions on Bluetooth, printing, uploads and mobile devices, and the log-check cache, which never holds an entry.
- SecRule.SecRuleObject.GetData: permit lists for WLAN, mobile and removable devices and the truncation of long device names are not part of the record.
- Media control masks are sets of the bits that are on.
- ApprovalRewrite.ParseControl: target file and purpose attributes are not modelled.
- LogPipeline.RunConserves: the counter of saved logs that wakes the saved-log thread early, and the stop paths, are not modelled.
- EventQueue.RunKeepsOrder: what the handlers do, and the stop event, are not modelled.
- Heartbeat.OfflineLatency: one tick a second and a fixed cycle are assumed, and a running heartbeat (without one, see NoticedExactly); runs in which other things happen too are the subject of SilenceNoticed.
- Heartbeat.AbandonedExactly: each action of a handler is atomic, and actions come in any order relative to queued mode changes, which allows more than the one event queue does; the register event that only checks the agent is not modelled.
- MkPath.Disk.MkPathNp: modes, `chmod`, the first-directory result, out of memory and changes by other processes are not modelled, and "." and ".." are ordinary names; without other processes the EEXIST branch of the upward loop is never taken.
- CupsReader.CupsFile.Gets: read errors count as the end of the file, and interrupted reads are not modelled; neither is the comment and whitespace stripping of the configuration reader.
- IpcCodec.IpcMessage.SetData: requires the announced bytes to be in memory and no negative size, as the code does not check; DWORD is four bytes and integers are little-endian, the declaration of DWORD not being part of this model.
- IpcCodec.IpcMessage.AddBinary: a null parameter and the typed accessors are not modelled.
- AppControl.ContainsInFile: read errors and files that grow while being read are not modelled.
- AppControl.ApplicationPolicy.IsProcessAllow: whether a file contains a pattern, and whether the process is on the allowed list, are inputs tied to their definitions.
- `sms_strstr2`, the sample programs, and the macOS-only Objective-C branches.
