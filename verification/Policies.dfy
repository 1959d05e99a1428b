/** DLP policies as the supervisor holds them, and the device rules each of them emits. */
module Policies {
  import opened CStrings
  import opened SecRule

  datatype DlpType = TypeNone | PreventPlus | Control
  datatype SubType = CopyPrevent | CopyExPrevent | SharedFolder | Upload | Print | Clipboard | Application | Media | PCSecurity

  datatype Verdict = Allow | Block | Approval
  datatype InspectOption = NoInspect | RunInspect

  /** The controls of a policy; `option` says which of the three verdicts are active. */
  datatype Controls = Controls(option: InspectOption, noInspect: Verdict, found: Verdict, notFound: Verdict)

  datatype LogType = LogNone | LogAll | LogConditional
  datatype LogSetting = LogSetting(use: bool, logType: LogType, condition: bv8)
  datatype Log = Log(setting: LogSetting, fileCopy: LogSetting)

  /** One `usb` section of a CopyEx policy. */
  const SELECT_ALL := -1
  datatype CopyControl = CopyControl(selectType: int, readPermit: bool, controls: seq<Controls>, block: Log, allow: Log)

  /** The bits of the two media control masks; a mask is the set of the bits that are on. */
  datatype StorageBit = NetDrive | CDDVDWrite | CDDVDRead | FloppyWrite | FloppyRead | RemovableWrite | RemovableRead
  datatype CommBit = WLAN | WWAN | Serial | Parallel | Bluetooth | IRDA | IEEE1394 | USBMobile | Camera | FileSharing
                   | RemoteManagement | AirDrop

  datatype Kind =
    | CopyKind(controls: Controls, blockLog: bool)
    | CopyExKind(copyControls: seq<CopyControl>)
    | SharedFolderKind(blockLog: bool)
    | UploadKind(blockLog: bool)
    | PrintKind(blockLog: bool)
    | ClipboardKind(blockLog: bool)
    | ApplicationKind(execControlBlockLog: bool)
    | MediaKind(etcStorage: set<StorageBit>, commDevice: set<CommBit>, blockLog: bool, selectedBluetooth: bool)
    | PCSecurityKind

  datatype Policy = Policy(dlpType: DlpType, kind: Kind, use: bool, enableDeviceRule: bool, rule: Rule, ruleList: seq<Rule>)

  function Sub(p: Policy): SubType {
    match p.kind
    case CopyKind(_, _) => CopyPrevent
    case CopyExKind(_) => CopyExPrevent
    case SharedFolderKind(_) => SharedFolder
    case UploadKind(_) => Upload
    case PrintKind(_) => Print
    case ClipboardKind(_) => Clipboard
    case ApplicationKind(_) => Application
    case MediaKind(_, _, _, _) => Media
    case PCSecurityKind => PCSecurity
  }

  predicate IsCopyType(p: Policy) {
    Sub(p) == CopyPrevent || Sub(p) == CopyExPrevent
  }

  /** The policy's type matches its subtype. */
  predicate WellTyped(p: Policy) {
    p.dlpType == if Sub(p) == Media || Sub(p) == PCSecurity then Control else PreventPlus
  }

  /** A policy as loading leaves it. */
  predicate Loaded(p: Policy) {
    p.enableDeviceRule && p.rule == CLEAR_RULE && p.ruleList == []
  }

  // ---- CopyEx queries ----

  predicate HasBlockOrApproval(c: Controls) {
    match c.option
    case NoInspect => c.noInspect != Allow
    case RunInspect => c.found != Allow || c.notFound != Allow
  }

  predicate AnyBlockOrApproval(sections: seq<CopyControl>) {
    exists i, j :: 0 <= i < |sections| && 0 <= j < |sections[i].controls| && HasBlockOrApproval(sections[i].controls[j])
  }

  predicate BlockReadAll(sections: seq<CopyControl>) {
    |sections| == 1 && sections[0].selectType == SELECT_ALL && !sections[0].readPermit
  }

  predicate SaveLogAny(sections: seq<CopyControl>) {
    exists i :: 0 <= i < |sections| && (sections[i].block.setting.use || sections[i].allow.setting.use)
  }

  // ---- Emitting device rules ----

  function DeviceRule(virtualType: VirtualType, all: bool, read: bool, write: bool, log: bool, smart: bool := false,
                      bluetooth: bool := false, reserved1: int := -1): Rule
  {
    Rule(virtualType, all, read, write, log, bluetooth, if smart then 1 else reserved1)
  }

  function AllRule(block: bool, virtualType: VirtualType, log: bool): Rule {
    DeviceRule(virtualType, block, block, block, log)
  }

  /** The removable-drive rule of a media policy; its reserved field is always 1. */
  function MediaRemovable(etc: set<StorageBit>, log: bool): Rule {
    var write := RemovableWrite in etc;
    DeviceRule(DriveRemovable, false, RemovableRead in etc, write, log, write, false, 1)
  }

  function DiscRules(etc: set<StorageBit>, log: bool): seq<Rule> {
    [AllRule(NetDrive in etc, DriveNetDrive, log),
     DeviceRule(DriveCDDVD, false, CDDVDRead in etc, CDDVDWrite in etc, log)]
    + if CDDVDWrite in etc then [DeviceRule(DeviceCDDVD, false, false, true, log)] else []
  }

  function FloppyRules(etc: set<StorageBit>, log: bool): seq<Rule> {
    [DeviceRule(DriveFloppy, false, FloppyRead in etc, FloppyWrite in etc, log)]
  }

  function NetworkRules(comm: set<CommBit>, log: bool, selected: bool): seq<Rule> {
    [AllRule(WLAN in comm, NdisWLAN, log), AllRule(WWAN in comm, NdisWWAN, log)]
    + if Bluetooth in comm then [DeviceRule(DeviceBluetooth, true, true, true, log, selected, selected)] else []
  }

  function PortRules(comm: set<CommBit>, log: bool): seq<Rule> {
    [AllRule(IRDA in comm, DeviceInfrared, log), AllRule(Serial in comm, DeviceSerial, log),
     AllRule(Parallel in comm, DeviceParallel, log), AllRule(Parallel in comm, DevicePrinter, log),
     AllRule(IEEE1394 in comm, DeviceIEEE1394, log)]
  }

  function ShareRules(comm: set<CommBit>, log: bool): seq<Rule> {
    [AllRule(USBMobile in comm, DeviceUSBMobile, log), AllRule(Camera in comm, DeviceCamera, log),
     AllRule(FileSharing in comm, ShareFileSharing, log), AllRule(RemoteManagement in comm, ShareRemoteManagement, log),
     AllRule(AirDrop in comm, ShareAirDrop, log)]
  }

  /** The rules of a media policy in the order `CDLPPolicyMedia::addDeviceRule` appends them. */
  function MediaRules(etc: set<StorageBit>, comm: set<CommBit>, log: bool, selected: bool): seq<Rule> {
    DiscRules(etc, log)
    + ([MediaRemovable(etc, log)]
       + (FloppyRules(etc, log) + (NetworkRules(comm, log, selected) + (PortRules(comm, log) + ShareRules(comm, log)))))
  }

  /** The rule `addDeviceRule` stores in a copy policy, given the block-write-all option. */
  function CopyRule(controls: Controls, blockLog: bool, blockWriteAll: bool): Rule {
    if blockWriteAll then
      var write := HasBlockOrApproval(controls);
      DeviceRule(DriveRemovable, false, false, write, blockLog, write)
    else DeviceRule(DriveRemovable, false, false, true, blockLog)
  }

  function CopyExRule(sections: seq<CopyControl>, blockWriteAll: bool): Rule {
    if blockWriteAll then
      DeviceRule(DriveRemovable, false, BlockReadAll(sections), AnyBlockOrApproval(sections), SaveLogAny(sections), blockWriteAll)
    else DeviceRule(DriveRemovable, false, BlockReadAll(sections), true, SaveLogAny(sections))
  }

  /** `addDeviceRule`: the policy with its device rule (for media: rules) built. */
  function WithRule(p: Policy, blockWriteAll: bool): Policy {
    match p.kind
    case CopyKind(controls, log) => p.(rule := CopyRule(controls, log, blockWriteAll))
    case CopyExKind(sections) => p.(rule := CopyExRule(sections, blockWriteAll))
    case SharedFolderKind(log) => p.(rule := DeviceRule(DriveNetDrive, false, false, true, log))
    case UploadKind(log) => p.(rule := DeviceRule(NetworkControl, false, false, true, log))
    case PrintKind(log) => p.(rule := DeviceRule(PrinterControl, false, false, true, log))
    case ClipboardKind(log) => p.(rule := DeviceRule(ProcessPasteControl, false, false, true, log))
    case ApplicationKind(log) => p.(rule := DeviceRule(ProcessControl, true, true, true, log))
    case MediaKind(etc, comm, log, selected) =>
      p.(rule := AllRule(AirDrop in comm, ShareAirDrop, log), ruleList := MediaRules(etc, comm, log, selected))
    case PCSecurityKind => p
  }

  // ---- Searching a policy list ----

  predicate IsUsed(p: Policy, subs: set<SubType>) {
    p.use && Sub(p) in subs
  }

  /** The first used policy of one of the given subtypes. */
  function FirstUsed(list: seq<Policy>, subs: set<SubType>): (r: Option<nat>)
    ensures r.Some? ==> r.value < |list| && IsUsed(list[r.value], subs)
    ensures forall j | 0 <= j < (if r.Some? then r.value else |list|) :: !IsUsed(list[j], subs)
  {
    if list == [] then None
    else if IsUsed(list[0], subs) then Some(0)
    else
      match FirstUsed(list[1..], subs)
      case Some(i) => Some(i + 1)
      case None => None
  }

  /** What the validation loops find in a list: the first used media, copy-type and shared-folder policies,
      and whether that media policy controls net drives, removable reads and removable writes. */
  datatype Searches = Searches(media: Option<nat>, copy: Option<nat>, shared: Option<nat>,
                               netBlocked: bool, readBlocked: bool, writeBlocked: bool)
  {
    predicate RemovableBlocked() {
      readBlocked || writeBlocked
    }

    /** A used shared-folder policy counts only before the first used copy policy, where that search stops. */
    predicate SharedSeen() {
      shared.Some? && (copy.None? || shared.value < copy.value)
    }
  }

  /** The first used media policy exists and controls the given storage bit. */
  predicate MediaBlocks(list: seq<Policy>, bit: StorageBit) {
    var m := FirstUsed(list, {Media});
    m.Some? && bit in list[m.value].kind.etcStorage
  }

  function SearchesOf(list: seq<Policy>): (r: Searches)
    ensures r.media.Some? ==> r.media.value < |list|
  {
    Searches(FirstUsed(list, {Media}), FirstUsed(list, {CopyPrevent, CopyExPrevent}), FirstUsed(list, {SharedFolder}),
             MediaBlocks(list, NetDrive), MediaBlocks(list, RemovableRead), MediaBlocks(list, RemovableWrite))
  }

  // ---- The steps of the translation, for the policy at index `i` ----

  function Built(p: Policy, blockWriteAll: bool): Policy {
    if p.use then WithRule(p, blockWriteAll) else p
  }

  function SharedFolderStep(p: Policy, i: nat, s: Searches): Policy {
    if s.netBlocked && s.shared == Some(i) then p.(enableDeviceRule := false) else p
  }

  function CopyStep(p: Policy, blocked: bool): Policy {
    if blocked && p.use && IsCopyType(p) then p.(enableDeviceRule := false) else p
  }

  function MediaStep(p: Policy, i: nat, s: Searches): Policy {
    if s.media == Some(i) && !s.RemovableBlocked() && (s.copy.Some? || s.SharedSeen()) then
      p.(ruleList := EraseRules(p.ruleList, s.copy.Some?, s.SharedSeen()))
    else p
  }

  /** `CDLPPolicyMedia::validateDeviceRule` */
  function EraseRules(rules: seq<Rule>, copy: bool, shared: bool): (r: seq<Rule>)
  {
    if rules == [] then []
    else
      var last := rules[|rules| - 1];
      EraseRules(rules[..|rules| - 1], copy, shared)
      + if (copy && last.virtualType.DriveRemovable?) || (shared && last.virtualType.DriveNetDrive?) then [] else [last]
  }

  /** Rule building, then the mutual disabling of media control and the prevent-plus policies. */
  function TranslateOne(p: Policy, i: nat, s: Searches, blockWriteAll: bool): Policy {
    MediaStep(CopyStep(CopyStep(SharedFolderStep(Built(p, blockWriteAll), i, s), s.readBlocked), s.writeBlocked), i, s)
  }

  function Translated(list: seq<Policy>, blockWriteAll: bool): (r: seq<Policy>)
    ensures |r| == |list|
  {
    var s := SearchesOf(list);
    seq(|list|, i requires 0 <= i < |list| => TranslateOne(list[i], i, s, blockWriteAll))
  }

  // ---- The rules in force ----

  predicate InForce(p: Policy) {
    p.use && p.enableDeviceRule
  }

  predicate IsCurrentCopyEx(p: Policy) {
    InForce(p) && p.dlpType == PreventPlus && Sub(p) == CopyExPrevent
  }

  /** What one policy adds to the current rules, given whether a CopyEx policy was found. */
  function Contribution(p: Policy, copyExFound: bool): seq<Rule> {
    if !InForce(p) then []
    else if p.dlpType == Control && Sub(p) == Media then p.ruleList
    else if p.dlpType == PreventPlus && Sub(p) == CopyExPrevent then []
    else if p.dlpType == PreventPlus && Sub(p) == CopyPrevent && copyExFound then []
    else [p.rule]
  }

  function Contributions(list: seq<Policy>, copyExFound: bool): seq<Rule> {
    if list == [] then []
    else Contributions(list[..|list| - 1], copyExFound) + Contribution(list[|list| - 1], copyExFound)
  }

  function FirstCurrentCopyEx(list: seq<Policy>): (r: Option<nat>)
    ensures r.Some? ==> r.value < |list| && IsCurrentCopyEx(list[r.value])
    ensures forall j | 0 <= j < (if r.Some? then r.value else |list|) :: !IsCurrentCopyEx(list[j])
  {
    if list == [] then None
    else if IsCurrentCopyEx(list[0]) then Some(0)
    else
      match FirstCurrentCopyEx(list[1..])
      case Some(i) => Some(i + 1)
      case None => None
  }

  /** `getCurrentRule` on one mode list. */
  function CurrentRules(list: seq<Policy>): seq<Rule> {
    var e := FirstCurrentCopyEx(list);
    (if e.Some? then [list[e.value].rule] else []) + Contributions(list, e.Some?)
  }

  /** The policy `getCurrentDLPPolicy` returns for either copy subtype. */
  function CurrentCopyPolicy(list: seq<Policy>): (r: Option<nat>)
    ensures r.Some? ==> r.value < |list|
  {
    var e := FirstOfType(list, CopyExPrevent);
    if e.Some? then e else FirstOfType(list, CopyPrevent)
  }

  function FirstOfType(list: seq<Policy>, sub: SubType): (r: Option<nat>)
    ensures r.Some? ==> r.value < |list| && IsUsed(list[r.value], {sub}) && list[r.value].dlpType == PreventPlus
    ensures forall j | 0 <= j < (if r.Some? then r.value else |list|) :: !(IsUsed(list[j], {sub}) && list[j].dlpType == PreventPlus)
  {
    if list == [] then None
    else if IsUsed(list[0], {sub}) && list[0].dlpType == PreventPlus then Some(0)
    else
      match FirstOfType(list[1..], sub)
      case Some(i) => Some(i + 1)
      case None => None
  }
}
