/** What media control and shared-folder policies mean for discs and network shares: the counterpart of the removable
    drives. */
module DiscsAndShares {
  import opened CStrings
  import opened DrvKext
  import opened SecRule
  import opened Policies
  import opened PolicyMan
  import opened Precedence
  import opened EndToEnd

  // ---- The rules of a media policy, bit by bit ----

  predicate BlocksAll(r: Rule, blocked: bool) {
    r.disableAll == r.disableRead == r.disableWrite == blocked && r.reserved1 == -1
  }

  predicate BlocksAccess(r: Rule, read: bool, write: bool, reserved1: int) {
    !r.disableAll && r.disableRead == read && r.disableWrite == write && r.reserved1 == reserved1
  }

  /** Which bit each rule of a media policy stands for. */
  predicate FollowsBits(r: Rule, etc: set<StorageBit>, comm: set<CommBit>, log: bool, selected: bool) {
    && r.enableLog == log && r.selectedBluetooth == (r.virtualType.DeviceBluetooth? && selected)
    && match r.virtualType
       case DriveNetDrive => BlocksAll(r, NetDrive in etc)
       case DriveCDDVD => BlocksAccess(r, CDDVDRead in etc, CDDVDWrite in etc, -1)
       case DeviceCDDVD => CDDVDWrite in etc && BlocksAccess(r, false, true, -1)
       case DriveRemovable => BlocksAccess(r, RemovableRead in etc, RemovableWrite in etc, 1)
       case DriveFloppy => BlocksAccess(r, FloppyRead in etc, FloppyWrite in etc, -1)
       case NdisWLAN => BlocksAll(r, WLAN in comm)
       case NdisWWAN => BlocksAll(r, WWAN in comm)
       case DeviceBluetooth =>
         Bluetooth in comm && r.disableAll && r.disableRead && r.disableWrite && r.reserved1 == if selected then 1 else -1
       case DeviceInfrared => BlocksAll(r, IRDA in comm)
       case DeviceSerial => BlocksAll(r, Serial in comm)
       case DeviceParallel => BlocksAll(r, Parallel in comm)
       case DevicePrinter => BlocksAll(r, Parallel in comm)
       case DeviceIEEE1394 => BlocksAll(r, IEEE1394 in comm)
       case DeviceUSBMobile => BlocksAll(r, USBMobile in comm)
       case DeviceCamera => BlocksAll(r, Camera in comm)
       case ShareFileSharing => BlocksAll(r, FileSharing in comm)
       case ShareRemoteManagement => BlocksAll(r, RemoteManagement in comm)
       case ShareAirDrop => BlocksAll(r, AirDrop in comm)
       case _ => false
  }

  function TypesOf(rules: seq<Rule>): seq<VirtualType> {
    seq(|rules|, i requires 0 <= i < |rules| => rules[i].virtualType)
  }

  predicate AllFollow(rules: seq<Rule>, etc: set<StorageBit>, comm: set<CommBit>, log: bool, selected: bool) {
    forall i | 0 <= i < |rules| :: FollowsBits(rules[i], etc, comm, log, selected)
  }

  lemma PiecesFollow(etc: set<StorageBit>, comm: set<CommBit>, log: bool, selected: bool)
    ensures AllFollow(DiscRules(etc, log), etc, comm, log, selected)
    ensures AllFollow([MediaRemovable(etc, log)], etc, comm, log, selected)
    ensures AllFollow(FloppyRules(etc, log), etc, comm, log, selected)
    ensures AllFollow(NetworkRules(comm, log, selected), etc, comm, log, selected)
  {
  }

  /** The rules that block everything or nothing, each with its bit. */
  predicate StandsFor(vt: VirtualType, bit: CommBit) {
    match vt
    case DeviceInfrared => bit == IRDA
    case DeviceSerial => bit == Serial
    case DeviceParallel => bit == Parallel
    case DevicePrinter => bit == Parallel
    case DeviceIEEE1394 => bit == IEEE1394
    case DeviceUSBMobile => bit == USBMobile
    case DeviceCamera => bit == Camera
    case ShareFileSharing => bit == FileSharing
    case ShareRemoteManagement => bit == RemoteManagement
    case ShareAirDrop => bit == AirDrop
    case _ => false
  }

  lemma OneFollows(vt: VirtualType, bit: CommBit, etc: set<StorageBit>, comm: set<CommBit>, log: bool, selected: bool)
    requires StandsFor(vt, bit)
    ensures FollowsBits(AllRule(bit in comm, vt, log), etc, comm, log, selected)
  {
  }

  lemma PortsFollow(etc: set<StorageBit>, comm: set<CommBit>, log: bool, selected: bool)
    ensures AllFollow(PortRules(comm, log), etc, comm, log, selected)
  {
    hide FollowsBits, AllRule;
    OneFollows(DeviceInfrared, IRDA, etc, comm, log, selected);
    OneFollows(DeviceSerial, Serial, etc, comm, log, selected);
    OneFollows(DeviceParallel, Parallel, etc, comm, log, selected);
    OneFollows(DevicePrinter, Parallel, etc, comm, log, selected);
    OneFollows(DeviceIEEE1394, IEEE1394, etc, comm, log, selected);
  }

  lemma SharingFollows(etc: set<StorageBit>, comm: set<CommBit>, log: bool, selected: bool)
    ensures AllFollow(ShareRules(comm, log), etc, comm, log, selected)
  {
    hide FollowsBits, AllRule;
    OneFollows(DeviceUSBMobile, USBMobile, etc, comm, log, selected);
    OneFollows(DeviceCamera, Camera, etc, comm, log, selected);
    OneFollows(ShareFileSharing, FileSharing, etc, comm, log, selected);
    OneFollows(ShareRemoteManagement, RemoteManagement, etc, comm, log, selected);
    OneFollows(ShareAirDrop, AirDrop, etc, comm, log, selected);
  }

  lemma FollowConcat(a: seq<Rule>, b: seq<Rule>, etc: set<StorageBit>, comm: set<CommBit>, log: bool, selected: bool)
    requires AllFollow(a, etc, comm, log, selected) && AllFollow(b, etc, comm, log, selected)
    ensures AllFollow(a + b, etc, comm, log, selected) && TypesOf(a + b) == TypesOf(a) + TypesOf(b)
  {
    hide FollowsBits;
  }

  /** The virtual types of the rules, in order. */
  function MediaTypes(etc: set<StorageBit>, comm: set<CommBit>): seq<VirtualType> {
    ([DriveNetDrive, DriveCDDVD] + if CDDVDWrite in etc then [DeviceCDDVD] else [])
    + ([DriveRemovable] + ([DriveFloppy] + (([NdisWLAN, NdisWWAN] + if Bluetooth in comm then [DeviceBluetooth] else [])
    + ([DeviceInfrared, DeviceSerial, DeviceParallel, DevicePrinter, DeviceIEEE1394]
    + [DeviceUSBMobile, DeviceCamera, ShareFileSharing, ShareRemoteManagement, ShareAirDrop]))))
  }

  lemma PieceTypes(etc: set<StorageBit>, comm: set<CommBit>, log: bool, selected: bool)
    ensures TypesOf(DiscRules(etc, log)) == [DriveNetDrive, DriveCDDVD] + if CDDVDWrite in etc then [DeviceCDDVD] else []
    ensures TypesOf([MediaRemovable(etc, log)]) == [DriveRemovable]
    ensures TypesOf(FloppyRules(etc, log)) == [DriveFloppy]
    ensures TypesOf(NetworkRules(comm, log, selected)) == [NdisWLAN, NdisWWAN] + if Bluetooth in comm then [DeviceBluetooth] else []
    ensures TypesOf(PortRules(comm, log)) == [DeviceInfrared, DeviceSerial, DeviceParallel, DevicePrinter, DeviceIEEE1394]
    ensures TypesOf(ShareRules(comm, log)) == [DeviceUSBMobile, DeviceCamera, ShareFileSharing, ShareRemoteManagement, ShareAirDrop]
  {
  }

  /** A media policy emits these rules in this order, and each blocks exactly what its own bit says. */
  lemma MediaRulesFollowBits(etc: set<StorageBit>, comm: set<CommBit>, log: bool, selected: bool)
    ensures TypesOf(MediaRules(etc, comm, log, selected)) == MediaTypes(etc, comm)
    ensures AllFollow(MediaRules(etc, comm, log, selected), etc, comm, log, selected)
  {
    hide DiscRules, MediaRemovable, FloppyRules, NetworkRules, PortRules, ShareRules, AllFollow, TypesOf;
    PiecesFollow(etc, comm, log, selected);
    PortsFollow(etc, comm, log, selected);
    SharingFollows(etc, comm, log, selected);
    PieceTypes(etc, comm, log, selected);
    var a, b, c := DiscRules(etc, log), [MediaRemovable(etc, log)], FloppyRules(etc, log);
    var d, e, f := NetworkRules(comm, log, selected), PortRules(comm, log), ShareRules(comm, log);
    FollowConcat(e, f, etc, comm, log, selected);
    FollowConcat(d, e + f, etc, comm, log, selected);
    FollowConcat(c, d + (e + f), etc, comm, log, selected);
    FollowConcat(b, c + (d + (e + f)), etc, comm, log, selected);
    FollowConcat(a, b + (c + (d + (e + f))), etc, comm, log, selected);
  }

  // ---- Disc and share rules of one policy ----

  lemma {:induction false} NoneOfType(rules: seq<Rule>, vt: VirtualType)
    requires forall i | 0 <= i < |rules| :: rules[i].virtualType != vt
    ensures OfType(rules, vt) == []
  {
    if rules != [] {
      NoneOfType(rules[..|rules| - 1], vt);
    }
  }

  lemma OneOfType(r: Rule, vt: VirtualType)
    ensures OfType([r], vt) == if r.virtualType == vt then [r] else []
  {
    assert [r][..0] == [];
  }

  lemma {:induction false} ErasedOfType(rules: seq<Rule>, copy: bool, shared: bool, vt: VirtualType)
    requires !vt.DriveRemovable?
    ensures OfType(EraseRules(rules, copy, shared), vt) == if shared && vt.DriveNetDrive? then [] else OfType(rules, vt)
  {
    if rules != [] {
      var n := |rules| - 1;
      ErasedOfType(rules[..n], copy, shared, vt);
      OfTypeConcat(EraseRules(rules[..n], copy, shared), [rules[n]], vt);
      OneOfType(rules[n], vt);
      assert EraseRules(rules[..n], copy, shared) + [] == EraseRules(rules[..n], copy, shared);
    }
  }

  function DiscRule(etc: set<StorageBit>, log: bool): Rule {
    Rule(DriveCDDVD, false, CDDVDRead in etc, CDDVDWrite in etc, log, false, -1)
  }

  function NetDriveRule(etc: set<StorageBit>, log: bool): Rule {
    Rule(DriveNetDrive, NetDrive in etc, NetDrive in etc, NetDrive in etc, log, false, -1)
  }

  function SharedFolderRule(log: bool): Rule {
    Rule(DriveNetDrive, false, false, true, log, false, -1)
  }

  lemma DiscRulesOfType(etc: set<StorageBit>, log: bool)
    ensures OfType(DiscRules(etc, log), DriveCDDVD) == [DiscRule(etc, log)]
    ensures OfType(DiscRules(etc, log), DriveNetDrive) == [NetDriveRule(etc, log)]
  {
    var net, disc, device := NetDriveRule(etc, log), DiscRule(etc, log), DeviceRule(DeviceCDDVD, false, false, true, log);
    assert DiscRules(etc, log) == [net, disc] + if CDDVDWrite in etc then [device] else [];
    OfThree(net, disc, device, DriveCDDVD);
    OfThree(net, disc, device, DriveNetDrive);
    hide OfType, DiscRules;
  }

  lemma OfThree(a: Rule, b: Rule, c: Rule, vt: VirtualType)
    ensures OfType([a, b], vt) == OfType([a], vt) + OfType([b], vt)
    ensures OfType([a, b] + [c], vt) == OfType([a, b], vt) + OfType([c], vt)
    ensures forall r | r in {a, b, c} :: OfType([r], vt) == if r.virtualType == vt then [r] else []
    ensures [a, b] + [] == [a, b]
  {
    OfTypeConcat([a], [b], vt);
    OfTypeConcat([a, b], [c], vt);
    OneOfType(a, vt);
    OneOfType(b, vt);
    OneOfType(c, vt);
    assert [a] + [b] == [a, b];
  }

  lemma PiecesNotOfType(etc: set<StorageBit>, comm: set<CommBit>, log: bool, selected: bool, vt: VirtualType)
    requires vt == DriveCDDVD || vt == DriveNetDrive
    ensures OfType([MediaRemovable(etc, log)], vt) == [] && OfType(FloppyRules(etc, log), vt) == []
    ensures OfType(NetworkRules(comm, log, selected), vt) == []
    ensures OfType(PortRules(comm, log), vt) == [] && OfType(ShareRules(comm, log), vt) == []
  {
    hide OfType;
    NoneOfType([MediaRemovable(etc, log)], vt);
    NoneOfType(FloppyRules(etc, log), vt);
    NoneOfType(NetworkRules(comm, log, selected), vt);
    NoneOfType(PortRules(comm, log), vt);
    NoneOfType(ShareRules(comm, log), vt);
  }

  lemma FrontOnly(a: seq<Rule>, b: seq<Rule>, c: seq<Rule>, d: seq<Rule>, e: seq<Rule>, f: seq<Rule>, vt: VirtualType)
    requires OfType(b, vt) == OfType(c, vt) == OfType(d, vt) == OfType(e, vt) == OfType(f, vt) == []
    ensures OfType(a + (b + (c + (d + (e + f)))), vt) == OfType(a, vt)
  {
    hide OfType;
    OfTypeConcat(e, f, vt);
    OfTypeConcat(d, e + f, vt);
    OfTypeConcat(c, d + (e + f), vt);
    OfTypeConcat(b, c + (d + (e + f)), vt);
    OfTypeConcat(a, b + (c + (d + (e + f))), vt);
  }

  lemma MediaRulesOfType(etc: set<StorageBit>, comm: set<CommBit>, log: bool, selected: bool, vt: VirtualType)
    requires vt == DriveCDDVD || vt == DriveNetDrive
    ensures OfType(MediaRules(etc, comm, log, selected), vt) ==
            [if vt == DriveCDDVD then DiscRule(etc, log) else NetDriveRule(etc, log)]
  {
    hide DiscRules, OfType, MediaRemovable, FloppyRules, NetworkRules, PortRules, ShareRules, DiscRule, NetDriveRule;
    DiscRulesOfType(etc, log);
    PiecesNotOfType(etc, comm, log, selected, vt);
    FrontOnly(DiscRules(etc, log), [MediaRemovable(etc, log)], FloppyRules(etc, log), NetworkRules(comm, log, selected),
              PortRules(comm, log), ShareRules(comm, log), vt);
  }

  /** The disc rules a policy contributes once translated. */
  function OwnDiscs(p: Policy): seq<Rule> {
    if p.use && p.kind.MediaKind? then [DiscRule(p.kind.etcStorage, p.kind.blockLog)] else []
  }

  /** The share rules: media control gives its own up to a shared-folder policy when it blocks no removable access,
      and the first shared-folder policy is silenced when media control blocks network drives. */
  function OwnShares(p: Policy, i: nat, s: Searches): seq<Rule> {
    if !p.use then []
    else
      match p.kind
      case MediaKind(etc, _, log, _) =>
        if s.media == Some(i) && !s.RemovableBlocked() && s.SharedSeen() then [] else [NetDriveRule(etc, log)]
      case SharedFolderKind(log) => if s.netBlocked && s.shared == Some(i) then [] else [SharedFolderRule(log)]
      case _ => []
  }

  lemma ContributedOfType(p: Policy, i: nat, s: Searches, blockWriteAll: bool, copyExFound: bool)
    requires WellTyped(p) && Loaded(p) && (s.media == Some(i) ==> IsUsed(p, {Media}))
    requires s.shared == Some(i) ==> IsUsed(p, {SharedFolder})
    ensures OfType(Contribution(TranslateOne(p, i, s, blockWriteAll), copyExFound), DriveCDDVD) == OwnDiscs(p)
    ensures OfType(Contribution(TranslateOne(p, i, s, blockWriteAll), copyExFound), DriveNetDrive) == OwnShares(p, i, s)
  {
    hide OfType, MediaRules, EraseRules, AnyBlockOrApproval, BlockReadAll, SaveLogAny, HasBlockOrApproval;
    NoneOfType([], DriveCDDVD);
    NoneOfType([], DriveNetDrive);
    if p.use && p.kind.MediaKind? {
      MediaContribution(p, i, s, blockWriteAll, copyExFound, DriveCDDVD);
      MediaContribution(p, i, s, blockWriteAll, copyExFound, DriveNetDrive);
    } else {
      OneOfType(TranslateOne(p, i, s, blockWriteAll).rule, DriveCDDVD);
      OneOfType(TranslateOne(p, i, s, blockWriteAll).rule, DriveNetDrive);
    }
  }

  lemma MediaContribution(p: Policy, i: nat, s: Searches, blockWriteAll: bool, copyExFound: bool, vt: VirtualType)
    requires p.use && p.kind.MediaKind? && p.dlpType == Control && p.enableDeviceRule && s.shared != Some(i)
    requires vt == DriveCDDVD || vt == DriveNetDrive
    ensures OfType(Contribution(TranslateOne(p, i, s, blockWriteAll), copyExFound), vt) ==
            if vt == DriveCDDVD then OwnDiscs(p) else OwnShares(p, i, s)
  {
    hide OfType, MediaRules, EraseRules;
    var k := p.kind;
    MediaRulesOfType(k.etcStorage, k.commDevice, k.blockLog, k.selectedBluetooth, vt);
    ErasedOfType(MediaRules(k.etcStorage, k.commDevice, k.blockLog, k.selectedBluetooth), s.copy.Some?, s.SharedSeen(), vt);
  }

  // ---- The whole list ----

  function Discs(list: seq<Policy>): seq<Rule> {
    if list == [] then [] else Discs(list[..|list| - 1]) + OwnDiscs(list[|list| - 1])
  }

  function Shares(list: seq<Policy>, s: Searches): seq<Rule> {
    if list == [] then [] else Shares(list[..|list| - 1], s) + OwnShares(list[|list| - 1], |list| - 1, s)
  }

  lemma {:induction false} ContributionsOfType(list: seq<Policy>, t: seq<Policy>, s: Searches, copyExFound: bool)
    requires |t| == |list|
    requires forall i | 0 <= i < |list| ::
               && OfType(Contribution(t[i], copyExFound), DriveCDDVD) == OwnDiscs(list[i])
               && OfType(Contribution(t[i], copyExFound), DriveNetDrive) == OwnShares(list[i], i, s)
    ensures OfType(Contributions(t, copyExFound), DriveCDDVD) == Discs(list)
    ensures OfType(Contributions(t, copyExFound), DriveNetDrive) == Shares(list, s)
  {
    if list == [] {
      NoneOfType([], DriveCDDVD);
      NoneOfType([], DriveNetDrive);
    } else {
      hide Contribution, OwnDiscs, OwnShares;
      var n := |list| - 1;
      ContributionsOfType(list[..n], t[..n], s, copyExFound);
      OfTypeConcat(Contributions(t[..n], copyExFound), Contribution(t[n], copyExFound), DriveCDDVD);
      OfTypeConcat(Contributions(t[..n], copyExFound), Contribution(t[n], copyExFound), DriveNetDrive);
    }
  }

  lemma FrontOfType(list: seq<Policy>, blockWriteAll: bool, e: nat, vt: VirtualType)
    requires e < |list| && IsUsed(list[e], {CopyExPrevent}) && !vt.DriveRemovable?
    ensures OfType([Translated(list, blockWriteAll)[e].rule], vt) == []
  {
    OneOfType(Translated(list, blockWriteAll)[e].rule, vt);
    hide OfType;
  }

  /** The disc and share rules in force after translation, for every loaded list, in order. */
  lemma StorageRulesInForce(list: seq<Policy>, blockWriteAll: bool)
    requires LoadedList(list)
    ensures var rules := CurrentRules(Translated(list, blockWriteAll));
            && OfType(rules, DriveCDDVD) == Discs(list)
            && OfType(rules, DriveNetDrive) == Shares(list, SearchesOf(list))
  {
    hide TranslateOne, OfType, OwnDiscs, OwnShares, Contribution;
    var t, s := Translated(list, blockWriteAll), SearchesOf(list);
    CopyExAfterTranslation(list, blockWriteAll);
    var e := FirstCurrentCopyEx(t);
    forall i | 0 <= i < |list|
      ensures OfType(Contribution(t[i], e.Some?), DriveCDDVD) == OwnDiscs(list[i])
      ensures OfType(Contribution(t[i], e.Some?), DriveNetDrive) == OwnShares(list[i], i, s)
    {
      ContributedOfType(list[i], i, s, blockWriteAll, e.Some?);
    }
    ContributionsOfType(list, t, s, e.Some?);
    if e.Some? {
      FrontOfType(list, blockWriteAll, e.value, DriveCDDVD);
      FrontOfType(list, blockWriteAll, e.value, DriveNetDrive);
      OfTypeConcat([t[e.value].rule], Contributions(t, true), DriveCDDVD);
      OfTypeConcat([t[e.value].rule], Contributions(t, true), DriveNetDrive);
    } else {
      assert [] + Contributions(t, false) == Contributions(t, false);
    }
  }

  lemma {:induction false} FirstDisc(list: seq<Policy>, m: nat)
    requires m < |list| && OwnDiscs(list[m]) != [] && forall j | 0 <= j < m :: OwnDiscs(list[j]) == []
    ensures Discs(list) != [] && Discs(list)[0] == OwnDiscs(list[m])[0]
  {
    hide OwnDiscs;
    var n := |list| - 1;
    if m < n {
      FirstDisc(list[..n], m);
    } else {
      NoDiscs(list[..n]);
    }
  }

  lemma {:induction false} NoDiscs(list: seq<Policy>)
    requires forall j | 0 <= j < |list| :: OwnDiscs(list[j]) == []
    ensures Discs(list) == []
  {
    hide OwnDiscs;
    if list != [] {
      NoDiscs(list[..|list| - 1]);
    }
  }

  lemma DiscOfMedia(p: Policy)
    ensures OwnDiscs(p) == if IsUsed(p, {Media}) then [DiscRule(p.kind.etcStorage, p.kind.blockLog)] else []
  {
  }

  /** The first disc rule in force is that of the first used media policy. */
  lemma FirstMediaDisc(list: seq<Policy>)
    ensures var m := SearchesOf(list).media;
            if m.Some? then Discs(list) != [] && Discs(list)[0] == DiscRule(list[m.value].kind.etcStorage, list[m.value].kind.blockLog)
            else Discs(list) == []
  {
    var m := SearchesOf(list).media;
    forall j | 0 <= j < |list|
      ensures OwnDiscs(list[j]) == if IsUsed(list[j], {Media}) then [DiscRule(list[j].kind.etcStorage, list[j].kind.blockLog)] else []
    {
      DiscOfMedia(list[j]);
    }
    hide OwnDiscs, IsUsed, DiscRule, Discs;
    if m.Some? {
      FirstDisc(list, m.value);
    } else {
      NoDiscs(list);
    }
  }

  // ---- Decisions ----

  /** The kernel decides about `path` by volume `i`, which is of the kind the rules of type `vt` are meant for. */
  ghost predicate OnVolume(state: State, list: seq<Policy>, blockWriteAll: bool, vt: VirtualType, i: nat, path: string) {
    && LoadedList(list) && i < |state.volumes| && Serves(vt, state.volumes[i].busType)
    && FindExcept(state.excepts, state.volumes[i].basePath).None?
    && DecidedByVolume(Applied(state, list, blockWriteAll), i, path)
  }

  function Later(s: State, i: nat, path: string): Option<DeviceEx>
    requires i < |s.volumes|
  {
    Governing(Recompute(s.policies, s.excepts, s.volumes[i + 1..]), path)
  }

  lemma DecidedByFirst(state: State, list: seq<Policy>, blockWriteAll: bool, vt: VirtualType, i: nat, path: string)
    requires OnVolume(state, list, blockWriteAll, vt, i, path)
    ensures var t := Applied(state, list, blockWriteAll);
            var rules := OfType(CurrentRules(Translated(list, blockWriteAll)), vt);
            var entry := if rules == [] then None else RuleEntry(rules[0], state.volumes[i].basePath);
            Governing(t.table, path) == if entry.Some? then entry else Later(t, i, path)
  {
    hide CurrentRules, Translated, Compile, OfType, RuleEntry, Recompute, Governing, LoadedList;
    GoverningOnVolume(CurrentRules(Translated(list, blockWriteAll)), vt, state.excepts, state.volumes, i, path);
  }

  /** On a disc the first used media policy decides, by its two disc bits: reading is denied iff the read bit is on and
      writing iff the write bit is. With neither bit and no log on, or without a media policy, the decision is left to
      the later volumes. */
  lemma DiscDecisions(state: State, list: seq<Policy>, blockWriteAll: bool, i: nat, path: string)
    requires OnVolume(state, list, blockWriteAll, DriveCDDVD, i, path)
    ensures var t, m := Applied(state, list, blockWriteAll), SearchesOf(list).media;
            var g := Governing(t.table, path);
            if m.Some? && (list[m.value].kind.blockLog || CDDVDRead in list[m.value].kind.etcStorage
                           || CDDVDWrite in list[m.value].kind.etcStorage) then
              && (ReadDenied(g) <==> CDDVDRead in list[m.value].kind.etcStorage)
              && (WriteDenied(g) <==> CDDVDWrite in list[m.value].kind.etcStorage)
              && !ContentScanned(g)
              && (WriteAllowed(g) <==> !ReadDenied(g) && !WriteDenied(g))
            else g == Later(t, i, path)
  {
    hide CurrentRules, Translated, OfType, Governing, Recompute, RuleEntry, Applied;
    DecidedByFirst(state, list, blockWriteAll, DriveCDDVD, i, path);
    StorageRulesInForce(list, blockWriteAll);
    FirstMediaDisc(list);
    var m := SearchesOf(list).media;
    if m.Some? {
      var r := DiscRule(list[m.value].kind.etcStorage, list[m.value].kind.blockLog);
      DiscMeaning(r, state.volumes[i].basePath);
      EntryOfRule(r, state.volumes[i].basePath);
    }
    hide Discs, OnVolume, Later, ReadDenied, WriteDenied, ContentScanned, WriteAllowed;
  }

  /** On a share the first of the share rules decides. */
  lemma ShareDecisions(state: State, list: seq<Policy>, blockWriteAll: bool, i: nat, path: string)
    requires OnVolume(state, list, blockWriteAll, DriveNetDrive, i, path)
    ensures var t, shares := Applied(state, list, blockWriteAll), Shares(list, SearchesOf(list));
            var g := Governing(t.table, path);
            if shares != [] && (shares[0].enableLog || shares[0].disableRead || shares[0].disableWrite) then
              && (ReadDenied(g) <==> shares[0].disableRead)
              && (WriteDenied(g) <==> shares[0].disableWrite && shares[0].disableRead)
              && (ContentScanned(g) <==> shares[0].disableWrite && !shares[0].disableRead)
              && (WriteAllowed(g) <==> !shares[0].disableRead && !shares[0].disableWrite)
            else g == Later(t, i, path)
  {
    hide CurrentRules, Translated, OfType, Governing, Recompute, RuleEntry, Applied;
    DecidedByFirst(state, list, blockWriteAll, DriveNetDrive, i, path);
    StorageRulesInForce(list, blockWriteAll);
    SharesAreShares(list, SearchesOf(list));
    var shares := Shares(list, SearchesOf(list));
    if shares != [] {
      ShareMeaning(shares[0], state.volumes[i].basePath);
      EntryOfRule(shares[0], state.volumes[i].basePath);
    }
    hide Shares, OnVolume, Later, ReadDenied, WriteDenied, ContentScanned, WriteAllowed, SearchesOf;
  }

  lemma {:induction false} SharesAreShares(list: seq<Policy>, s: Searches)
    ensures forall i | 0 <= i < |Shares(list, s)| :: Shares(list, s)[i].virtualType.DriveNetDrive? && Shares(list, s)[i].reserved1 == -1
  {
    if list != [] {
      SharesAreShares(list[..|list| - 1], s);
    }
  }

  // ---- Which policy controls shares ----

  lemma {:induction false} NoShares(list: seq<Policy>, s: Searches)
    requires forall j | 0 <= j < |list| :: OwnShares(list[j], j, s) == []
    ensures Shares(list, s) == []
  {
    hide OwnShares;
    if list != [] {
      NoShares(list[..|list| - 1], s);
    }
  }

  lemma {:induction false} FirstShare(list: seq<Policy>, s: Searches, k: nat)
    requires k < |list| && OwnShares(list[k], k, s) != [] && forall j | 0 <= j < k :: OwnShares(list[j], j, s) == []
    ensures Shares(list, s) != [] && Shares(list, s)[0] == OwnShares(list[k], k, s)[0]
  {
    hide OwnShares;
    var n := |list| - 1;
    if k < n {
      FirstShare(list[..n], s, k);
    } else {
      NoShares(list[..n], s);
    }
  }

  lemma {:induction false} OnlyOne(list: seq<Policy>, sub: SubType, i: nat, j: nat)
    requires CountUsed(list, sub) <= 1 && i < |list| && j < |list| && IsUsed(list[i], {sub}) && IsUsed(list[j], {sub})
    ensures i == j
  {
    var n := |list| - 1;
    if i < n && j < n {
      OnlyOne(list[..n], sub, i, j);
    } else if i < n {
      SomeUsed(list[..n], sub, i);
    } else if j < n {
      SomeUsed(list[..n], sub, j);
    }
  }

  /** With one media and one shared-folder policy:
      - If media control blocks network drives but no removable access, and no copy policy comes before the
        shared-folder policy, each silences the other: no share rule is in force and shares are free.
      - Otherwise shares are under the shared-folder policy, which has their contents scanned, iff media control does
        not block network drives, and either the last two conditions hold or the shared-folder policy comes before
        media control.
      - Otherwise they are under media control, which denies everything or nothing. */
  lemma SharedFolderDecidesExactly(list: seq<Policy>)
    requires CountUsed(list, Media) <= 1 && CountUsed(list, SharedFolder) <= 1
    requires SearchesOf(list).media.Some? && SearchesOf(list).shared.Some?
    ensures var s := SearchesOf(list);
            var m, f := list[s.media.value], list[s.shared.value];
            var givenUp := !s.RemovableBlocked() && (s.copy.None? || s.shared.value < s.copy.value);
            if s.netBlocked && givenUp then Shares(list, s) == []
            else
              && Shares(list, s) != []
              && Shares(list, s)[0] == if !s.netBlocked && (givenUp || s.shared.value < s.media.value)
                 then Rule(DriveNetDrive, false, false, true, f.kind.blockLog, false, -1)
                 else Rule(DriveNetDrive, s.netBlocked, s.netBlocked, s.netBlocked, m.kind.blockLog, false, -1)
  {
    var s := SearchesOf(list);
    var m, f := s.media.value, s.shared.value;
    OthersShareNothing(list);
    SharesOfTwo(list);
    hide OwnShares, Shares, CountUsed, FirstUsed, IsUsed;
    var byMedia, byFolder := OwnShares(list[m], m, s), OwnShares(list[f], f, s);
    if byMedia == [] && byFolder == [] {
      NoShares(list, s);
    } else {
      FirstShare(list, s, if byMedia == [] then f else if byFolder == [] then m else if m < f then m else f);
    }
  }

  lemma OthersShareNothing(list: seq<Policy>)
    requires CountUsed(list, Media) <= 1 && CountUsed(list, SharedFolder) <= 1
    requires SearchesOf(list).media.Some? && SearchesOf(list).shared.Some?
    ensures var s := SearchesOf(list);
            forall j | 0 <= j < |list| && j != s.media.value && j != s.shared.value :: OwnShares(list[j], j, s) == []
  {
    var s := SearchesOf(list);
    forall j | 0 <= j < |list| && j != s.media.value && j != s.shared.value
      ensures OwnShares(list[j], j, s) == []
    {
      if IsUsed(list[j], {Media}) {
        OnlyOne(list, Media, j, s.media.value);
      }
      if IsUsed(list[j], {SharedFolder}) {
        OnlyOne(list, SharedFolder, j, s.shared.value);
      }
      hide CountUsed, FirstUsed, MediaBlocks;
    }
  }

  lemma SharesOfTwo(list: seq<Policy>)
    requires SearchesOf(list).media.Some? && SearchesOf(list).shared.Some?
    ensures var s := SearchesOf(list);
            var m, f := s.media.value, s.shared.value;
            && m != f
            && OwnShares(list[m], m, s) ==
               (if !s.RemovableBlocked() && (s.copy.None? || f < s.copy.value) then []
                else [Rule(DriveNetDrive, s.netBlocked, s.netBlocked, s.netBlocked, list[m].kind.blockLog, false, -1)])
            && OwnShares(list[f], f, s) ==
               if s.netBlocked then [] else [Rule(DriveNetDrive, false, false, true, list[f].kind.blockLog, false, -1)]
  {
    var s := SearchesOf(list);
    assert IsUsed(list[s.media.value], {Media}) && IsUsed(list[s.shared.value], {SharedFolder});
    hide FirstUsed;
  }
}
