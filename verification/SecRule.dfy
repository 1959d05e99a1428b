/** Supervisor rules (`CPISecRule`) and their compilation into the records sent to the kernel side. */
module SecRule {
  import opened CStrings
  import opened DrvKext

  /** The virtual types a rule can carry. */
  datatype VirtualType =
    | Unset
    | DriveRemovable | DriveCDDVD | DriveFloppy | DriveNetDrive
    | DeviceCDDVD | DeviceBluetooth | DeviceSerial | DeviceParallel | DeviceIEEE1394
    | DeviceInfrared | DevicePrinter | DeviceUSBMobile | DeviceCamera
    | NdisWLAN | NdisWWAN
    | ShareFileSharing | ShareRemoteManagement | ShareAirDrop
    | NetworkControl | PrinterControl | ProcessControl | ProcessPasteControl

  datatype Rule = Rule(virtualType: VirtualType, disableAll: bool, disableRead: bool, disableWrite: bool,
                       enableLog: bool, selectedBluetooth: bool, reserved1: int)

  const CLEAR_RULE := Rule(Unset, false, false, false, false, false, -1)

  /** The record of a rule object that was never asked for its data. */
  const FRESH_RECORD := DeviceEx(Device(false, false, false, false, -1, ""), 0)

  // The remaining device codes.
  const CODE_SERIAL := 0x0020
  const CODE_PARALLEL := 0x0040
  const CODE_1394 := 0x0080

  // The device names.
  const NAME_COPY: CStr := "CopyPrevent\\Removable"
  const NAME_USB: CStr := "Media\\Removable"
  const NAME_CDDVD: CStr := "Media\\CDDVD"
  const NAME_FLOPPY: CStr := "Media\\Floppy"
  const NAME_NETDRIVE: CStr := "Media\\NetDrive"
  const NAME_SERIAL: CStr := "Media\\Serial"
  const NAME_PARALLEL: CStr := "Media\\Parallel"
  const NAME_1394: CStr := "Media\\1394"

  /** What `getData` leaves in the rule's record, which keeps what earlier calls stored there. */
  function Encode(rule: Rule, record: DeviceEx): DeviceEx {
    var d := record.device.(loggingOn := rule.enableLog, disableAll := rule.disableAll,
                            disableRead := rule.disableRead, disableWrite := rule.disableWrite);
    var blocked := d.(reserved1 := if rule.disableWrite then 1 else d.reserved1);
    match rule.virtualType
    case DriveRemovable =>
      if !rule.disableRead && rule.reserved1 != 1 then DeviceEx(d.(name := NAME_COPY), CODE_COPY)
      else DeviceEx(blocked.(name := NAME_USB), CODE_USB)
    case DriveCDDVD => DeviceEx(blocked.(name := NAME_CDDVD), CODE_CDDVD)
    case DriveFloppy => DeviceEx(blocked.(name := NAME_FLOPPY), CODE_FLOPPY)
    case DriveNetDrive =>
      DeviceEx((if rule.disableRead || rule.reserved1 == 1 then blocked else d).(name := NAME_NETDRIVE), CODE_NETDRIVE)
    case DeviceSerial => DeviceEx(d.(name := NAME_SERIAL), CODE_SERIAL)
    case DeviceParallel => DeviceEx(d.(name := NAME_PARALLEL), CODE_PARALLEL)
    case DeviceIEEE1394 => DeviceEx(d.(name := NAME_1394), CODE_1394)
    case DeviceCDDVD => DeviceEx(d.(name := NAME_CDDVD), CODE_CDDVD)
    case DeviceBluetooth =>
      DeviceEx(d.(name := NAME_BLUETOOTH, reserved1 := if rule.selectedBluetooth then 1 else -1), CODE_BLUETOOTH)
    case _ => record.(device := d)
  }

  /** The device codes and names of the protocol, for the rules that have one. */
  lemma RecordNames(rule: Rule, record: DeviceEx)
    ensures var e := Encode(rule, record);
            match rule.virtualType
            case DriveRemovable =>
              if rule.disableRead || rule.reserved1 == 1 then e.code == 0x08 && e.device.name == "Media\\Removable"
              else e.code == 0x01 && e.device.name == "CopyPrevent\\Removable"
            case DriveCDDVD => e.code == 0x02 && e.device.name == "Media\\CDDVD"
            case DeviceCDDVD => e.code == 0x02 && e.device.name == "Media\\CDDVD"
            case DriveFloppy => e.code == 0x04 && e.device.name == "Media\\Floppy"
            case DriveNetDrive => e.code == 0x10 && e.device.name == "Media\\NetDrive"
            case DeviceSerial => e.code == 0x20 && e.device.name == "Media\\Serial"
            case DeviceParallel => e.code == 0x40 && e.device.name == "Media\\Parallel"
            case DeviceIEEE1394 => e.code == 0x80 && e.device.name == "Media\\1394"
            case DeviceBluetooth => e.code == 0x4000 && e.device.name == "Media\\Bluetooth"
            case _ => e.code == record.code && e.device.name == record.device.name
    ensures Encode(rule, record).device.loggingOn == rule.enableLog && Encode(rule, record).device.disableAll == rule.disableAll
    ensures Encode(rule, record).device.disableRead == rule.disableRead && Encode(rule, record).device.disableWrite == rule.disableWrite
    ensures rule.virtualType.DriveFloppy? ==> Encode(rule, record).device.reserved1 == if rule.disableWrite then 1 else record.device.reserved1
  {
  }

  predicate IsDriveRule(rule: Rule) {
    rule.virtualType.DriveRemovable? || rule.virtualType.DriveFloppy? || rule.virtualType.DriveCDDVD?
    || rule.virtualType.DeviceBluetooth? || rule.virtualType.DriveNetDrive?
  }

  /** The record sent for one drive rule: its data with the block-all flag forced off. */
  function Record(rule: Rule): DeviceEx {
    var e := Encode(rule, FRESH_RECORD);
    e.(device := e.device.(disableAll := false))
  }

  function DriveRecords(rules: seq<Rule>): seq<DeviceEx> {
    if rules == [] then []
    else DriveRecords(rules[..|rules| - 1])
         + if IsDriveRule(rules[|rules| - 1]) then [Record(rules[|rules| - 1])] else []
  }

  /** Without a drive rule a floppy rule with every flag off is sent, to clear the kernel's list. */
  const FLOPPY_CLEAR := CLEAR_RULE.(virtualType := DriveFloppy)

  function Compile(rules: seq<Rule>): seq<DeviceEx> {
    if DriveRecords(rules) == [] then [Record(FLOPPY_CLEAR)] else DriveRecords(rules)
  }

  class SecRuleObject {
    const rule: Rule
    var record: DeviceEx

    constructor (rule: Rule)
      ensures this.rule == rule && record == FRESH_RECORD
    {
      this.rule, record := rule, FRESH_RECORD;
    }

    /** `CPISecRule::getData` */
    method GetData() returns (r: DeviceEx)
      modifies this`record
      ensures r == record == Encode(rule, old(record))
    {
      var d := record.device;
      d := d.(loggingOn := rule.enableLog, disableAll := rule.disableAll);
      d := d.(disableRead := rule.disableRead, disableWrite := rule.disableWrite);
      var code := record.code;
      match rule.virtualType {
        case DriveRemovable =>
          if !rule.disableRead && rule.reserved1 != 1 {
            d, code := d.(name := NAME_COPY), CODE_COPY;
          } else {
            d, code := d.(name := NAME_USB), CODE_USB;
            if rule.disableWrite {
              d := d.(reserved1 := 1);
            }
          }
        case DriveCDDVD =>
          if rule.disableWrite {
            d := d.(reserved1 := 1);
          }
          d, code := d.(name := NAME_CDDVD), CODE_CDDVD;
        case DriveFloppy =>
          if rule.disableWrite {
            d := d.(reserved1 := 1);
          }
          d, code := d.(name := NAME_FLOPPY), CODE_FLOPPY;
        case DriveNetDrive =>
          d, code := d.(name := NAME_NETDRIVE), CODE_NETDRIVE;
          if rule.disableRead || rule.reserved1 == 1 {
            if rule.disableWrite {
              d := d.(reserved1 := 1);
            }
          }
        case DeviceSerial => d, code := d.(name := NAME_SERIAL), CODE_SERIAL;
        case DeviceParallel => d, code := d.(name := NAME_PARALLEL), CODE_PARALLEL;
        case DeviceIEEE1394 => d, code := d.(name := NAME_1394), CODE_1394;
        case DeviceCDDVD => d, code := d.(name := NAME_CDDVD), CODE_CDDVD;
        case DeviceBluetooth =>
          d, code := d.(name := NAME_BLUETOOTH), CODE_BLUETOOTH;
          d := d.(reserved1 := if rule.selectedBluetooth then 1 else -1);
        case _ =>
      }
      record := DeviceEx(d, code);
      r := record;
    }
  }

  /** `applyPolicyDrive`, up to the send: the records that go to the kernel side. */
  method ApplyPolicyDrive(ruleList: seq<Rule>) returns (records: seq<DeviceEx>)
    ensures records == Compile(ruleList)
  {
    var rules := ruleList;
    var count := 0;
    var pos := 0;
    while pos < |rules|
      invariant 0 <= pos <= |rules| && count == |DriveRecords(rules[..pos])|
    {
      assert rules[..pos + 1][..pos] == rules[..pos];
      if IsDriveRule(rules[pos]) {
        count := count + 1;
      }
      pos := pos + 1;
    }
    assert rules[..pos] == rules;
    if count == 0 {
      rules := rules + [FLOPPY_CLEAR];
      assert rules[..|ruleList|] == ruleList;
    }
    records, pos := [], 0;
    while pos < |rules|
      invariant 0 <= pos <= |rules| && records == DriveRecords(rules[..pos])
    {
      assert rules[..pos + 1][..pos] == rules[..pos];
      if IsDriveRule(rules[pos]) {
        var item := new SecRuleObject(rules[pos]);
        var data := item.GetData();
        records := records + [data.(device := data.device.(disableAll := false))];
      }
      pos := pos + 1;
    }
    assert rules[..pos] == rules;
  }

  // ---- What the records mean for files on removable volumes ----

  predicate IsUsbBus(busType: int): (r: bool)
    ensures r <==> busType in {0x04, 0x07, 0x31}
  {
    busType == BUS_USB || busType == BUS_1394 || busType == BUS_THUNDERBOLT
  }

  function Removables(rules: seq<Rule>): seq<Rule> {
    if rules == [] then []
    else Removables(rules[..|rules| - 1])
         + if rules[|rules| - 1].virtualType.DriveRemovable? then [rules[|rules| - 1]] else []
  }

  lemma {:induction false} RemovablesConcat(a: seq<Rule>, b: seq<Rule>)
    ensures Removables(a + b) == Removables(a) + Removables(b)
  {
    if b == [] {
      assert a + b == a;
    } else {
      var n := |b| - 1;
      RemovablesConcat(a, b[..n]);
      assert (a + b)[..|a + b| - 1] == a + b[..n];
      assert (a + b)[|a + b| - 1] == b[n];
    }
  }

  lemma {:induction false} FirstCompatibleAppend(records: seq<DeviceEx>, e: DeviceEx, busType: int)
    ensures FirstCompatible(records + [e], busType) ==
            if FirstCompatible(records, busType).Some? then FirstCompatible(records, busType)
            else if Compatible(busType, e.code) then Some(e) else None
  {
    if records == [] {
      assert records + [e] == [e];
      assert [e][1..] == [];
    } else {
      FirstCompatibleAppend(records[1..], e, busType);
      assert (records + [e])[1..] == records[1..] + [e];
    }
  }

  /** The rules of one virtual type. */
  function OfType(rules: seq<Rule>, vt: VirtualType): seq<Rule> {
    if rules == [] then []
    else OfType(rules[..|rules| - 1], vt)
         + if rules[|rules| - 1].virtualType == vt then [rules[|rules| - 1]] else []
  }

  lemma {:induction false} OfTypeConcat(a: seq<Rule>, b: seq<Rule>, vt: VirtualType)
    ensures OfType(a + b, vt) == OfType(a, vt) + OfType(b, vt)
  {
    if b == [] {
      assert a + b == a;
    } else {
      var n := |b| - 1;
      OfTypeConcat(a, b[..n], vt);
      assert (a + b)[..|a + b| - 1] == a + b[..n];
      assert (a + b)[|a + b| - 1] == b[n];
    }
  }

  lemma {:induction false} RemovablesAreOfType(rules: seq<Rule>)
    ensures Removables(rules) == OfType(rules, DriveRemovable)
  {
    if rules != [] {
      RemovablesAreOfType(rules[..|rules| - 1]);
    }
  }

  /** Which rules are meant for volumes on which bus: sticks, discs (ATAPI) and network shares. */
  predicate Serves(vt: VirtualType, busType: int) {
    || (vt == DriveRemovable && IsUsbBus(busType))
    || (vt == DriveCDDVD && busType == 0x02)
    || (vt == DriveNetDrive && busType == 0x21)
  }

  lemma RecordCompatible(rule: Rule, vt: VirtualType, busType: int)
    requires IsDriveRule(rule) && Serves(vt, busType)
    ensures Compatible(busType, Record(rule).code) <==> rule.virtualType == vt
  {
  }

  /** On a bus the first compatible record is that of the first rule meant for it. */
  lemma {:induction false} FirstRecordOfType(rules: seq<Rule>, vt: VirtualType, busType: int)
    requires Serves(vt, busType)
    ensures FirstCompatible(DriveRecords(rules), busType) ==
            if OfType(rules, vt) == [] then None else Some(Record(OfType(rules, vt)[0]))
  {
    if rules != [] {
      hide Record, Compatible, FirstCompatible;
      var n := |rules| - 1;
      FirstRecordOfType(rules[..n], vt, busType);
      if IsDriveRule(rules[n]) {
        FirstCompatibleAppend(DriveRecords(rules[..n]), Record(rules[n]), busType);
        RecordCompatible(rules[n], vt, busType);
      } else {
        assert DriveRecords(rules) == DriveRecords(rules[..n]);
        assert rules[n].virtualType != vt;
      }
      if OfType(rules[..n], vt) != [] {
        assert OfType(rules, vt)[0] == OfType(rules[..n], vt)[0];
      }
    } else {
      NoneCompatible(busType);
    }
  }

  lemma NoneCompatible(busType: int)
    ensures FirstCompatible([], busType).None?
  {
  }

  lemma CompiledRecordOfType(rules: seq<Rule>, vt: VirtualType, busType: int)
    requires Serves(vt, busType)
    ensures FirstCompatible(Compile(rules), busType) ==
            if OfType(rules, vt) == [] then None else Some(Record(OfType(rules, vt)[0]))
  {
    FirstRecordOfType(rules, vt, busType);
    var clear := Record(FLOPPY_CLEAR);
    FirstCompatibleAppend([], clear, busType);
    assert [] + [clear] == [clear];
    RecordCompatible(FLOPPY_CLEAR, vt, busType);
    NoneCompatible(busType);
    hide Record, OfType, FirstCompatible, Compatible;
  }

  /** Something is always sent, so that old policies get replaced, and without a drive rule it applies to no volume. */
  lemma NothingApplies(rules: seq<Rule>, busType: int)
    ensures Compile(rules) != []
    ensures (forall r | r in rules :: !IsDriveRule(r)) ==> FirstCompatible(Compile(rules), busType).None?
  {
    if forall r | r in rules :: !IsDriveRule(r) {
      NoDriveRecords(rules);
      FirstCompatibleAppend([], Record(FLOPPY_CLEAR), busType);
      assert [] + [Record(FLOPPY_CLEAR)] == [Record(FLOPPY_CLEAR)];
    }
  }

  lemma {:induction false} NoDriveRecords(rules: seq<Rule>)
    requires forall r | r in rules :: !IsDriveRule(r)
    ensures DriveRecords(rules) == []
  {
    if rules != [] {
      var n := |rules| - 1;
      assert rules[n] in rules;
      NoDriveRecords(rules[..n]);
    }
  }

  /** No rule is meant for any other bus, and no record applies to volumes there. */
  lemma {:induction false} OtherBusesAreFree(records: seq<DeviceEx>, busType: int)
    requires forall vt :: !Serves(vt, busType)
    ensures FirstCompatible(records, busType).None?
  {
    assert !Serves(DriveRemovable, busType) && !Serves(DriveCDDVD, busType) && !Serves(DriveNetDrive, busType);
    if records != [] {
      OtherBusesAreFree(records[1..], busType);
    }
  }

  /** On a USB-like bus the first compatible record is that of the first removable-drive rule. */
  lemma UsbPolicyIsFirstRemovable(rules: seq<Rule>, busType: int)
    requires IsUsbBus(busType)
    ensures FirstCompatible(DriveRecords(rules), busType) ==
            if Removables(rules) == [] then None else Some(Record(Removables(rules)[0]))
  {
    FirstRecordOfType(rules, DriveRemovable, busType);
    RemovablesAreOfType(rules);
  }

  /** The two flags for selected Bluetooth devices follow the Bluetooth rules among those compiled. */
  lemma {:induction false} BluetoothRecords(rules: seq<Rule>)
    ensures (exists p :: p in DriveRecords(rules) && p.device.name == NAME_BLUETOOTH && p.device.reserved1 == 1) <==>
            exists r :: r in rules && r.virtualType.DeviceBluetooth? && r.selectedBluetooth
    ensures (exists p :: p in DriveRecords(rules) && p.device.name == NAME_BLUETOOTH && p.device.loggingOn) <==>
            exists r :: r in rules && r.virtualType.DeviceBluetooth? && r.enableLog
  {
    if rules != [] {
      hide Record;
      var n := |rules| - 1;
      BluetoothRecords(rules[..n]);
      assert rules == rules[..n] + [rules[n]];
      BluetoothRecord(rules[n]);
      forall p
        ensures p in DriveRecords(rules) <==> p in DriveRecords(rules[..n]) || (IsDriveRule(rules[n]) && p == Record(rules[n]))
      {
      }
    }
  }

  /** So they do in what is sent, the clearing record included. */
  lemma CompiledBluetooth(rules: seq<Rule>)
    ensures (exists p :: p in Compile(rules) && p.device.name == NAME_BLUETOOTH && p.device.reserved1 == 1) <==>
            exists r :: r in rules && r.virtualType.DeviceBluetooth? && r.selectedBluetooth
    ensures (exists p :: p in Compile(rules) && p.device.name == NAME_BLUETOOTH && p.device.loggingOn) <==>
            exists r :: r in rules && r.virtualType.DeviceBluetooth? && r.enableLog
  {
    hide Record, DriveRecords;
    BluetoothRecords(rules);
    BluetoothRecord(FLOPPY_CLEAR);
  }

  lemma BluetoothRecord(rule: Rule)
    ensures var p := Record(rule);
            && (p.device.name == NAME_BLUETOOTH <==> rule.virtualType.DeviceBluetooth?)
            && (rule.virtualType.DeviceBluetooth? ==>
                  p.device.loggingOn == rule.enableLog && (p.device.reserved1 == 1 <==> rule.selectedBluetooth))
  {
    DifferentNames();
  }

  lemma DifferentNames()
    ensures NAME_BLUETOOTH !in [NAME_COPY, NAME_USB, NAME_CDDVD, NAME_FLOPPY, NAME_NETDRIVE, NAME_SERIAL, NAME_PARALLEL, NAME_1394, ""]
  {
    assert NAME_BLUETOOTH[6] == 'B' && |NAME_BLUETOOTH| == 15;
  }

  /** The entry a rule's record produces for a volume, if it produces one. */
  function RuleEntry(rule: Rule, base: CStr): Option<DeviceEx>
  {
    var e := Named(Record(rule), base);
    if Enabled(e) then Some(e) else None
  }

  /** The compiled meaning of a removable-drive rule, and the exclusiveness of the three write outcomes. */
  lemma RemovableMeaning(rule: Rule, base: CStr)
    requires rule.virtualType.DriveRemovable?
    ensures var g := RuleEntry(rule, base);
            && (ReadDenied(g) <==> rule.disableRead)
            && (WriteDenied(g) <==> rule.disableWrite && (rule.disableRead || rule.reserved1 == 1))
            && (ContentScanned(g) <==> rule.disableWrite && !rule.disableRead && rule.reserved1 != 1)
            && (WriteAllowed(g) <==> rule.enableLog && !rule.disableRead && !rule.disableWrite)
            && !(WriteDenied(g) && ContentScanned(g))
            && !(WriteAllowed(g) && (WriteDenied(g) || ContentScanned(g)))
  {
  }

  /** A network-drive rule means the same for a share. */
  lemma ShareMeaning(rule: Rule, base: CStr)
    requires rule.virtualType.DriveNetDrive?
    ensures var g := RuleEntry(rule, base);
            && (ReadDenied(g) <==> rule.disableRead)
            && (WriteDenied(g) <==> rule.disableWrite && (rule.disableRead || rule.reserved1 == 1))
            && (ContentScanned(g) <==> rule.disableWrite && !rule.disableRead && rule.reserved1 != 1)
            && (WriteAllowed(g) <==> rule.enableLog && !rule.disableRead && !rule.disableWrite)
  {
  }

  /** A disc rule denies what it blocks; nothing on a disc is ever scanned. */
  lemma DiscMeaning(rule: Rule, base: CStr)
    requires rule.virtualType.DriveCDDVD?
    ensures var g := RuleEntry(rule, base);
            && (ReadDenied(g) <==> rule.disableRead) && (WriteDenied(g) <==> rule.disableWrite) && !ContentScanned(g)
            && (WriteAllowed(g) <==> rule.enableLog && !rule.disableRead && !rule.disableWrite)
  {
  }

  /** The entry logs iff the rule does, and there is one iff the rule logs or blocks something. */
  lemma EntryOfRule(rule: Rule, base: CStr)
    requires rule.virtualType.DriveRemovable? || rule.virtualType.DriveNetDrive? || rule.virtualType.DriveCDDVD?
    ensures RuleEntry(rule, base).Some? <==> rule.enableLog || rule.disableRead || rule.disableWrite
    ensures RuleEntry(rule, base).Some? ==>
              var d := RuleEntry(rule, base).value.device; d.loggingOn == rule.enableLog && d.name == base
  {
  }

  /** On a volume without exception the first rule meant for its bus decides, for the paths that no earlier volume
      covers. A rule with no flag on leaves its volume without an entry, so a later volume may govern the path; so
      does the lack of such a rule. */
  lemma GoverningOnVolume(rules: seq<Rule>, vt: VirtualType, excepts: seq<DeviceEx>, volumes: seq<Volume>, i: nat, path: string)
    requires i < |volumes| && Serves(vt, volumes[i].busType)
    requires FindExcept(excepts, volumes[i].basePath).None?
    requires Covers(volumes[i].basePath, path)
    requires Governing(Recompute(Compile(rules), excepts, volumes[..i]), path).None?
    ensures var entry := if OfType(rules, vt) == [] then None else RuleEntry(OfType(rules, vt)[0], volumes[i].basePath);
            Governing(Recompute(Compile(rules), excepts, volumes), path) ==
            if entry.Some? then entry else Governing(Recompute(Compile(rules), excepts, volumes[i + 1..]), path)
  {
    hide Compile, OfType, Record, Compatible, Recompute;
    CompiledRecordOfType(rules, vt, volumes[i].busType);
    var p := Compile(rules);
    RecomputeAround(p, excepts, volumes, i);
    var before, own, after := Recompute(p, excepts, volumes[..i]), Resolve(p, excepts, volumes[i]), Recompute(p, excepts, volumes[i + 1..]);
    GoverningConcat(before, own + after, path);
    GoverningConcat(own, after, path);
    if OfType(rules, vt) != [] {
      assert own == Kept(Named(Record(OfType(rules, vt)[0]), volumes[i].basePath));
    }
    if own != [] {
      assert Governing(own, path) == Some(own[0]);
    }
  }

  lemma GoverningOnUsbVolume(rules: seq<Rule>, excepts: seq<DeviceEx>, volumes: seq<Volume>, i: nat, path: string)
    requires i < |volumes| && IsUsbBus(volumes[i].busType)
    requires FindExcept(excepts, volumes[i].basePath).None?
    requires Covers(volumes[i].basePath, path)
    requires Governing(Recompute(Compile(rules), excepts, volumes[..i]), path).None?
    requires |Removables(rules)| >= 1
    ensures var entry := RuleEntry(Removables(rules)[0], volumes[i].basePath);
            Governing(Recompute(Compile(rules), excepts, volumes), path) ==
            if entry.Some? then entry else Governing(Recompute(Compile(rules), excepts, volumes[i + 1..]), path)
  {
    RemovablesAreOfType(rules);
    GoverningOnVolume(rules, DriveRemovable, excepts, volumes, i, path);
    hide Compile, OfType, Removables, Recompute, Governing;
  }
}
