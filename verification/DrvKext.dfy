/** The enforcement tables of the kernel side: volumes x policies x exceptions, and the derived
    table `CtrlDeviceEx` that every file decision reads. */
module DrvKext {
  import opened CStrings

  const MAX_DRIVE := 26
  const MAX_DEVICE := 36
  const MAX_POLICY := 36

  // Storage device codes.
  const CODE_COPY := 0x0001
  const CODE_CDDVD := 0x0002
  const CODE_FLOPPY := 0x0004
  const CODE_USB := 0x0008
  const CODE_NETDRIVE := 0x0010
  const CODE_BLUETOOTH := 0x4000

  const NAME_BLUETOOTH: CStr := "Media\\Bluetooth"

  // Bus types.
  const BUS_ATAPI := 0x02
  const BUS_1394 := 0x04
  const BUS_USB := 0x07
  const BUS_SFOLDER := 0x21
  const BUS_THUNDERBOLT := 0x31

  datatype Device = Device(loggingOn: bool, disableAll: bool, disableRead: bool, disableWrite: bool,
                           reserved1: int, name: CStr)
  datatype DeviceEx = DeviceEx(device: Device, code: int)
  datatype Volume = Volume(deviceName: CStr, basePath: CStr, busType: int)

  /** A zeroed table entry. */
  const EMPTY_EX := DeviceEx(Device(false, false, false, false, 0, ""), 0)
  const EMPTY_VOLUME := Volume("", "", 0)

  // ---- Resolution of one volume ----

  /** `strcasecmp(a, b) == 0` */
  predicate EqualNoCase(a: string, b: string) {
    |a| == |b| && forall i | 0 <= i < |a| :: Lower(a[i]) == Lower(b[i])
  }

  /** Which policy codes apply to which bus. On Linux an unknown bus type stays unknown. */
  predicate Compatible(busType: int, code: int) {
    if busType == BUS_USB || busType == BUS_1394 || busType == BUS_THUNDERBOLT then
      code == CODE_COPY || code == CODE_USB
    else if busType == BUS_ATAPI then code == CODE_CDDVD
    else busType == BUS_SFOLDER && code == CODE_NETDRIVE
  }

  /** Only an entry with some flag on reaches the table. */
  predicate Enabled(e: DeviceEx) {
    e.device.loggingOn || e.device.disableAll || e.device.disableRead || e.device.disableWrite
  }

  function Kept(e: DeviceEx): seq<DeviceEx> {
    if Enabled(e) then [e] else []
  }

  function Named(e: DeviceEx, base: CStr): DeviceEx {
    e.(device := e.device.(name := base))
  }

  function FindExcept(excepts: seq<DeviceEx>, base: CStr): Option<DeviceEx> {
    if excepts == [] then None
    else if EqualNoCase(excepts[0].device.name, base) then Some(excepts[0])
    else FindExcept(excepts[1..], base)
  }

  function FirstCompatible(policies: seq<DeviceEx>, busType: int): Option<DeviceEx> {
    if policies == [] then None
    else if Compatible(busType, policies[0].code) then Some(policies[0])
    else FirstCompatible(policies[1..], busType)
  }

  /** The table entries of one volume: its exception if it has one, else its first bus-compatible policy. */
  function Resolve(policies: seq<DeviceEx>, excepts: seq<DeviceEx>, v: Volume): (r: seq<DeviceEx>)
    ensures |r| <= 1
  {
    match FindExcept(excepts, v.basePath)
    case Some(e) => Kept(e)
    case None =>
      match FirstCompatible(policies, v.busType)
      case Some(p) => Kept(Named(p, v.basePath))
      case None => []
  }

  /** The whole table, recomputed from scratch in volume order. */
  function Recompute(policies: seq<DeviceEx>, excepts: seq<DeviceEx>, volumes: seq<Volume>): (r: seq<DeviceEx>)
    ensures |r| <= |volumes|
  {
    if volumes == [] then []
    else
      var n := |volumes| - 1;
      Recompute(policies, excepts, volumes[..n]) + Resolve(policies, excepts, volumes[n])
  }

  // ---- Decisions ----

  /** The entry that decides about `path`: the first one whose volume covers it. */
  function Governing(table: seq<DeviceEx>, path: string): (r: Option<DeviceEx>) {
    if table == [] then None
    else if Covers(table[0].device.name, path) then Some(table[0])
    else Governing(table[1..], path)
  }

  lemma {:induction false} GoverningConcat(a: seq<DeviceEx>, b: seq<DeviceEx>, path: string)
    ensures Governing(a + b, path) == if Governing(a, path).Some? then Governing(a, path) else Governing(b, path)
  {
    if a == [] {
      assert a + b == b;
    } else {
      GoverningConcat(a[1..], b, path);
      assert (a + b)[1..] == a[1..] + b;
    }
  }

  predicate ReadDenied(e: Option<DeviceEx>) {
    e.Some? && (e.value.device.disableAll || e.value.device.disableRead)
  }

  predicate WriteDenied(e: Option<DeviceEx>) {
    e.Some? && (e.value.device.disableAll || (e.value.device.disableWrite && e.value.device.reserved1 == 1))
  }

  predicate WriteAllowed(e: Option<DeviceEx>) {
    e.Some? && !e.value.device.disableRead && !e.value.device.disableWrite
  }

  predicate ContentScanned(e: Option<DeviceEx>) {
    e.Some? && e.value.device.disableWrite && e.value.device.reserved1 == -1
  }

  /** The processes and paths for which the read check defers instead of deciding. */
  predicate ReadBypass(procName: string, path: string) {
    && (StartsNoCase(procName, "sharedfilelistd") || StartsNoCase(procName, "Finder") || StartsNoCase(procName, "lsd"))
    && "/Volumes/" <= path && '/' !in path[9..]
  }

  predicate StartsNoCase(s: string, prefix: string) {
    |prefix| <= |s| && EqualNoCase(s[..|prefix|], prefix)
  }

  /** The bypass is for the volumes themselves, "/Volumes/" and one name, and three processes by the start of their
      names in any letter case. */
  lemma ReadBypassExactly(procName: string, path: string)
    ensures ReadBypass(procName, path) <==>
            && (exists name: string :: path == "/Volumes/" + name && '/' !in name)
            && exists known :: known in {"sharedfilelistd", "finder", "lsd"} && LowerStarts(procName, known)
  {
    if "/Volumes/" <= path && '/' !in path[9..] {
      assert path == "/Volumes/" + path[9..];
    }
    if name: string :| path == "/Volumes/" + name && '/' !in name {
      assert path[9..] == name;
    }
    StartsExactly(procName, "sharedfilelistd", "sharedfilelistd");
    StartsExactly(procName, "Finder", "finder");
    StartsExactly(procName, "lsd", "lsd");
    hide StartsNoCase;
  }

  predicate LowerStarts(s: string, known: string) {
    |known| <= |s| && forall i | 0 <= i < |known| :: Lower(s[i]) == known[i]
  }

  lemma StartsExactly(s: string, prefix: string, known: string)
    requires |prefix| == |known| && forall i | 0 <= i < |known| :: Lower(prefix[i]) == known[i]
    ensures StartsNoCase(s, prefix) <==> LowerStarts(s, known)
  {
  }

  // ---- Abstract state and runs ----

  datatype State = State(policies: seq<DeviceEx>, excepts: seq<DeviceEx>, volumes: seq<Volume>, table: seq<DeviceEx>)

  datatype Op =
    | SetPolicy(policies: seq<DeviceEx>)
    | SetExcept(devices: seq<Device>)
    | Refresh
    | VolumeSeen(deviceName: CStr, basePath: CStr, busType: int)
    | VolumesCleared

  const INITIAL := State([], [], [], [])

  ghost predicate Agreement(s: State) {
    s.table == Recompute(s.policies, s.excepts, s.volumes)
  }

  /** A volume is known when the new device name is a prefix of a recorded one. */
  function FirstKnown(volumes: seq<Volume>, deviceName: string): (r: Option<nat>)
    ensures r.Some? ==> r.value < |volumes| && deviceName <= volumes[r.value].deviceName
    ensures forall j | 0 <= j < (if r.Some? then r.value else |volumes|) :: !(deviceName <= volumes[j].deviceName)
  {
    if volumes == [] then None
    else if deviceName <= volumes[0].deviceName then Some(0)
    else
      match FirstKnown(volumes[1..], deviceName)
      case Some(i) => Some(i + 1)
      case None => None
  }

  function Rebuilt(s: State): State {
    s.(table := Recompute(s.policies, s.excepts, s.volumes))
  }

  /** The exception list is dropped as a whole, entry by zeroed entry, when it exceeds MAX_DRIVE. */
  function ExceptTable(devices: seq<Device>): (r: seq<DeviceEx>)
    ensures |r| == |devices|
  {
    seq(|devices|, i requires 0 <= i < |devices| =>
      if |devices| > MAX_DRIVE then EMPTY_EX else DeviceEx(devices[i], CODE_USB))
  }

  function AddVolume(s: State, v: Volume): State {
    s.(volumes := s.volumes + [v], table := s.table + Resolve(s.policies, s.excepts, v))
  }

  function Moved(v: Volume, basePath: CStr, busType: int): Volume {
    v.(basePath := basePath, busType := busType)
  }

  function ChangeVolume(s: State, i: nat, v: Volume): State
    requires i < |s.volumes|
  {
    s.(volumes := s.volumes[i := v], table := s.table + Resolve(s.policies, s.excepts, v))
  }

  function SeeVolume(s: State, deviceName: CStr, basePath: CStr, busType: int): State {
    match FirstKnown(s.volumes, deviceName)
    case None => AddVolume(s, Volume(deviceName, basePath, busType))
    case Some(i) =>
      if busType == s.volumes[i].busType then s
      else ChangeVolume(s, i, Moved(s.volumes[i], basePath, busType))
  }

  /** `FetchVolumes`: the volumes are cleared and those now mounted are seen one by one. */
  function Fetched(s: State, mounted: seq<Volume>): (r: State)
    ensures r.policies == s.policies && r.excepts == s.excepts
  {
    if mounted == [] then s.(volumes := [])
    else
      var n := |mounted| - 1;
      SeeVolume(Fetched(s, mounted[..n]), mounted[n].deviceName, mounted[n].basePath, mounted[n].busType)
  }

  function Apply(s: State, op: Op): State {
    match op
    case SetPolicy(policies) => Rebuilt(s.(policies := policies))
    case SetExcept(devices) => Rebuilt(s.(excepts := ExceptTable(devices)))
    case Refresh => Rebuilt(s)
    case VolumeSeen(d, b, t) => SeeVolume(s, d, b, t)
    case VolumesCleared => s.(volumes := [])
  }

  function Run(s: State, ops: seq<Op>): State {
    if ops == [] then s else Apply(Run(s, ops[..|ops| - 1]), ops[|ops| - 1])
  }

  /** Seeing a known device on another bus appends a second entry behind the old one: harmless only if the
      device had no entry, and its new entry, if any, equals every entry behind it. */
  ghost predicate ChangeIsHarmless(s: State, i: nat, v: Volume)
    requires i < |s.volumes|
  {
    && Resolve(s.policies, s.excepts, s.volumes[i]) == []
    && (Resolve(s.policies, s.excepts, v) != [] ==>
          AllEqual(Recompute(s.policies, s.excepts, s.volumes[i + 1..]), Resolve(s.policies, s.excepts, v)[0]))
  }

  predicate AllEqual(b: seq<DeviceEx>, e: DeviceEx) {
    forall i | 0 <= i < |b| :: b[i] == e
  }

  /** The operations after which the table no longer agrees with its recomputation. */
  ghost predicate Disturbs(s: State, op: Op) {
    match op
    case VolumesCleared => s.table != []
    case VolumeSeen(d, b, t) =>
      var known := FirstKnown(s.volumes, d);
      && known.Some?
      && t != s.volumes[known.value].busType
      && !ChangeIsHarmless(s, known.value, Moved(s.volumes[known.value], b, t))
    case _ => false
  }

  lemma {:induction false} RecomputeConcat(policies: seq<DeviceEx>, excepts: seq<DeviceEx>, a: seq<Volume>, b: seq<Volume>)
    ensures Recompute(policies, excepts, a + b) == Recompute(policies, excepts, a) + Recompute(policies, excepts, b)
    decreases |b|
  {
    hide Resolve;
    if b == [] {
      assert a + b == a;
    } else {
      var n := |b| - 1;
      RecomputeConcat(policies, excepts, a, b[..n]);
      assert (a + b)[..|a + b| - 1] == a + b[..n];
      assert (a + b)[|a + b| - 1] == b[n];
      var x, y, z := Recompute(policies, excepts, a), Recompute(policies, excepts, b[..n]), Resolve(policies, excepts, b[n]);
      assert Recompute(policies, excepts, a + b) == (x + y) + z;
      assert (x + y) + z == x + (y + z);
    }
  }

  lemma {:induction false} CommutesWithAll(e: DeviceEx, b: seq<DeviceEx>)
    ensures [e] + b == b + [e] <==> AllEqual(b, e)
  {
    if b != [] {
      CommutesWithAll(e, b[1..]);
      assert b == [b[0]] + b[1..];
      if [e] + b == b + [e] {
        assert b[0] == ([e] + b)[0] == (b + [e])[0];
        assert b[1..] + [e] == (b + [e])[1..] == b;
        assert forall i | 1 <= i < |b| :: b[i] == b[1..][i - 1];
      }
      if AllEqual(b, e) {
        assert b + [e] == [b[0]] + (b[1..] + [e]);
      }
    }
  }

  lemma RecomputeAround(policies: seq<DeviceEx>, excepts: seq<DeviceEx>, volumes: seq<Volume>, i: nat)
    requires i < |volumes|
    ensures Recompute(policies, excepts, volumes) ==
            Recompute(policies, excepts, volumes[..i])
            + (Resolve(policies, excepts, volumes[i]) + Recompute(policies, excepts, volumes[i + 1..]))
  {
    assert volumes == volumes[..i] + ([volumes[i]] + volumes[i + 1..]);
    RecomputeConcat(policies, excepts, volumes[..i], [volumes[i]] + volumes[i + 1..]);
    RecomputeConcat(policies, excepts, [volumes[i]], volumes[i + 1..]);
    assert [volumes[i]][..0] == [];
    assert Recompute(policies, excepts, [volumes[i]]) == Resolve(policies, excepts, volumes[i]);
  }

  lemma ChangeAgreement(s: State, i: nat, v: Volume)
    requires Agreement(s) && i < |s.volumes|
    ensures Agreement(ChangeVolume(s, i, v)) <==> ChangeIsHarmless(s, i, v)
  {
    RecomputeAround(s.policies, s.excepts, s.volumes, i);
    RecomputeAround(s.policies, s.excepts, s.volumes[i := v], i);
    assert s.volumes[i := v][..i] == s.volumes[..i] && s.volumes[i := v][i + 1..] == s.volumes[i + 1..];
    var a, b := Recompute(s.policies, s.excepts, s.volumes[..i]), Recompute(s.policies, s.excepts, s.volumes[i + 1..]);
    var r, r' := Resolve(s.policies, s.excepts, s.volumes[i]), Resolve(s.policies, s.excepts, v);
    AppendVersusReplace(a, b, r, r');
    if r' != [] {
      assert r' == [r'[0]];
      CommutesWithAll(r'[0], b);
    } else {
      assert r' + b == b == b + r';
    }
  }

  lemma AppendVersusReplace(a: seq<DeviceEx>, b: seq<DeviceEx>, r: seq<DeviceEx>, r': seq<DeviceEx>)
    ensures a + (r + b) + r' == a + (r' + b) <==> r == [] && r' + b == b + r'
  {
    if a + (r + b) + r' == a + (r' + b) {
      assert |r| == 0;
      assert (a + (r + b) + r')[|a|..] == b + r';
      assert (a + (r' + b))[|a|..] == r' + b;
    }
    if r == [] && r' + b == b + r' {
      assert a + (r + b) + r' == a + (b + r');
    }
  }

  /** From an agreeing state every operation keeps agreement except exactly the disturbing ones. */
  lemma StepAgreement(s: State, op: Op)
    requires Agreement(s)
    ensures Agreement(Apply(s, op)) <==> !Disturbs(s, op)
  {
    match op
    case VolumeSeen(d, b, t) =>
      var known := FirstKnown(s.volumes, d);
      if known.Some? {
        ChangeAgreement(s, known.value, Moved(s.volumes[known.value], b, t));
      } else {
        assert (s.volumes + [Volume(d, b, t)])[..|s.volumes|] == s.volumes;
      }
    case _ =>
  }

  /** Over a whole run: if nothing disturbed the table since the last full rebuild (or the start), it agrees,
      and it holds no more entries than there are volumes. */
  lemma {:induction false} RunAgreement(ops: seq<Op>, from: nat)
    requires from <= |ops|
    requires from > 0 ==> ops[from - 1].SetPolicy? || ops[from - 1].SetExcept? || ops[from - 1].Refresh?
    requires forall i | from <= i < |ops| :: !Disturbs(Run(INITIAL, ops[..i]), ops[i])
    ensures Agreement(Run(INITIAL, ops))
    ensures |Run(INITIAL, ops).table| <= |Run(INITIAL, ops).volumes|
    decreases |ops|
  {
    hide Apply, Disturbs, Recompute;
    if ops != [] {
      var n := |ops| - 1;
      if from == |ops| {
        RebuildAgrees(Run(INITIAL, ops[..n]), ops[n]);
      } else {
        forall i | from <= i < n
          ensures !Disturbs(Run(INITIAL, ops[..n][..i]), ops[..n][i])
        {
          assert ops[..n][..i] == ops[..i];
        }
        RunAgreement(ops[..n], from);
        StepAgreement(Run(INITIAL, ops[..n]), ops[n]);
      }
    } else {
      InitialAgrees();
    }
  }

  lemma RebuildAgrees(s: State, op: Op)
    requires op.SetPolicy? || op.SetExcept? || op.Refresh?
    ensures Agreement(Apply(s, op))
  {
    hide Recompute;
  }

  lemma InitialAgrees()
    ensures Agreement(INITIAL)
  {
  }

  lemma ClearIsFetch(s: State)
    ensures Apply(s, VolumesCleared) == Fetched(s, [])
  {
  }

  lemma SeenIsApplied(s: State, v: Volume)
    ensures Apply(s, VolumeSeen(v.deviceName, v.basePath, v.busType)) == SeeVolume(s, v.deviceName, v.basePath, v.busType)
  {
  }

  /** Nothing that was added gets lost while more volumes are seen. */
  lemma {:induction false} FetchGrows(s: State, mounted: seq<Volume>, k: nat)
    requires k <= |mounted|
    ensures |Fetched(s, mounted[..k]).volumes| <= |Fetched(s, mounted).volumes|
    ensures |Fetched(s, mounted[..k]).table| <= |Fetched(s, mounted).table|
  {
    hide SeeVolume;
    if k < |mounted| {
      var n := |mounted| - 1;
      assert mounted[..n][..k] == mounted[..k];
      FetchGrows(s, mounted[..n], k);
      SeeGrows(Fetched(s, mounted[..n]), mounted[n]);
    } else {
      assert mounted[..k] == mounted;
    }
  }

  lemma SeeGrows(s: State, v: Volume)
    ensures |SeeVolume(s, v.deviceName, v.basePath, v.busType).volumes| >= |s.volumes|
    ensures |SeeVolume(s, v.deviceName, v.basePath, v.busType).table| >= |s.table|
  {
    hide Resolve, FirstKnown;
  }

  /** What seeing a volume does to the volumes: the first one whose device name starts with the new one counts as the
      same device. Its record keeps the device name and takes the new mount path and bus type if the bus type is
      new, and stays as it is otherwise. */
  lemma SeenVolumes(s: State, deviceName: CStr, basePath: CStr, busType: int)
    ensures var t := SeeVolume(s, deviceName, basePath, busType);
            if forall j | 0 <= j < |s.volumes| :: !(deviceName <= s.volumes[j].deviceName) then
              t.volumes == s.volumes + [Volume(deviceName, basePath, busType)]
            else
              exists i :: 0 <= i < |s.volumes| && deviceName <= s.volumes[i].deviceName
                && (forall j | 0 <= j < i :: !(deviceName <= s.volumes[j].deviceName))
                && (if busType == s.volumes[i].busType then t == s
                    else t.volumes == s.volumes[i := Volume(s.volumes[i].deviceName, basePath, busType)])
  {
  }

  lemma {:induction false} FirstException(devices: seq<Device>, n: nat, base: CStr, k: nat)
    requires k < |devices| && |devices| <= 26 && n <= k && EqualNoCase(devices[k].name, base)
    requires forall j | n <= j < k :: !EqualNoCase(devices[j].name, base)
    ensures FindExcept(ExceptTable(devices)[n..], base) == Some(DeviceEx(devices[k], CODE_USB))
    decreases k - n
  {
    hide EqualNoCase;
    var table := ExceptTable(devices);
    assert table[n..][1..] == table[n + 1..] && table[n..][0] == table[n];
    if n < k {
      FirstException(devices, n + 1, base, k);
    }
  }

  /** Up to 26 exceptions take precedence over every policy: the first one with the mount path of a volume, in any
      letter case, decides there, by its own flags and under its own name. One with no flag on leaves the volume
      without an entry. */
  lemma ExceptionDecides(s: State, devices: seq<Device>, k: nat, i: nat, path: string)
    requires |devices| <= 26 && k < |devices| && i < |s.volumes|
    requires EqualNoCase(devices[k].name, s.volumes[i].basePath) && Covers(devices[k].name, path)
    requires forall j | 0 <= j < k :: !EqualNoCase(devices[j].name, s.volumes[i].basePath)
    requires Governing(Recompute(s.policies, ExceptTable(devices), s.volumes[..i]), path).None?
    ensures var d, g := devices[k], Governing(Apply(s, SetExcept(devices)).table, path);
            if d.loggingOn || d.disableAll || d.disableRead || d.disableWrite then
              && g.Some? && g.value.device.loggingOn == d.loggingOn
              && (ReadDenied(g) <==> d.disableAll || d.disableRead)
              && (WriteDenied(g) <==> d.disableAll || (d.disableWrite && d.reserved1 == 1))
              && (ContentScanned(g) <==> d.disableWrite && d.reserved1 == -1)
              && (WriteAllowed(g) <==> !d.disableRead && !d.disableWrite)
            else g == Governing(Recompute(s.policies, ExceptTable(devices), s.volumes[i + 1..]), path)
  {
    var x, v := ExceptTable(devices), s.volumes[i];
    FirstException(devices, 0, v.basePath, k);
    assert x[0..] == x;
    RecomputeAround(s.policies, x, s.volumes, i);
    var before, own, after := Recompute(s.policies, x, s.volumes[..i]), Resolve(s.policies, x, v), Recompute(s.policies, x, s.volumes[i + 1..]);
    GoverningConcat(before, own + after, path);
    GoverningConcat(own, after, path);
    assert own == Kept(DeviceEx(devices[k], CODE_USB));
    if own != [] {
      assert Governing(own, path) == Some(own[0]);
    }
    hide Recompute, EqualNoCase, Covers, ExceptTable, FindExcept, FirstCompatible;
  }

  /** More than MAX_DRIVE exceptions count as none at all, for every volume with a mount path. */
  lemma TooManyExceptsAreNone(devices: seq<Device>, base: CStr)
    requires |devices| > 26 && base != ""
    ensures FindExcept(ExceptTable(devices), base).None?
  {
    NoneAmongEmpty(ExceptTable(devices), base);
  }

  lemma {:induction false} NoneAmongEmpty(excepts: seq<DeviceEx>, base: CStr)
    requires base != "" && AllEqual(excepts, EMPTY_EX)
    ensures FindExcept(excepts, base).None?
  {
    if excepts != [] {
      NoneAmongEmpty(excepts[1..], base);
    }
  }

  /** The log parameter of a decision function. */
  class LogParam {
    var log: bool
    var policyType: int
    var allow: bool

    constructor ()
      ensures !log && policyType == 0 && !allow
    {
      log, policyType, allow := false, 0, false;
    }
  }

  /** The log parameter carries what the deciding entry says. */
  predicate Logged(log: LogParam, e: DeviceEx)
    reads log
  {
    log.log == e.device.loggingOn && log.policyType == e.code
  }

  class Kext {
    const policy: array<DeviceEx>
    const excepts: array<DeviceEx>
    const volume: array<Volume>
    const ctrl: array<DeviceEx>
    var policyCount: nat
    var exceptCount: nat
    var volumeCount: nat
    var deviceCount: nat
    var selectedBluetoothBlock: bool
    var bluetoothLog: bool

    ghost predicate Valid()
      reads this
    {
      && policy.Length == MAX_POLICY && excepts.Length == MAX_DEVICE
      && volume.Length == MAX_DEVICE && ctrl.Length == MAX_DEVICE
      && policy != excepts && policy != ctrl && excepts != ctrl
      && policyCount <= MAX_POLICY && exceptCount <= MAX_DEVICE
      && volumeCount <= MAX_DEVICE && deviceCount <= MAX_DEVICE
    }

    ghost function Policies(): seq<DeviceEx>
      requires Valid()
      reads this, policy
    {
      policy[..policyCount]
    }

    ghost function Excepts(): seq<DeviceEx>
      requires Valid()
      reads this, excepts
    {
      excepts[..exceptCount]
    }

    ghost function Volumes(): seq<Volume>
      requires Valid()
      reads this, volume
    {
      volume[..volumeCount]
    }

    ghost function Table(): seq<DeviceEx>
      requires Valid()
      reads this, ctrl
    {
      ctrl[..deviceCount]
    }

    ghost function Abs(): State
      requires Valid()
      reads this, policy, excepts, volume, ctrl
    {
      State(Policies(), Excepts(), Volumes(), Table())
    }

    constructor ()
      ensures Valid() && Abs() == INITIAL
      ensures fresh(policy) && fresh(excepts) && fresh(volume) && fresh(ctrl)
    {
      policy := new DeviceEx[MAX_POLICY](_ => EMPTY_EX);
      excepts := new DeviceEx[MAX_DEVICE](_ => EMPTY_EX);
      volume := new Volume[MAX_DEVICE](_ => EMPTY_VOLUME);
      ctrl := new DeviceEx[MAX_DEVICE](_ => EMPTY_EX);
      policyCount, exceptCount, volumeCount, deviceCount := 0, 0, 0, 0;
      selectedBluetoothBlock, bluetoothLog := false, false;
    }

    /** `DrvCtx_Policy_Apply`: appends an enabled entry. The table has no bound check of its own. */
    method PolicyApply(e: DeviceEx) returns (applied: bool)
      requires Valid() && (Enabled(e) ==> deviceCount < MAX_DEVICE)
      modifies this`deviceCount, ctrl
      ensures Valid() && applied == Enabled(e)
      ensures Table() == old(Table()) + Kept(e)
    {
      if Enabled(e) {
        ctrl[deviceCount] := e;
        deviceCount := deviceCount + 1;
        return true;
      }
      applied := false;
    }

    /** `DrvCtx_Except_Search` */
    method ExceptSearch(base: CStr) returns (r: Option<DeviceEx>)
      requires Valid()
      ensures r == FindExcept(Excepts(), base)
    {
      var pos := 0;
      while pos < exceptCount
        invariant 0 <= pos <= exceptCount
        invariant FindExcept(Excepts(), base) == FindExcept(Excepts()[pos..], base)
      {
        if EqualNoCase(excepts[pos].device.name, base) {
          return Some(excepts[pos]);
        }
        pos := pos + 1;
      }
      r := None;
    }

    /** `DrvCtx_Policy_Update_DriveName` */
    method UpdateDriveName(v: Volume)
      requires Valid() && deviceCount + |Resolve(Policies(), Excepts(), v)| <= MAX_DEVICE
      modifies this`deviceCount, ctrl
      ensures Valid()
      ensures Table() == old(Table()) + Resolve(Policies(), Excepts(), v)
    {
      var except := ExceptSearch(v.basePath);
      if except.Some? {
        var _ := PolicyApply(except.value);
        return;
      }
      var pos := 0;
      while pos < policyCount
        invariant 0 <= pos <= policyCount
        invariant Table() == old(Table()) && deviceCount == old(deviceCount)
        invariant FirstCompatible(Policies(), v.busType) == FirstCompatible(Policies()[pos..], v.busType)
      {
        if Compatible(v.busType, policy[pos].code) {
          var _ := PolicyApply(Named(policy[pos], v.basePath));
          return;
        }
        pos := pos + 1;
      }
    }

    /** `DrvCtx_Policy_Update` rebuilds the table from any state. */
    method PolicyUpdate()
      requires Valid()
      modifies this`deviceCount, ctrl
      ensures Valid() && Abs() == Rebuilt(old(Abs()))
    {
      hide Resolve;
      deviceCount := 0;
      forall i | 0 <= i < ctrl.Length {
        ctrl[i] := EMPTY_EX;
      }
      var pos := 0;
      while pos < volumeCount
        invariant 0 <= pos <= volumeCount
        invariant deviceCount <= pos
        invariant Policies() == old(Policies()) && Excepts() == old(Excepts()) && Volumes() == old(Volumes())
        invariant Table() == Recompute(Policies(), Excepts(), Volumes()[..pos])
      {
        UpdateDriveName(volume[pos]);
        assert Volumes()[..pos + 1][..pos] == Volumes()[..pos];
        pos := pos + 1;
      }
      assert Volumes()[..pos] == Volumes();
    }

    /** `SmartCmd_SetDrivePolicy`. The policy array has room for MAX_POLICY entries. */
    method SetDrivePolicy(list: seq<DeviceEx>)
      requires Valid() && |list| <= MAX_POLICY
      modifies this`policyCount, this`deviceCount, this`selectedBluetoothBlock, this`bluetoothLog, policy, ctrl
      ensures Valid() && Abs() == Apply(old(Abs()), SetPolicy(list))
      ensures selectedBluetoothBlock <==>
              exists p :: p in list && p.device.name == NAME_BLUETOOTH && p.device.reserved1 == 1
      ensures bluetoothLog <==> exists p :: p in list && p.device.name == NAME_BLUETOOTH && p.device.loggingOn
    {
      var selected, logged := false, false;
      policyCount := |list|;
      var pos := 0;
      while pos < |list|
        modifies policy
        invariant 0 <= pos <= |list|
        invariant policy[..pos] == list[..pos]
        invariant selected <==>
                  exists p :: p in list[..pos] && p.device.name == NAME_BLUETOOTH && p.device.reserved1 == 1
        invariant logged <==>
                  exists p :: p in list[..pos] && p.device.name == NAME_BLUETOOTH && p.device.loggingOn
      {
        policy[pos] := list[pos];
        if policy[pos].device.name == NAME_BLUETOOTH {
          selected := selected || policy[pos].device.reserved1 == 1;
          logged := logged || policy[pos].device.loggingOn;
        }
        assert list[..pos + 1] == list[..pos] + [list[pos]];
        pos := pos + 1;
      }
      assert list[..pos] == list;
      selectedBluetoothBlock, bluetoothLog := selected, logged;
      PolicyUpdate();
    }

    /** `SmartCmd_SetExceptDrivePolicy`. The exception array has room for MAX_DEVICE entries. */
    method SetExceptDrivePolicy(list: seq<Device>)
      requires Valid() && |list| <= MAX_DEVICE
      modifies this`exceptCount, this`deviceCount, excepts, ctrl
      ensures Valid() && Abs() == Apply(old(Abs()), SetExcept(list))
    {
      forall i | 0 <= i < excepts.Length {
        excepts[i] := EMPTY_EX;
      }
      exceptCount := |list|;
      var pos := 0;
      while pos < |list|
        modifies excepts
        invariant 0 <= pos <= |list|
        invariant forall i | 0 <= i < pos :: excepts[i] == ExceptTable(list)[i]
        invariant forall i | pos <= i < excepts.Length :: excepts[i] == EMPTY_EX
      {
        if |list| > MAX_DRIVE {
          break;
        }
        excepts[pos] := DeviceEx(list[pos], CODE_USB);
        pos := pos + 1;
      }
      assert Excepts() == ExceptTable(list);
      assert Policies() == old(Policies()) && Volumes() == old(Volumes());
      hide Recompute, ExceptTable;
      PolicyUpdate();
    }

    /** The scan of `VolCtx_Update` for a known device. */
    method SearchKnown(deviceName: CStr) returns (r: Option<nat>)
      requires Valid()
      ensures r == FirstKnown(Volumes(), deviceName)
    {
      var pos := 0;
      while pos < volumeCount
        invariant 0 <= pos <= volumeCount
        invariant forall j | 0 <= j < pos :: !(deviceName <= Volumes()[j].deviceName)
      {
        if deviceName <= volume[pos].deviceName {
          return Some(pos);
        }
        pos := pos + 1;
      }
      r := None;
    }

    /** `VolCtx_Update`. What it adds must fit: neither the volume array nor the table is checked for room. */
    method VolumeUpdate(deviceName: CStr, basePath: CStr, busType: int) returns (ok: bool)
      requires Valid()
      requires var s := SeeVolume(Abs(), deviceName, basePath, busType);
               |s.volumes| <= MAX_DEVICE && |s.table| <= MAX_DEVICE
      modifies this`volumeCount, this`deviceCount, volume, ctrl
      ensures Valid() && ok && Abs() == Apply(old(Abs()), VolumeSeen(deviceName, basePath, busType))
    {
      hide Resolve, Recompute, Enabled, ExceptTable, FirstKnown;
      var known := SearchKnown(deviceName);
      if known.Some? {
        var pos := known.value;
        if busType == volume[pos].busType {
          return true;
        }
        volume[pos] := Moved(volume[pos], basePath, busType);
        assert Volumes() == old(Volumes())[pos := volume[pos]];
        UpdateDriveName(volume[pos]);
        return true;
      }
      volume[volumeCount] := Volume(deviceName, basePath, busType);
      volumeCount := volumeCount + 1;
      assert Volumes() == old(Volumes()) + [volume[volumeCount - 1]];
      UpdateDriveName(volume[volumeCount - 1]);
      ok := true;
    }

    /** `VolCtx_Clear` leaves the derived table alone. */
    method VolumeClear()
      requires Valid()
      modifies this`volumeCount, volume
      ensures Valid() && Abs() == Apply(old(Abs()), VolumesCleared)
    {
      volumeCount := 0;
      forall i | 0 <= i < volume.Length {
        volume[i] := EMPTY_VOLUME;
      }
    }

    /** `FetchVolumes`. What the volumes add must fit; the table is not rebuilt. */
    method FetchVolumes(mounted: seq<Volume>)
      requires Valid()
      requires var s := Fetched(Abs(), mounted); |s.volumes| <= MAX_DEVICE && |s.table| <= MAX_DEVICE
      modifies this`volumeCount, this`deviceCount, volume, ctrl
      ensures Valid() && Abs() == Fetched(old(Abs()), mounted)
    {
      hide SeeVolume, Apply;
      ghost var s := Abs();
      ClearIsFetch(s);
      VolumeClear();
      var pos := 0;
      while pos < |mounted|
        invariant 0 <= pos <= |mounted| && Valid() && Abs() == Fetched(s, mounted[..pos])
      {
        assert mounted[..pos + 1][..pos] == mounted[..pos];
        FetchGrows(s, mounted, pos + 1);
        SeenIsApplied(Abs(), mounted[pos]);
        var _ := VolumeUpdate(mounted[pos].deviceName, mounted[pos].basePath, mounted[pos].busType);
        pos := pos + 1;
      }
      assert mounted[..pos] == mounted;
    }

    /** The scan shared by the decision functions: it stops at the first entry covering the path. */
    method Search(path: CStr) returns (r: Option<DeviceEx>)
      requires Valid()
      ensures r == Governing(Table(), path)
    {
      var pos := 0;
      while pos < deviceCount
        invariant 0 <= pos <= deviceCount
        invariant Governing(Table(), path) == Governing(Table()[pos..], path)
      {
        var under := IsUnderBase(path, ctrl[pos].device.name);
        if under {
          return Some(ctrl[pos]);
        }
        pos := pos + 1;
      }
      r := None;
    }

    /** `IsPolicyExist_BlockRead`. The bypass answers KAUTH_RESULT_DEFER (3) from a function whose other
        answers are TRUE and FALSE. `allowed` is the answer of the allowed-folder test for the path. */
    method BlockRead(procName: CStr, path: CStr, allowed: bool, log: LogParam) returns (r: int)
      requires Valid()
      modifies log
      ensures var g := Governing(Table(), path);
              && r == (if !ReadDenied(g) then 0 else if ReadBypass(procName, path) then 3 else if allowed then 0 else 1)
              && (if ReadDenied(g) then Logged(log, g.value) else unchanged(log))
    {
      var found := Search(path);
      var safe := true;
      if found.Some? && (found.value.device.disableAll || found.value.device.disableRead) {
        safe := false;
        log.log, log.policyType := found.value.device.loggingOn, found.value.code;
      }
      if !safe && ReadBypass(procName, path) {
        return 3;
      }
      r := if !safe && !allowed then 1 else 0;
    }

    /** `IsPolicyExist_BlockWrite` */
    method BlockWrite(path: CStr, allowed: bool, log: LogParam) returns (r: bool)
      requires Valid()
      modifies log
      ensures r <==> WriteDenied(Governing(Table(), path)) && !allowed
      ensures var g := Governing(Table(), path);
              if WriteDenied(g) then Logged(log, g.value) else unchanged(log)
    {
      var found := Search(path);
      var safe := true;
      if found.Some? {
        var d := found.value.device;
        if d.disableAll {
          safe := false;
          log.log, log.policyType := d.loggingOn, found.value.code;
        } else if d.disableWrite && d.reserved1 == 1 {
          safe := false;
          log.log, log.policyType := d.loggingOn, found.value.code;
        }
      }
      r := !safe && !allowed;
    }

    /** `IsPolicyExist_AllowWrite`; it does not ask for allowed folders. */
    method AllowWrite(path: CStr, log: LogParam) returns (r: bool)
      requires Valid()
      modifies log
      ensures r <==> WriteAllowed(Governing(Table(), path))
      ensures var g := Governing(Table(), path);
              if r then Logged(log, g.value) && log.allow == (log.log || old(log.allow)) else unchanged(log)
    {
      var found := Search(path);
      r := false;
      if found.Some? && !found.value.device.disableRead && !found.value.device.disableWrite {
        r := true;
        log.log, log.policyType := found.value.device.loggingOn, found.value.code;
        if log.log {
          log.allow := true;
        }
      }
    }

    /** `IsPolicyExist_CopyPrevent` */
    method CopyPrevent(path: CStr, allowed: bool, log: LogParam) returns (r: bool)
      requires Valid()
      modifies log
      ensures r <==> ContentScanned(Governing(Table(), path)) && !allowed
      ensures var g := Governing(Table(), path);
              if ContentScanned(g) then Logged(log, g.value) else unchanged(log)
    {
      var found := Search(path);
      var safe := true;
      if found.Some? && found.value.device.disableWrite && found.value.device.reserved1 == -1 {
        safe := false;
        log.log, log.policyType := found.value.device.loggingOn, found.value.code;
      }
      r := !safe && !allowed;
    }

    /** `CtrlCheck_Contents` for the copy policy: what happens to a file that was written and closed.
        `scannerAllows` is the agent's answer should the file be scanned. */
    method CheckContents(path: CStr, allowed: bool, fileSize: nat, scannerAllows: bool, log: LogParam)
      returns (access: bool, scanned: bool, deleted: bool)
      requires Valid()
      modifies log
      ensures var g := Governing(Table(), path);
              && (scanned <==> fileSize > 0 && !allowed && ContentScanned(g) && !WriteDenied(g) && !WriteAllowed(g))
              && (deleted <==> (WriteDenied(g) && !allowed) || (scanned && !scannerAllows))
              && (access <==> scanned && scannerAllows)
              && (if WriteDenied(g) || WriteAllowed(g) || ContentScanned(g) then Logged(log, g.value) else unchanged(log))
    {
      access, scanned, deleted := false, false, false;
      var block := BlockWrite(path, allowed, log);
      if block {
        deleted := true;
        return;
      }
      var allow := AllowWrite(path, log);
      if allow {
        return;
      }
      var prevent := CopyPrevent(path, allowed, log);
      if prevent && fileSize > 0 {
        scanned, access := true, scannerAllows;
        deleted := !access;
      }
    }
  }
}
