/** From the loaded policy list of a mode to the decision about a file on a removable volume. */
module EndToEnd {
  import opened CStrings
  import opened DrvKext
  import opened SecRule
  import opened Policies
  import opened PolicyMan
  import opened Precedence

  /** The kernel state after the current rules of a translated mode list were applied. */
  function Applied(state: State, list: seq<Policy>, blockWriteAll: bool): State {
    Apply(state, SetPolicy(Compile(CurrentRules(Translated(list, blockWriteAll)))))
  }

  /** `path` lies under volume `i` and no earlier volume has an entry covering it. */
  ghost predicate DecidedByVolume(s: State, i: nat, path: string)
    requires i < |s.volumes|
  {
    && Covers(s.volumes[i].basePath, path)
    && Governing(Recompute(s.policies, s.excepts, s.volumes[..i]), path).None?
  }

  /** A loaded list with a media or copy policy, at most one of each, and a path decided by a USB-like volume
      without an exception entry. */
  ghost predicate OnRemovable(state: State, list: seq<Policy>, blockWriteAll: bool, i: nat, path: string) {
    && LoadedList(list) && CountUsed(list, Media) <= 1 && CountUsed(list, CopyPrevent) <= 1
    && (SearchesOf(list).media.Some? || CurrentCopyPolicy(list).Some?)
    && i < |state.volumes| && IsUsbBus(state.volumes[i].busType)
    && FindExcept(state.excepts, state.volumes[i].basePath).None?
    && DecidedByVolume(Applied(state, list, blockWriteAll), i, path)
  }

  /** Every file decision is the one the sole removable rule calls for: reads are denied iff it blocks reading,
      writes iff it blocks writing together with reading or with the block-write-all mark, and contents are
      scanned iff it blocks writing alone. A rule with no flag on leaves the decision to the later volumes. */
  lemma DecisionsFollowSoleRule(state: State, list: seq<Policy>, blockWriteAll: bool, i: nat, path: string)
    requires OnRemovable(state, list, blockWriteAll, i, path)
    ensures var r, t := SoleRule(list, blockWriteAll), Applied(state, list, blockWriteAll);
            var g := Governing(t.table, path);
            if r.enableLog || r.disableRead || r.disableWrite then
              && (ReadDenied(g) <==> r.disableRead)
              && (WriteDenied(g) <==> r.disableWrite && (r.disableRead || r.reserved1 == 1))
              && (ContentScanned(g) <==> r.disableWrite && !r.disableRead && r.reserved1 != 1)
              && (WriteAllowed(g) <==> !r.disableRead && !r.disableWrite)
            else g == Governing(Recompute(t.policies, t.excepts, t.volumes[i + 1..]), path)
  {
    hide SoleRule, Translated, CurrentRules, CurrentCopyPolicy, Compile, Encode, Record;
    CurrentCopyPolicyIsFirst(list);
    SoleRemovableRule(list, blockWriteAll);
    SoleRuleInForce(list, blockWriteAll);
    var rules, rule := CurrentRules(Translated(list, blockWriteAll)), SoleRule(list, blockWriteAll);
    GoverningOnUsbVolume(rules, state.excepts, state.volumes, i, path);
    EntryOfActiveRule(rule, state.volumes[i].basePath);
    RemovableMeaning(rule, state.volumes[i].basePath);
  }

  lemma EntryOfActiveRule(rule: Rule, base: CStr)
    requires rule.virtualType.DriveRemovable?
    ensures RuleEntry(rule, base).Some? <==> rule.enableLog || rule.disableRead || rule.disableWrite
  {
  }

  /** Volume `i` decides when the path lies under it, under no earlier volume, and under no exception entry of one. */
  lemma DecidedWhenApart(s: State, i: nat, path: string)
    requires i < |s.volumes| && Covers(s.volumes[i].basePath, path)
    requires forall j | 0 <= j < i :: !Covers(s.volumes[j].basePath, path)
    requires forall e | e in s.excepts :: !Covers(e.device.name, path)
    ensures DecidedByVolume(s, i, path)
  {
    NoneGoverns(s.policies, s.excepts, s.volumes[..i], path);
  }

  lemma {:induction false} NoneGoverns(policies: seq<DeviceEx>, excepts: seq<DeviceEx>, volumes: seq<Volume>, path: string)
    requires forall j | 0 <= j < |volumes| :: !Covers(volumes[j].basePath, path)
    requires forall e | e in excepts :: !Covers(e.device.name, path)
    ensures Governing(Recompute(policies, excepts, volumes), path).None?
  {
    if volumes != [] {
      hide Compatible, Covers, Enabled;
      var n := |volumes| - 1;
      NoneGoverns(policies, excepts, volumes[..n], path);
      ResolvedElsewhere(policies, excepts, volumes[n], path);
      GoverningConcat(Recompute(policies, excepts, volumes[..n]), Resolve(policies, excepts, volumes[n]), path);
    }
  }

  lemma ResolvedElsewhere(policies: seq<DeviceEx>, excepts: seq<DeviceEx>, v: Volume, path: string)
    requires !Covers(v.basePath, path) && forall e | e in excepts :: !Covers(e.device.name, path)
    ensures Governing(Resolve(policies, excepts, v), path).None?
  {
    hide Compatible, Covers;
    FoundExcept(excepts, v.basePath);
    var r := Resolve(policies, excepts, v);
    if r != [] {
      assert !Covers(r[0].device.name, path) && r[1..] == [];
    }
  }

  lemma {:induction false} FoundExcept(excepts: seq<DeviceEx>, base: CStr)
    ensures FindExcept(excepts, base).Some? ==> FindExcept(excepts, base).value in excepts
  {
    if excepts != [] {
      FoundExcept(excepts[1..], base);
    }
  }

  /** One stick in an empty system: media control that blocks reading removable media denies reading its files. */
  lemma StickIsReadBlocked(device: CStr, base: CStr, file: string, log: bool)
    ensures var media := Policy(Control, MediaKind({RemovableRead}, {}, log, false), true, true, CLEAR_RULE, []);
            var state := State([], [], [Volume(device, base, BUS_USB)], []);
            ReadDenied(Governing(Applied(state, [media], false).table, base + "/" + file))
  {
    var media := Policy(Control, MediaKind({RemovableRead}, {}, log, false), true, true, CLEAR_RULE, []);
    var list, path := [media], base + "/" + file;
    var state := State([], [], [Volume(device, base, BUS_USB)], []);
    StickPolicy(list, media);
    var applied := Applied(state, list, false);
    assert applied.volumes == state.volumes && applied.excepts == [];
    hide Applied, SoleRule, SearchesOf, LoadedList, CountUsed, CurrentCopyPolicy, DecidedByVolume, Governing;
    DecidedWhenApart(applied, 0, path);
    DecisionsFollowSoleRule(state, list, false, 0, path);
  }

  lemma StickPolicy(list: seq<Policy>, media: Policy)
    requires list == [media] && WellTyped(media) && Loaded(media) && media.use
    requires media.kind.MediaKind? && RemovableRead in media.kind.etcStorage
    ensures LoadedList(list) && CountUsed(list, Media) <= 1 && CountUsed(list, CopyPrevent) <= 1
    ensures SearchesOf(list).media.Some? && SoleRule(list, false).disableRead
  {
    assert list[..0] == [];
    assert IsUsed(list[0], {Media});
  }

  /** A media policy that blocks removable access decides by its two bits, whatever copy policies stand beside it:
      reads and writes are denied as it says, and nothing is scanned or let through as allowed. */
  lemma MediaControlPrevails(state: State, list: seq<Policy>, blockWriteAll: bool, i: nat, path: string)
    requires OnRemovable(state, list, blockWriteAll, i, path) && SearchesOf(list).RemovableBlocked()
    ensures var s, g := SearchesOf(list), Governing(Applied(state, list, blockWriteAll).table, path);
            && (ReadDenied(g) <==> s.readBlocked) && (WriteDenied(g) <==> s.writeBlocked)
            && !ContentScanned(g) && !WriteAllowed(g)
  {
    DecisionsFollowSoleRule(state, list, blockWriteAll, i, path);
    BlockingMediaRule(list, blockWriteAll);
    hide SoleRule, Applied, Governing;
  }

  lemma BlockingMediaRule(list: seq<Policy>, blockWriteAll: bool)
    requires SearchesOf(list).RemovableBlocked()
    ensures var s, r := SearchesOf(list), SoleRule(list, blockWriteAll);
            r.disableRead == s.readBlocked && r.disableWrite == s.writeBlocked && r.reserved1 == 1
  {
  }

  /** Under a plain copy policy without the block-write-all option contents are scanned, and nothing is denied or
      let through unscanned. */
  lemma PlainCopyScans(state: State, list: seq<Policy>, i: nat, path: string)
    requires OnRemovable(state, list, false, i, path) && !SearchesOf(list).RemovableBlocked()
    requires SearchesOf(list).copy.Some? && FirstUsed(list, {CopyExPrevent}).None?
    ensures var g := Governing(Applied(state, list, false).table, path);
            ContentScanned(g) && !ReadDenied(g) && !WriteDenied(g) && !WriteAllowed(g)
  {
    DecisionsFollowSoleRule(state, list, false, i, path);
    ScanningCopyRule(list);
    hide SoleRule, Applied, Governing;
  }

  lemma ScanningCopyRule(list: seq<Policy>)
    requires LoadedList(list) && !SearchesOf(list).RemovableBlocked()
    requires SearchesOf(list).copy.Some? && FirstUsed(list, {CopyExPrevent}).None?
    ensures CurrentCopyPolicy(list).Some?
    ensures var r := SoleRule(list, false); r.disableWrite && !r.disableRead && r.reserved1 == -1
  {
    CurrentCopyPolicyIsFirst(list);
    var c := CurrentCopyPolicy(list).value;
    assert IsUsed(list[c], {CopyPrevent});
    BuiltCopyScans(list[c]);
    hide FirstUsed, LoadedList, Built, MediaRemovable;
  }

  lemma BuiltCopyScans(p: Policy)
    requires IsUsed(p, {CopyPrevent})
    ensures var r := Built(p, false).rule; r.disableWrite && !r.disableRead && r.reserved1 == -1
  {
  }

  /** Some verdict in use is not to allow. */
  predicate NotAllAllowed(c: Controls) {
    (c.option == NoInspect && c.noInspect != Allow) || (c.option == RunInspect && (c.found != Allow || c.notFound != Allow))
  }

  lemma SoleCopyRule(list: seq<Policy>, blockWriteAll: bool)
    requires LoadedList(list) && !SearchesOf(list).RemovableBlocked() && SearchesOf(list).copy.Some?
    ensures CurrentCopyPolicy(list).Some? && IsCopyType(list[CurrentCopyPolicy(list).value])
    ensures SoleRule(list, blockWriteAll) == WithRule(list[CurrentCopyPolicy(list).value], blockWriteAll).rule
  {
    CurrentCopyPolicyIsFirst(list);
    hide FirstUsed, LoadedList, MediaRemovable, CopyRule, CopyExRule;
  }

  /** With the block-write-all option a plain copy policy denies writing iff some verdict in use is not to allow, and
      lets it through otherwise; nothing is scanned and reading is free. */
  lemma PlainCopyBlocks(state: State, list: seq<Policy>, i: nat, path: string)
    requires OnRemovable(state, list, true, i, path) && !SearchesOf(list).RemovableBlocked() && SearchesOf(list).copy.Some?
    requires FirstUsed(list, {CopyExPrevent}).None?
    ensures CurrentCopyPolicy(list).Some? && list[CurrentCopyPolicy(list).value].kind.CopyKind?
    ensures var k := list[CurrentCopyPolicy(list).value].kind;
            var g := Governing(Applied(state, list, true).table, path);
            k.blockLog || NotAllAllowed(k.controls) ==>
              !ReadDenied(g) && !ContentScanned(g) && (WriteDenied(g) <==> NotAllAllowed(k.controls)) && (WriteAllowed(g) <==> !WriteDenied(g))
  {
    hide SoleRule, Applied, Governing, FirstUsed, WithRule, LoadedList, ReadDenied, WriteDenied, ContentScanned, WriteAllowed;
    hide NotAllAllowed, CurrentCopyPolicy, SearchesOf;
    PlainIsCurrent(list);
    SoleCopyRule(list, true);
    DecisionsFollowSoleRule(state, list, true, i, path);
    PlainCopyRule(list[CurrentCopyPolicy(list).value]);
  }

  lemma PlainIsCurrent(list: seq<Policy>)
    requires LoadedList(list) && SearchesOf(list).copy.Some? && FirstUsed(list, {CopyExPrevent}).None?
    ensures CurrentCopyPolicy(list).Some? && list[CurrentCopyPolicy(list).value].kind.CopyKind?
  {
    CurrentCopyPolicyIsFirst(list);
    assert IsUsed(list[CurrentCopyPolicy(list).value], {CopyPrevent});
    hide FirstUsed, LoadedList;
  }

  lemma PlainCopyRule(p: Policy)
    requires p.kind.CopyKind?
    ensures var b := NotAllAllowed(p.kind.controls);
            WithRule(p, true).rule == Rule(DriveRemovable, false, false, b, p.kind.blockLog, false, if b then 1 else -1)
  {
  }

  /** One section for all sticks, without the permit to read. */
  predicate ReadsNothing(sections: seq<CopyControl>) {
    |sections| == 1 && sections[0].selectType == -1 && !sections[0].readPermit
  }

  ghost predicate BlocksSomething(sections: seq<CopyControl>) {
    exists i, j :: 0 <= i < |sections| && 0 <= j < |sections[i].controls| && NotAllAllowed(sections[i].controls[j])
  }

  ghost predicate LogsSomething(sections: seq<CopyControl>) {
    exists i :: 0 <= i < |sections| && (sections[i].block.setting.use || sections[i].allow.setting.use)
  }

  /** A CopyEx policy denies reading iff it has one section for all sticks without the permit. Without the
      block-write-all option it then denies writing too, and otherwise has contents scanned. With the option it
      denies writing iff some verdict in use is not to allow, and scans nothing. */
  lemma CopyExDecides(state: State, list: seq<Policy>, blockWriteAll: bool, i: nat, path: string)
    requires OnRemovable(state, list, blockWriteAll, i, path) && !SearchesOf(list).RemovableBlocked()
    requires FirstUsed(list, {CopyExPrevent}).Some?
    ensures list[FirstUsed(list, {CopyExPrevent}).value].kind.CopyExKind?
    ensures var sections := list[FirstUsed(list, {CopyExPrevent}).value].kind.copyControls;
            var g := Governing(Applied(state, list, blockWriteAll).table, path);
            if !blockWriteAll then
              && (ReadDenied(g) <==> ReadsNothing(sections)) && (WriteDenied(g) <==> ReadsNothing(sections))
              && (ContentScanned(g) <==> !ReadsNothing(sections)) && !WriteAllowed(g)
            else if LogsSomething(sections) || ReadsNothing(sections) || BlocksSomething(sections) then
              && (ReadDenied(g) <==> ReadsNothing(sections)) && (WriteDenied(g) <==> BlocksSomething(sections))
              && !ContentScanned(g) && (WriteAllowed(g) <==> !ReadsNothing(sections) && !BlocksSomething(sections))
            else true
  {
    CopyExIsCurrent(list);
    SoleCopyRule(list, blockWriteAll);
    DecisionsFollowSoleRule(state, list, blockWriteAll, i, path);
    var p := list[FirstUsed(list, {CopyExPrevent}).value];
    CopyExRuleExactly(p, blockWriteAll);
    hide SoleRule, Applied, Governing, FirstUsed, WithRule, LoadedList, ReadDenied, WriteDenied, ContentScanned, WriteAllowed;
    hide ReadsNothing, BlocksSomething, LogsSomething;
  }

  lemma CopyExIsCurrent(list: seq<Policy>)
    requires LoadedList(list) && FirstUsed(list, {CopyExPrevent}).Some?
    ensures SearchesOf(list).copy.Some? && CurrentCopyPolicy(list) == FirstUsed(list, {CopyExPrevent})
    ensures list[FirstUsed(list, {CopyExPrevent}).value].kind.CopyExKind?
  {
    CurrentCopyPolicyIsFirst(list);
    assert IsUsed(list[FirstUsed(list, {CopyExPrevent}).value], {CopyExPrevent});
    hide FirstUsed, FirstOfType, LoadedList;
  }

  lemma CopyExRuleExactly(p: Policy, blockWriteAll: bool)
    requires p.kind.CopyExKind?
    ensures var sections := p.kind.copyControls;
            WithRule(p, blockWriteAll).rule ==
            Rule(DriveRemovable, false, ReadsNothing(sections), !blockWriteAll || BlocksSomething(sections),
                 LogsSomething(sections), false, if blockWriteAll then 1 else -1)
  {
    var sections := p.kind.copyControls;
    BlocksExactly(sections);
    hide AnyBlockOrApproval, BlocksSomething;
    if SaveLogAny(sections) {
      var i :| 0 <= i < |sections| && (sections[i].block.setting.use || sections[i].allow.setting.use);
      assert LogsSomething(sections);
    }
    if LogsSomething(sections) {
      var i :| 0 <= i < |sections| && (sections[i].block.setting.use || sections[i].allow.setting.use);
      assert SaveLogAny(sections);
    }
  }

  lemma BlocksExactly(sections: seq<CopyControl>)
    ensures AnyBlockOrApproval(sections) <==> BlocksSomething(sections)
  {
    if AnyBlockOrApproval(sections) {
      var i, j :| 0 <= i < |sections| && 0 <= j < |sections[i].controls| && HasBlockOrApproval(sections[i].controls[j]);
      assert NotAllAllowed(sections[i].controls[j]);
    }
    if BlocksSomething(sections) {
      var i, j :| 0 <= i < |sections| && 0 <= j < |sections[i].controls| && NotAllAllowed(sections[i].controls[j]);
      assert HasBlockOrApproval(sections[i].controls[j]);
    }
  }

  // ---- The other policies ----

  /** The rule of a policy that controls neither removable drives nor media. */
  function OtherRule(kind: Kind): Option<Rule> {
    match kind
    case SharedFolderKind(log) => Some(Rule(DriveNetDrive, false, false, true, log, false, -1))
    case UploadKind(log) => Some(Rule(NetworkControl, false, false, true, log, false, -1))
    case PrintKind(log) => Some(Rule(PrinterControl, false, false, true, log, false, -1))
    case ClipboardKind(log) => Some(Rule(ProcessPasteControl, false, false, true, log, false, -1))
    case ApplicationKind(log) => Some(Rule(ProcessControl, true, true, true, log, false, -1))
    case _ => None
  }

  /** Every used policy of these kinds has its rule in force, the first shared-folder policy only if media control does
      not block network drives. */
  lemma OtherRulesInForce(list: seq<Policy>, blockWriteAll: bool, i: nat)
    requires LoadedList(list) && i < |list| && list[i].use && OtherRule(list[i].kind).Some?
    requires !(SearchesOf(list).netBlocked && FirstUsed(list, {SharedFolder}) == Some(i))
    ensures OtherRule(list[i].kind).value in CurrentRules(Translated(list, blockWriteAll))
  {
    var t, s, r := Translated(list, blockWriteAll), SearchesOf(list), OtherRule(list[i].kind).value;
    var e := FirstCurrentCopyEx(t);
    OtherContribution(list[i], i, s, blockWriteAll, e.Some?);
    assert t[i] == TranslateOne(list[i], i, s, blockWriteAll);
    ContributedRule(t, e.Some?, i, r);
    hide TranslateOne, OtherRule, FirstUsed, LoadedList, Contribution;
  }

  lemma OtherContribution(p: Policy, i: nat, s: Searches, blockWriteAll: bool, copyExFound: bool)
    requires WellTyped(p) && Loaded(p) && p.use && OtherRule(p.kind).Some? && !(s.netBlocked && s.shared == Some(i))
    requires s.media == Some(i) ==> IsUsed(p, {Media})
    ensures Contribution(TranslateOne(p, i, s, blockWriteAll), copyExFound) == [OtherRule(p.kind).value]
  {
  }
}
