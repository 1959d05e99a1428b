/** Precedence between media control and the copy policies: which removable-drive rules are in force. */
module Precedence {
  import opened CStrings
  import opened DrvKext
  import opened SecRule
  import opened Policies
  import opened PolicyMan

  function CountUsed(list: seq<Policy>, sub: SubType): nat {
    if list == [] then 0
    else CountUsed(list[..|list| - 1], sub) + if IsUsed(list[|list| - 1], {sub}) then 1 else 0
  }

  /** A mode list as loading produces it, with every policy's type matching its subtype. */
  predicate LoadedList(list: seq<Policy>) {
    forall i | 0 <= i < |list| :: WellTyped(list[i]) && Loaded(list[i])
  }

  /** Every used media policy adds one removable rule and so does the copy side, but the first media policy
      gives its rule up when it blocks nothing and a copy policy is used, and blocking silences the copy side. */
  function ExpectedRemovables(list: seq<Policy>): int {
    var s, media := SearchesOf(list), CountUsed(list, Media);
    if s.RemovableBlocked() || s.copy.None? then media
    else
      (if s.media.Some? then media - 1 else media)
      + (if FirstUsed(list, {CopyExPrevent}).Some? then 1 else CountUsed(list, CopyPrevent))
  }

  // ---- Removable rules of one policy ----

  lemma {:induction false} NoRemovables(rules: seq<Rule>)
    requires forall i | 0 <= i < |rules| :: !rules[i].virtualType.DriveRemovable?
    ensures Removables(rules) == []
  {
    if rules != [] {
      NoRemovables(rules[..|rules| - 1]);
    }
  }

  lemma MediaRulesRemovable(etc: set<StorageBit>, comm: set<CommBit>, log: bool, selected: bool)
    ensures Removables(MediaRules(etc, comm, log, selected)) == [MediaRemovable(etc, log)]
  {
    hide DiscRules, FloppyRules, NetworkRules, PortRules, ShareRules;
    PiecesHaveNoRemovables(etc, comm, log, selected);
    SingleOutOfMany(DiscRules(etc, log), MediaRemovable(etc, log), FloppyRules(etc, log),
                    NetworkRules(comm, log, selected), PortRules(comm, log), ShareRules(comm, log));
  }

  lemma PiecesHaveNoRemovables(etc: set<StorageBit>, comm: set<CommBit>, log: bool, selected: bool)
    ensures Removables(DiscRules(etc, log)) == [] && Removables(FloppyRules(etc, log)) == []
    ensures Removables(NetworkRules(comm, log, selected)) == []
    ensures Removables(PortRules(comm, log)) == [] && Removables(ShareRules(comm, log)) == []
  {
    hide Removables;
    NoRemovables(DiscRules(etc, log));
    NoRemovables(FloppyRules(etc, log));
    NoRemovables(NetworkRules(comm, log, selected));
    NoRemovables(PortRules(comm, log));
    NoRemovables(ShareRules(comm, log));
  }

  lemma SingleOutOfMany(a: seq<Rule>, own: Rule, b: seq<Rule>, c: seq<Rule>, d: seq<Rule>, e: seq<Rule>)
    requires own.virtualType.DriveRemovable?
    requires Removables(a) == Removables(b) == Removables(c) == Removables(d) == Removables(e) == []
    ensures Removables(a + ([own] + (b + (c + (d + e))))) == [own]
  {
    RemovablesConcat(d, e);
    RemovablesConcat(c, d + e);
    RemovablesConcat(b, c + (d + e));
    RemovablesConcat([own], b + (c + (d + e)));
    RemovablesConcat(a, [own] + (b + (c + (d + e))));
    SingleRemovable(own);
  }

  lemma SingleRemovable(r: Rule)
    ensures Removables([r]) == if r.virtualType.DriveRemovable? then [r] else []
  {
    assert [r][..0] == [];
  }

  lemma {:induction false} ErasedRemovables(rules: seq<Rule>, copy: bool, shared: bool)
    ensures Removables(EraseRules(rules, copy, shared)) == if copy then [] else Removables(rules)
  {
    if rules != [] {
      var n := |rules| - 1;
      ErasedRemovables(rules[..n], copy, shared);
      if EraseRules(rules, copy, shared) != EraseRules(rules[..n], copy, shared) {
        var e := EraseRules(rules[..n], copy, shared);
        assert EraseRules(rules, copy, shared) == e + [rules[n]];
        assert (e + [rules[n]])[..|e|] == e;
      }
    }
  }

  /** The removable rules a translated policy contributes. */
  function OwnRemovables(p: Policy, i: nat, s: Searches, blockWriteAll: bool, copyExFound: bool): seq<Rule> {
    if !p.use then []
    else
      match p.kind
      case MediaKind(etc, _, log, _) =>
        if s.media == Some(i) && !s.RemovableBlocked() && s.copy.Some? then [] else [MediaRemovable(etc, log)]
      case CopyKind(controls, log) =>
        if s.RemovableBlocked() || copyExFound then [] else [CopyRule(controls, log, blockWriteAll)]
      case _ => []
  }

  function OwnCount(p: Policy, i: nat, s: Searches, copyExFound: bool): nat {
    if IsUsed(p, {Media}) then
      if s.media == Some(i) && !s.RemovableBlocked() && s.copy.Some? then 0 else 1
    else if IsUsed(p, {CopyPrevent}) && !s.RemovableBlocked() && !copyExFound then 1
    else 0
  }

  lemma ContributedByMedia(p: Policy, i: nat, s: Searches, blockWriteAll: bool, copyExFound: bool)
    requires p.use && p.kind.MediaKind? && p.dlpType == Control && p.enableDeviceRule && s.shared != Some(i)
    ensures Removables(Contribution(TranslateOne(p, i, s, blockWriteAll), copyExFound))
            == OwnRemovables(p, i, s, blockWriteAll, copyExFound)
  {
    hide MediaRules, MediaRemovable, EraseRules, Removables;
    var k := p.kind;
    MediaRulesRemovable(k.etcStorage, k.commDevice, k.blockLog, k.selectedBluetooth);
    ErasedRemovables(MediaRules(k.etcStorage, k.commDevice, k.blockLog, k.selectedBluetooth), s.copy.Some?, s.SharedSeen());
  }

  lemma ContributedRemovables(p: Policy, i: nat, s: Searches, blockWriteAll: bool, copyExFound: bool)
    requires WellTyped(p) && Loaded(p) && (s.media == Some(i) ==> IsUsed(p, {Media}))
    requires s.shared == Some(i) ==> IsUsed(p, {SharedFolder})
    ensures Removables(Contribution(TranslateOne(p, i, s, blockWriteAll), copyExFound))
            == OwnRemovables(p, i, s, blockWriteAll, copyExFound)
    ensures |OwnRemovables(p, i, s, blockWriteAll, copyExFound)| == OwnCount(p, i, s, copyExFound)
  {
    if p.use && p.kind.MediaKind? {
      ContributedByMedia(p, i, s, blockWriteAll, copyExFound);
    } else {
      SingleRemovable(TranslateOne(p, i, s, blockWriteAll).rule);
    }
    OwnCounted(p, i, s, blockWriteAll, copyExFound);
    NoRemovables([]);
    hide MediaRules, MediaRemovable, EraseRules, AnyBlockOrApproval, BlockReadAll, SaveLogAny, HasBlockOrApproval, Removables, OwnCount;
  }

  lemma OwnCounted(p: Policy, i: nat, s: Searches, blockWriteAll: bool, copyExFound: bool)
    ensures |OwnRemovables(p, i, s, blockWriteAll, copyExFound)| == OwnCount(p, i, s, copyExFound)
  {
    hide MediaRemovable, CopyRule;
  }

  // ---- The whole list ----

  lemma CopyExAfterTranslation(list: seq<Policy>, blockWriteAll: bool)
    requires LoadedList(list)
    ensures FirstCurrentCopyEx(Translated(list, blockWriteAll)) ==
            if SearchesOf(list).RemovableBlocked() then None else FirstUsed(list, {CopyExPrevent})
  {
    hide TranslateOne, WellTyped, Loaded;
    var t, s := Translated(list, blockWriteAll), SearchesOf(list);
    forall i | 0 <= i < |list|
      ensures IsCurrentCopyEx(t[i]) <==> IsUsed(list[i], {CopyExPrevent}) && !s.RemovableBlocked()
    {
      CopyExOne(list[i], i, s, blockWriteAll);
    }
    SameFirstCopyEx(list, t, s.RemovableBlocked());
  }

  lemma SameFirstCopyEx(list: seq<Policy>, t: seq<Policy>, blocked: bool)
    requires |t| == |list|
    requires forall i | 0 <= i < |list| :: IsCurrentCopyEx(t[i]) <==> IsUsed(list[i], {CopyExPrevent}) && !blocked
    ensures FirstCurrentCopyEx(t) == if blocked then None else FirstUsed(list, {CopyExPrevent})
  {
    hide IsCurrentCopyEx, IsUsed;
    var x, y := FirstCurrentCopyEx(t), FirstUsed(list, {CopyExPrevent});
    assert x.Some? ==> IsCurrentCopyEx(t[x.value]);
    assert y.Some? ==> IsUsed(list[y.value], {CopyExPrevent});
  }

  lemma CopyExOne(p: Policy, i: nat, s: Searches, blockWriteAll: bool)
    requires WellTyped(p) && Loaded(p) && (s.shared == Some(i) ==> IsUsed(p, {SharedFolder}))
    ensures IsCurrentCopyEx(TranslateOne(p, i, s, blockWriteAll)) <==> IsUsed(p, {CopyExPrevent}) && !s.RemovableBlocked()
  {
  }

  lemma {:induction false} CountContributions(list: seq<Policy>, t: seq<Policy>, s: Searches, copyExFound: bool)
    requires |t| == |list|
    requires forall i | 0 <= i < |list| :: |Removables(Contribution(t[i], copyExFound))| == OwnCount(list[i], i, s, copyExFound)
    requires s.media.Some? && s.media.value < |list| ==> IsUsed(list[s.media.value], {Media})
    ensures |Removables(Contributions(t, copyExFound))| ==
            CountUsed(list, Media)
            - (if s.media.Some? && s.media.value < |list| && !s.RemovableBlocked() && s.copy.Some? then 1 else 0)
            + (if s.RemovableBlocked() || copyExFound then 0 else CountUsed(list, CopyPrevent))
  {
    if list != [] {
      var n := |list| - 1;
      CountContributions(list[..n], t[..n], s, copyExFound);
      RemovablesConcat(Contributions(t[..n], copyExFound), Contribution(t[n], copyExFound));
      assert IsUsed(list[n], {Media}) ==> !IsUsed(list[n], {CopyPrevent});
    }
  }

  lemma TranslatedCounts(list: seq<Policy>, blockWriteAll: bool, copyExFound: bool)
    requires LoadedList(list)
    ensures var t := Translated(list, blockWriteAll);
            forall i | 0 <= i < |list| ::
              |Removables(Contribution(t[i], copyExFound))| == OwnCount(list[i], i, SearchesOf(list), copyExFound)
  {
    var t := Translated(list, blockWriteAll);
    forall i | 0 <= i < |list|
      ensures |Removables(Contribution(t[i], copyExFound))| == OwnCount(list[i], i, SearchesOf(list), copyExFound)
    {
      ContributedRemovables(list[i], i, SearchesOf(list), blockWriteAll, copyExFound);
    }
  }

  lemma CopyExRemovable(list: seq<Policy>, blockWriteAll: bool, e: nat)
    requires e < |list| && IsUsed(list[e], {CopyExPrevent})
    ensures Removables([Translated(list, blockWriteAll)[e].rule]) == [Translated(list, blockWriteAll)[e].rule]
    ensures Translated(list, blockWriteAll)[e].rule == Built(list[e], blockWriteAll).rule
  {
    SingleRemovable(TranslateOne(list[e], e, SearchesOf(list), blockWriteAll).rule);
  }

  /** The number of removable rules in force after translation, for every list. */
  lemma RemovableCount(list: seq<Policy>, blockWriteAll: bool)
    requires LoadedList(list)
    ensures |Removables(CurrentRules(Translated(list, blockWriteAll)))| == ExpectedRemovables(list)
  {
    var t, s := Translated(list, blockWriteAll), SearchesOf(list);
    CopyExAfterTranslation(list, blockWriteAll);
    var e := FirstCurrentCopyEx(t);
    TranslatedCounts(list, blockWriteAll, e.Some?);
    CountContributions(list, t, s, e.Some?);
    if e.Some? {
      CopyExRemovable(list, blockWriteAll, e.value);
      RemovablesConcat([t[e.value].rule], Contributions(t, true));
    } else {
      assert [] + Contributions(t, false) == Contributions(t, false);
    }
    CopyTypesSplit(list);
  }

  lemma CopyTypesSplit(list: seq<Policy>)
    ensures FirstUsed(list, {CopyPrevent, CopyExPrevent}).None? ==>
            FirstUsed(list, {CopyExPrevent}).None? && CountUsed(list, CopyPrevent) == 0
  {
    if FirstUsed(list, {CopyPrevent, CopyExPrevent}).None? {
      forall i | 0 <= i < |list|
        ensures !IsUsed(list[i], {CopyPrevent}) && !IsUsed(list[i], {CopyExPrevent})
      {
        assert !IsUsed(list[i], {CopyPrevent, CopyExPrevent});
      }
      NoneUsed(list, CopyPrevent);
    }
  }

  lemma {:induction false} NoneUsed(list: seq<Policy>, sub: SubType)
    requires forall i | 0 <= i < |list| :: !IsUsed(list[i], {sub})
    ensures CountUsed(list, sub) == 0
  {
    if list != [] {
      NoneUsed(list[..|list| - 1], sub);
    }
  }

  lemma {:induction false} SomeUsed(list: seq<Policy>, sub: SubType, i: nat)
    requires i < |list| && IsUsed(list[i], {sub})
    ensures CountUsed(list, sub) >= 1
  {
    if i < |list| - 1 {
      SomeUsed(list[..|list| - 1], sub, i);
    }
  }

  lemma {:induction false} ContributedRule(list: seq<Policy>, copyExFound: bool, i: nat, r: Rule)
    requires i < |list| && r in Contribution(list[i], copyExFound)
    ensures r in Contributions(list, copyExFound)
  {
    if i < |list| - 1 {
      ContributedRule(list[..|list| - 1], copyExFound, i, r);
    }
  }

  /** The rule that governs removable drives. */
  function SoleRule(list: seq<Policy>, blockWriteAll: bool): Rule
    requires SearchesOf(list).media.Some? || CurrentCopyPolicy(list).Some?
  {
    var s, c := SearchesOf(list), CurrentCopyPolicy(list);
    if s.media.Some? && (s.RemovableBlocked() || c.None?) then
      MediaRemovable(list[s.media.value].kind.etcStorage, list[s.media.value].kind.blockLog)
    else Built(list[c.value], blockWriteAll).rule
  }

  lemma CurrentCopyPolicyIsFirst(list: seq<Policy>)
    requires LoadedList(list)
    ensures FirstOfType(list, CopyExPrevent) == FirstUsed(list, {CopyExPrevent})
    ensures FirstOfType(list, CopyPrevent) == FirstUsed(list, {CopyPrevent})
    ensures CurrentCopyPolicy(list).Some? <==> SearchesOf(list).copy.Some?
  {
    assert forall i | 0 <= i < |list| :: WellTyped(list[i]);
    var copy, c, e := SearchesOf(list).copy, FirstUsed(list, {CopyPrevent}), FirstUsed(list, {CopyExPrevent});
    assert copy.Some? ==> IsUsed(list[copy.value], {CopyPrevent}) || IsUsed(list[copy.value], {CopyExPrevent});
    assert c.Some? ==> IsUsed(list[c.value], {CopyPrevent, CopyExPrevent});
    assert e.Some? ==> IsUsed(list[e.value], {CopyPrevent, CopyExPrevent});
    SameFirstOfType(list, CopyExPrevent);
    SameFirstOfType(list, CopyPrevent);
  }

  lemma SameFirstOfType(list: seq<Policy>, sub: SubType)
    requires sub == CopyPrevent || sub == CopyExPrevent
    requires forall i | 0 <= i < |list| :: WellTyped(list[i])
    ensures FirstOfType(list, sub) == FirstUsed(list, {sub})
  {
    var x, y := FirstOfType(list, sub), FirstUsed(list, {sub});
    assert y.Some? ==> IsUsed(list[y.value], {sub}) && list[y.value].dlpType == PreventPlus;
    assert x.Some? ==> IsUsed(list[x.value], {sub});
  }

  /** With at most one used media and one used copy policy, exactly one removable rule is in force. It is the
      media policy's rule if that policy blocks removable reads or writes or no copy policy is used, and
      otherwise the rule of the policy `getCurrentDLPPolicy` returns. */
  lemma SoleRemovableRule(list: seq<Policy>, blockWriteAll: bool)
    requires LoadedList(list) && CountUsed(list, Media) <= 1 && CountUsed(list, CopyPrevent) <= 1
    requires SearchesOf(list).media.Some? || SearchesOf(list).copy.Some?
    ensures SearchesOf(list).media.Some? || CurrentCopyPolicy(list).Some?
    ensures Removables(CurrentRules(Translated(list, blockWriteAll))) == [SoleRule(list, blockWriteAll)]
  {
    hide SoleRule, Translated, CurrentRules, CurrentCopyPolicy, SearchesOf, ExpectedRemovables, CountUsed, Removables, LoadedList;
    CurrentCopyPolicyIsFirst(list);
    RemovableCount(list, blockWriteAll);
    SoleRuleInForce(list, blockWriteAll);
    ExpectsOne(list);
    RemovableMember(CurrentRules(Translated(list, blockWriteAll)), SoleRule(list, blockWriteAll));
  }

  lemma ExpectsOne(list: seq<Policy>)
    requires LoadedList(list) && CountUsed(list, Media) <= 1 && CountUsed(list, CopyPrevent) <= 1
    requires SearchesOf(list).media.Some? || SearchesOf(list).copy.Some?
    ensures ExpectedRemovables(list) == 1
  {
    CurrentCopyPolicyIsFirst(list);
    UsedIsCounted(list, Media);
    UsedIsCounted(list, CopyPrevent);
    hide CountUsed, FirstUsed, LoadedList, FirstOfType, MediaBlocks;
  }

  lemma UsedIsCounted(list: seq<Policy>, sub: SubType)
    ensures FirstUsed(list, {sub}).Some? <==> CountUsed(list, sub) >= 1
  {
    var first := FirstUsed(list, {sub});
    if first.Some? {
      SomeUsed(list, sub, first.value);
    } else {
      NoneUsed(list, sub);
    }
  }

  lemma {:induction false} RemovableMember(rules: seq<Rule>, r: Rule)
    requires r in rules && r.virtualType.DriveRemovable?
    ensures r in Removables(rules)
  {
    var n := |rules| - 1;
    if rules[n] != r {
      RemovableMember(rules[..n], r);
    }
  }

  lemma {:induction false} MemberRemovable(rules: seq<Rule>, r: Rule)
    requires r in Removables(rules)
    ensures r in rules && r.virtualType.DriveRemovable?
  {
    var n := |rules| - 1;
    if r in Removables(rules[..n]) {
      MemberRemovable(rules[..n], r);
    }
  }

  lemma SoleRuleInForce(list: seq<Policy>, blockWriteAll: bool)
    requires LoadedList(list)
    requires SearchesOf(list).media.Some? || CurrentCopyPolicy(list).Some?
    ensures SoleRule(list, blockWriteAll) in CurrentRules(Translated(list, blockWriteAll))
    ensures SoleRule(list, blockWriteAll).virtualType.DriveRemovable?
  {
    hide TranslateOne, MediaRemovable, Built, Removables, Contribution;
    var t, s, c := Translated(list, blockWriteAll), SearchesOf(list), CurrentCopyPolicy(list);
    CurrentCopyPolicyIsFirst(list);
    CopyExAfterTranslation(list, blockWriteAll);
    var e := FirstCurrentCopyEx(t);
    if s.media.Some? && (s.RemovableBlocked() || c.None?) {
      var i := s.media.value;
      ContributedRemovables(list[i], i, s, blockWriteAll, e.Some?);
      assert [SoleRule(list, blockWriteAll)] == Removables(Contribution(t[i], e.Some?));
      MemberRemovable(Contribution(t[i], e.Some?), SoleRule(list, blockWriteAll));
      ContributedRule(t, e.Some?, i, SoleRule(list, blockWriteAll));
    } else {
      TranslatedCopy(list[c.value], c.value, s, blockWriteAll);
      if e.None? {
        ContributedRule(t, false, c.value, t[c.value].rule);
      }
    }
  }

  lemma TranslatedCopy(p: Policy, i: nat, s: Searches, blockWriteAll: bool)
    requires WellTyped(p) && Loaded(p) && p.use && IsCopyType(p) && !s.RemovableBlocked() && s.shared != Some(i)
    requires s.media != Some(i)
    ensures var t := TranslateOne(p, i, s, blockWriteAll);
            && t.rule == Built(p, blockWriteAll).rule && t.rule.virtualType.DriveRemovable?
            && (Sub(p) == CopyPrevent ==> Contribution(t, false) == [t.rule])
  {
  }
}
