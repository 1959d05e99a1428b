/** The policy manager: translation of both mode lists, the rules in force, and their two emitters. */
module PolicyMan {
  import opened CStrings
  import opened SecRule
  import opened Policies

  class PolicyManager {
    var online: seq<Policy>
    var offline: seq<Policy>
    var isOnline: bool

    constructor (online: seq<Policy>, offline: seq<Policy>)
      ensures this.online == online && this.offline == offline && !isOnline
    {
      this.online, this.offline, isOnline := online, offline, false;
    }

    function CurrentList(): seq<Policy>
      reads this
    {
      if isOnline then online else offline
    }

    /** `makeDeviceRule(policyList)`: every used policy builds its rule. */
    static method BuildRules(list: seq<Policy>, blockWriteAll: bool) returns (r: seq<Policy>)
      ensures |r| == |list| && forall i | 0 <= i < |list| :: r[i] == Built(list[i], blockWriteAll)
    {
      r := list;
      var index := 0;
      while index < |list|
        invariant 0 <= index <= |list| && |r| == |list|
        invariant forall i | 0 <= i < index :: r[i] == Built(list[i], blockWriteAll)
        invariant forall i | index <= i < |list| :: r[i] == list[i]
      {
        if r[index].use {
          r := r[index := WithRule(r[index], blockWriteAll)];
        }
        index := index + 1;
      }
    }

    /** The storage control of the first used media policy. */
    static method FindMediaControl(list: seq<Policy>, bit: StorageBit) returns (found: bool)
      ensures found == MediaBlocks(list, bit)
    {
      var index := 0;
      while index < |list|
        invariant 0 <= index <= |list|
        invariant forall j | 0 <= j < index :: !IsUsed(list[j], {Media})
      {
        if list[index].use && Sub(list[index]) == Media {
          assert IsUsed(list[index], {Media});
          return bit in list[index].kind.etcStorage;
        }
        index := index + 1;
      }
      found := false;
    }

    /** `disableDeviceRuleByMediaControl` for the copy subtypes: it disables every used copy policy. */
    static method DisableCopyByMedia(list: seq<Policy>, bit: StorageBit) returns (r: seq<Policy>)
      ensures |r| == |list| && forall i | 0 <= i < |list| :: r[i] == CopyStep(list[i], MediaBlocks(list, bit))
    {
      r := list;
      var found := FindMediaControl(list, bit);
      if !found {
        return;
      }
      var index := 0;
      while index < |list|
        invariant 0 <= index <= |list| && |r| == |list|
        invariant forall i | 0 <= i < index :: r[i] == CopyStep(list[i], true)
        invariant forall i | index <= i < |list| :: r[i] == list[i]
      {
        if r[index].use && IsCopyType(r[index]) {
          r := r[index := r[index].(enableDeviceRule := false)];
        }
        index := index + 1;
      }
    }

    /** `disableDeviceRuleByMediaControl` for the shared-folder subtype: it stops after the first one. */
    static method DisableSharedFolderByMedia(list: seq<Policy>) returns (r: seq<Policy>)
      ensures |r| == |list| && forall i | 0 <= i < |list| :: r[i] == SharedFolderStep(list[i], i, SearchesOf(list))
    {
      r := list;
      var found := FindMediaControl(list, NetDrive);
      if !found {
        return;
      }
      var index := 0;
      while index < |list|
        invariant 0 <= index <= |list| && r == list
        invariant forall j | 0 <= j < index :: !IsUsed(list[j], {SharedFolder})
      {
        if r[index].use && Sub(r[index]) == SharedFolder {
          assert IsUsed(list[index], {SharedFolder});
          r := r[index := r[index].(enableDeviceRule := false)];
          return;
        }
        index := index + 1;
      }
    }

    /** `CDLPPolicyMedia::validateDeviceRule`: the erase loop over the rule list. */
    static method ValidateMediaRules(rules: seq<Rule>, copy: bool, shared: bool) returns (r: seq<Rule>)
      ensures r == EraseRules(rules, copy, shared)
    {
      r := rules;
      var pos := 0;
      ghost var seen := 0;
      while pos < |r|
        invariant 0 <= pos <= |r| && seen <= |rules|
        invariant r[..pos] == EraseRules(rules[..seen], copy, shared)
        invariant r[pos..] == rules[seen..]
        decreases |rules| - seen
      {
        assert r[pos] == r[pos..][0] == rules[seen];
        assert rules[..seen + 1][..seen] == rules[..seen];
        assert r[pos + 1..] == r[pos..][1..] == rules[seen + 1..];
        if (copy && r[pos].virtualType.DriveRemovable?) || (shared && r[pos].virtualType.DriveNetDrive?) {
          r := r[..pos] + r[pos + 1..];
        } else {
          pos := pos + 1;
        }
        seen := seen + 1;
      }
      assert r[..pos] == r && rules[..seen] == rules;
    }

    /** The first loop of `disableDeviceRuleByPreventPlus`. */
    static method FindPreventPlus(list: seq<Policy>) returns (copyFound: bool, sharedFound: bool)
      ensures copyFound == SearchesOf(list).copy.Some? && sharedFound == SearchesOf(list).SharedSeen()
    {
      copyFound, sharedFound := false, false;
      var index := 0;
      while index < |list| && !copyFound
        invariant 0 <= index <= |list|
        invariant copyFound ==> index > 0 && FirstUsed(list, {CopyPrevent, CopyExPrevent}) == Some(index - 1)
        invariant !copyFound ==> forall j | 0 <= j < index :: !IsUsed(list[j], {CopyPrevent, CopyExPrevent})
        invariant sharedFound <==> exists j :: 0 <= j < index && IsUsed(list[j], {SharedFolder})
      {
        if list[index].use {
          if IsCopyType(list[index]) {
            assert IsUsed(list[index], {CopyPrevent, CopyExPrevent});
            copyFound := true;
          } else if Sub(list[index]) == SharedFolder {
            assert IsUsed(list[index], {SharedFolder});
            sharedFound := true;
          }
        }
        index := index + 1;
      }
    }

    /** `disableDeviceRuleByPreventPlus` */
    static method DisableMediaByPreventPlus(list: seq<Policy>) returns (r: seq<Policy>)
      ensures |r| == |list| && forall i | 0 <= i < |list| :: r[i] == MediaStep(list[i], i, SearchesOf(list))
    {
      hide EraseRules;
      r := list;
      var copyFound, sharedFound := FindPreventPlus(list);
      if !copyFound && !sharedFound {
        return;
      }
      var index := 0;
      while index < |list|
        invariant 0 <= index <= |list| && r == list
        invariant forall j | 0 <= j < index :: !IsUsed(list[j], {Media})
      {
        if list[index].use && Sub(list[index]) == Media {
          assert IsUsed(list[index], {Media});
          var etc := list[index].kind.etcStorage;
          if RemovableRead !in etc && RemovableWrite !in etc {
            var rules := ValidateMediaRules(list[index].ruleList, copyFound, sharedFound);
            r := r[index := r[index].(ruleList := rules)];
          }
          return;
        }
        index := index + 1;
      }
    }

    /** `makeDeviceRule(controlMode)` followed by `validateDeviceRule`. */
    static method TranslateList(list: seq<Policy>, blockWriteAll: bool) returns (r: seq<Policy>)
      ensures r == Translated(list, blockWriteAll)
    {
      var built := BuildRules(list, blockWriteAll);
      SameSearches(list, built);
      r := DisableSharedFolderByMedia(built);
      SameSearches(list, r);
      r := DisableCopyByMedia(r, RemovableRead);
      SameSearches(list, r);
      r := DisableCopyByMedia(r, RemovableWrite);
      SameSearches(list, r);
      r := DisableMediaByPreventPlus(r);
    }

    /** `translatePolicy`: offline first, then online. */
    method TranslatePolicy(blockWriteAll: bool)
      modifies this`online, this`offline
      ensures offline == Translated(old(offline), blockWriteAll)
      ensures online == Translated(old(online), blockWriteAll)
    {
      offline := TranslateList(offline, blockWriteAll);
      online := TranslateList(online, blockWriteAll);
    }

    /** `CPIActionOnChangeOnOfflineMode::run`: switch the mode, then translate both lists again. */
    method ChangeMode(toOnline: bool, blockWriteAll: bool)
      modifies this
      ensures isOnline == toOnline
      ensures offline == Translated(old(offline), blockWriteAll)
      ensures online == Translated(old(online), blockWriteAll)
    {
      isOnline := toOnline;
      TranslatePolicy(blockWriteAll);
    }

    /** The body of the second loop of `getCurrentRule`. */
    static method RulesInForce(p: Policy, copyPreventFound: bool) returns (r: seq<Rule>)
      ensures r == Contribution(p, copyPreventFound)
    {
      if !p.use || !p.enableDeviceRule {
        return [];
      }
      if p.dlpType == Control && Sub(p) == Media {
        r := p.ruleList;
      } else if p.dlpType == PreventPlus && Sub(p) == CopyExPrevent {
        r := [];
      } else if p.dlpType == PreventPlus && Sub(p) == CopyPrevent {
        r := if copyPreventFound then [] else [p.rule];
      } else {
        r := [p.rule];
      }
    }

    /** The body of the second loop of `makeDeviceRuleXml`. */
    static method RulesWritten(p: Policy, copyPreventFound: bool) returns (r: seq<Rule>)
      ensures r == XmlContribution(p, copyPreventFound)
    {
      if !p.use || !p.enableDeviceRule {
        return [];
      }
      match Sub(p) {
        case CopyPrevent => r := if copyPreventFound then [] else [p.rule];
        case CopyExPrevent => r := [];
        case Media => r := p.ruleList;
        case _ => r := [p.rule];
      }
    }

    /** The first loop of `getCurrentRule`. */
    static method CopyExInForce(list: seq<Policy>) returns (ruleList: seq<Rule>, found: bool)
      ensures var e := FirstCurrentCopyEx(list);
              found == e.Some? && ruleList == if e.Some? then [list[e.value].rule] else []
    {
      var index := 0;
      while index < |list|
        invariant 0 <= index <= |list|
        invariant forall j | 0 <= j < index :: !IsCurrentCopyEx(list[j])
      {
        var p := list[index];
        if p.use && p.enableDeviceRule && p.dlpType == PreventPlus && Sub(p) == CopyExPrevent {
          assert IsCurrentCopyEx(list[index]);
          return [p.rule], true;
        }
        index := index + 1;
      }
      ruleList, found := [], false;
    }

    /** `getCurrentRule` */
    method GetCurrentRule() returns (any: bool, ruleList: seq<Rule>)
      ensures ruleList == CurrentRules(CurrentList()) && (any <==> ruleList != [])
    {
      var list := CurrentList();
      var front, copyPreventFound := CopyExInForce(list);
      var rest: seq<Rule> := [];
      var index := 0;
      while index < |list|
        invariant 0 <= index <= |list|
        invariant rest == Contributions(list[..index], copyPreventFound)
      {
        assert list[..index + 1][..index] == list[..index];
        var added := RulesInForce(list[index], copyPreventFound);
        rest := rest + added;
        index := index + 1;
      }
      assert list[..index] == list;
      ruleList := front + rest;
      any := ruleList != [];
    }

    /** `makeDeviceRuleXml_copyPrevent` */
    static method CopyExWritten(list: seq<Policy>) returns (written: seq<Rule>, found: bool)
      ensures var e := FirstXmlCopyEx(list);
              found == e.Some? && written == if e.Some? then [list[e.value].rule] else []
    {
      var index := 0;
      while index < |list|
        invariant 0 <= index <= |list|
        invariant forall j | 0 <= j < index :: !IsXmlCopyEx(list[j])
      {
        var p := list[index];
        if p.use && p.enableDeviceRule && Sub(p) == CopyExPrevent {
          assert IsXmlCopyEx(list[index]);
          return [p.rule], true;
        }
        index := index + 1;
      }
      written, found := [], false;
    }

    /** `makeDeviceRuleXml`: the rules written for one mode list, in document order. */
    static method MakeDeviceRuleXml(list: seq<Policy>) returns (written: seq<Rule>)
      ensures written == XmlRules(list)
    {
      var front, copyPreventFound := CopyExWritten(list);
      var rest: seq<Rule> := [];
      var index := 0;
      while index < |list|
        invariant 0 <= index <= |list|
        invariant rest == XmlContributions(list[..index], copyPreventFound)
      {
        assert list[..index + 1][..index] == list[..index];
        var added := RulesWritten(list[index], copyPreventFound);
        rest := rest + added;
        index := index + 1;
      }
      assert list[..index] == list;
      written := front + rest;
    }
  }

  // ---- The XML emitter, which looks at subtypes only ----

  predicate IsXmlCopyEx(p: Policy) {
    InForce(p) && Sub(p) == CopyExPrevent
  }

  function FirstXmlCopyEx(list: seq<Policy>): (r: Option<nat>)
    ensures r.Some? ==> r.value < |list| && IsXmlCopyEx(list[r.value])
    ensures forall j | 0 <= j < (if r.Some? then r.value else |list|) :: !IsXmlCopyEx(list[j])
  {
    if list == [] then None
    else if IsXmlCopyEx(list[0]) then Some(0)
    else
      match FirstXmlCopyEx(list[1..])
      case Some(i) => Some(i + 1)
      case None => None
  }

  function XmlContribution(p: Policy, copyExFound: bool): seq<Rule> {
    if !InForce(p) then []
    else
      match Sub(p)
      case CopyPrevent => if copyExFound then [] else [p.rule]
      case CopyExPrevent => []
      case Media => p.ruleList
      case _ => [p.rule]
  }

  function XmlContributions(list: seq<Policy>, copyExFound: bool): seq<Rule> {
    if list == [] then []
    else XmlContributions(list[..|list| - 1], copyExFound) + XmlContribution(list[|list| - 1], copyExFound)
  }

  function XmlRules(list: seq<Policy>): seq<Rule> {
    var e := FirstXmlCopyEx(list);
    (if e.Some? then [list[e.value].rule] else []) + XmlContributions(list, e.Some?)
  }

  // ---- Translation ----

  lemma SameSearches(a: seq<Policy>, b: seq<Policy>)
    requires |a| == |b| && forall i | 0 <= i < |a| :: a[i].use == b[i].use && a[i].kind == b[i].kind
    ensures SearchesOf(a) == SearchesOf(b)
    ensures forall bit :: MediaBlocks(a, bit) == MediaBlocks(b, bit)
  {
    SameFirstUsed(a, b, {Media});
    SameFirstUsed(a, b, {CopyPrevent, CopyExPrevent});
    SameFirstUsed(a, b, {SharedFolder});
  }

  lemma SameFirstUsed(a: seq<Policy>, b: seq<Policy>, subs: set<SubType>)
    requires |a| == |b| && forall i | 0 <= i < |a| :: a[i].use == b[i].use && a[i].kind == b[i].kind
    ensures FirstUsed(a, subs) == FirstUsed(b, subs)
  {
    assert forall i | 0 <= i < |a| :: IsUsed(a[i], subs) == IsUsed(b[i], subs);
    var x, y := FirstUsed(a, subs), FirstUsed(b, subs);
    assert x.Some? ==> IsUsed(a[x.value], subs);
    assert y.Some? ==> IsUsed(b[y.value], subs);
  }

  /** Translating twice is translating once. */
  lemma TranslationIdempotent(list: seq<Policy>, blockWriteAll: bool)
    ensures Translated(Translated(list, blockWriteAll), blockWriteAll) == Translated(list, blockWriteAll)
  {
    var t, s := Translated(list, blockWriteAll), SearchesOf(list);
    forall i | 0 <= i < |list|
      ensures t[i].use == list[i].use && t[i].kind == list[i].kind
      ensures TranslateOne(t[i], i, s, blockWriteAll) == t[i]
    {
      TranslateOneIdempotent(list[i], i, s, blockWriteAll);
    }
    SameSearches(list, t);
  }

  lemma TranslateOneIdempotent(p: Policy, i: nat, s: Searches, blockWriteAll: bool)
    requires s.media == Some(i) ==> IsUsed(p, {Media})
    ensures var t := TranslateOne(p, i, s, blockWriteAll);
            t.use == p.use && t.kind == p.kind && TranslateOne(t, i, s, blockWriteAll) == t
  {
    hide MediaRules, EraseRules, CopyRule, CopyExRule, DeviceRule, AllRule;
  }
}
