/** The rules in force against the rules written: when the two emitters of the policy manager agree. One looks at types
    and subtypes, the other at subtypes only. */
module Emitters {
  import opened CStrings
  import opened SecRule
  import opened Policies
  import opened PolicyMan

  // ---- What only types decide ----

  predicate MediaTyped(list: seq<Policy>) {
    forall i | 0 <= i < |list| && InForce(list[i]) && Sub(list[i]) == Media :: list[i].dlpType == Control
  }

  /** Every copy policy in force, of either kind, is typed prevent-plus. */
  predicate CopiesTyped(list: seq<Policy>) {
    forall i | 0 <= i < |list| && InForce(list[i]) && IsCopyType(list[i]) :: list[i].dlpType == PreventPlus
  }

  predicate NoCopyEx(list: seq<Policy>) {
    forall i | 0 <= i < |list| :: !IsXmlCopyEx(list[i])
  }

  /** The policy at `i` is the only copy policy in force, is a mistyped CopyEx, and nothing in force precedes it. */
  predicate LoneMistypedAt(list: seq<Policy>, i: nat) {
    && i < |list| && IsXmlCopyEx(list[i]) && list[i].dlpType != PreventPlus
    && (forall j | 0 <= j < i :: !InForce(list[j]))
    && forall j | i < j < |list| :: !(InForce(list[j]) && IsCopyType(list[j]))
  }

  ghost predicate LoneMistyped(list: seq<Policy>) {
    exists i: nat :: LoneMistypedAt(list, i)
  }

  ghost predicate TypesAllow(list: seq<Policy>) {
    MediaTyped(list) && (NoCopyEx(list) || CopiesTyped(list) || LoneMistyped(list))
  }

  /** The same policies with any device rules. */
  predicate SameShape(a: seq<Policy>, b: seq<Policy>) {
    |a| == |b| && forall i | 0 <= i < |a| :: b[i] == a[i].(rule := b[i].rule, ruleList := b[i].ruleList)
  }

  /** Device rules do not matter for what is in force, its type and its subtype. */
  lemma SameFacts(a: seq<Policy>, b: seq<Policy>)
    requires SameShape(a, b)
    ensures forall i | 0 <= i < |a| :: InForce(b[i]) == InForce(a[i]) && Sub(b[i]) == Sub(a[i]) && b[i].dlpType == a[i].dlpType
    ensures forall i | 0 <= i < |a| :: IsCurrentCopyEx(b[i]) == IsCurrentCopyEx(a[i]) && IsXmlCopyEx(b[i]) == IsXmlCopyEx(a[i])
    ensures MediaTyped(b) == MediaTyped(a) && NoCopyEx(b) == NoCopyEx(a) && CopiesTyped(b) == CopiesTyped(a)
  {
  }

  lemma {:induction false} SameFirstCopyExes(a: seq<Policy>, b: seq<Policy>)
    requires |a| == |b|
    requires forall i | 0 <= i < |a| :: IsCurrentCopyEx(b[i]) == IsCurrentCopyEx(a[i]) && IsXmlCopyEx(b[i]) == IsXmlCopyEx(a[i])
    ensures FirstCurrentCopyEx(a) == FirstCurrentCopyEx(b) && FirstXmlCopyEx(a) == FirstXmlCopyEx(b)
  {
    hide IsCurrentCopyEx, IsXmlCopyEx;
    if a != [] {
      SameFirstCopyExes(a[1..], b[1..]);
    }
  }

  lemma ShapeKeepsFirst(a: seq<Policy>, b: seq<Policy>)
    requires SameShape(a, b)
    ensures FirstCurrentCopyEx(a) == FirstCurrentCopyEx(b) && FirstXmlCopyEx(a) == FirstXmlCopyEx(b)
  {
    SameFacts(a, b);
    hide SameShape;
    SameFirstCopyExes(a, b);
  }

  // ---- Agreement ----

  lemma {:induction false} SameContributions(list: seq<Policy>, found: bool, xmlFound: bool)
    requires forall i | 0 <= i < |list| :: XmlContribution(list[i], xmlFound) == Contribution(list[i], found)
    ensures XmlContributions(list, xmlFound) == Contributions(list, found)
  {
    if list != [] {
      SameContributions(list[..|list| - 1], found, xmlFound);
    }
  }

  lemma {:induction false} NoneCurrent(list: seq<Policy>)
    requires forall i | 0 <= i < |list| :: !IsCurrentCopyEx(list[i])
    ensures FirstCurrentCopyEx(list).None?
  {
    if list != [] {
      NoneCurrent(list[1..]);
    }
  }

  lemma {:induction false} NoneWritten(list: seq<Policy>)
    ensures FirstXmlCopyEx(list).None? <==> NoCopyEx(list)
  {
    if list != [] {
      NoneWritten(list[1..]);
    }
  }

  lemma {:induction false} TypedFirst(list: seq<Policy>)
    requires CopiesTyped(list)
    ensures FirstCurrentCopyEx(list) == FirstXmlCopyEx(list)
  {
    if list != [] {
      TypedFirst(list[1..]);
      assert IsCurrentCopyEx(list[0]) == IsXmlCopyEx(list[0]);
    }
  }

  /** A lone mistyped CopyEx policy writes its rule first in both ways. */
  lemma {:induction false} LoneContributions(list: seq<Policy>, i: nat)
    requires MediaTyped(list) && LoneMistypedAt(list, i)
    ensures Contributions(list, false) == [list[i].rule] + XmlContributions(list, true)
  {
    var n := |list| - 1;
    if i < n {
      LoneContributions(list[..n], i);
      assert Contribution(list[n], false) == XmlContribution(list[n], true);
    } else {
      NothingContributed(list[..n]);
    }
  }

  lemma {:induction false} NothingContributed(list: seq<Policy>)
    requires forall j | 0 <= j < |list| :: !InForce(list[j])
    ensures Contributions(list, false) == [] && XmlContributions(list, true) == []
  {
    if list != [] {
      NothingContributed(list[..|list| - 1]);
    }
  }

  lemma {:induction false} FirstWritten(list: seq<Policy>, i: nat)
    requires i < |list| && IsXmlCopyEx(list[i]) && forall j | 0 <= j < i :: !IsXmlCopyEx(list[j])
    ensures FirstXmlCopyEx(list) == Some(i)
  {
    if i > 0 {
      FirstWritten(list[1..], i - 1);
    }
  }

  lemma AllowedAgree(list: seq<Policy>)
    requires TypesAllow(list)
    ensures XmlRules(list) == CurrentRules(list)
  {
    NoneWritten(list);
    if NoCopyEx(list) {
      NoneCurrent(list);
      SameContributions(list, false, false);
    } else if CopiesTyped(list) {
      TypedFirst(list);
      SameContributions(list, true, true);
    } else {
      var i: nat :| LoneMistypedAt(list, i);
      FirstWritten(list, i);
      NoneCurrent(list);
      LoneContributions(list, i);
    }
  }

  /** On well-typed lists the document holds exactly the rules in force, in the same order. */
  lemma EmittersAgree(list: seq<Policy>)
    requires forall p | p in list :: WellTyped(p)
    ensures XmlRules(list) == CurrentRules(list)
  {
    assert forall i | 0 <= i < |list| :: WellTyped(list[i]);
    AllowedAgree(list);
  }

  lemma SameTypes(a: seq<Policy>, b: seq<Policy>)
    requires SameShape(a, b) && TypesAllow(a)
    ensures TypesAllow(b)
  {
    SameFacts(a, b);
    if LoneMistyped(a) {
      var i: nat :| LoneMistypedAt(a, i);
      assert LoneMistypedAt(b, i);
    }
    hide SameShape, MediaTyped, NoCopyEx, CopiesTyped;
  }

  // ---- Disagreement: rules that tell the emitters apart ----

  const OTHER_RULE := CLEAR_RULE.(enableLog := true)

  /** Every policy has the clear rule and the given rule list, the one at `special` the other rule. */
  function Filled(list: seq<Policy>, rules: seq<Rule>, special: int): (r: seq<Policy>)
    ensures SameShape(list, r)
    ensures forall i | 0 <= i < |list| :: r[i].rule == (if i == special then OTHER_RULE else CLEAR_RULE) && r[i].ruleList == rules
  {
    seq(|list|, i requires 0 <= i < |list| =>
      list[i].(rule := if i == special then OTHER_RULE else CLEAR_RULE, ruleList := rules))
  }

  function Count(list: seq<Policy>, which: Policy -> bool): nat {
    if list == [] then 0
    else Count(list[..|list| - 1], which) + if which(list[|list| - 1]) then 1 else 0
  }

  lemma {:induction false} Counted(list: seq<Policy>, which: Policy -> bool, i: nat)
    requires i < |list| && which(list[i])
    ensures Count(list, which) >= 1
  {
    if i < |list| - 1 {
      Counted(list[..|list| - 1], which, i);
    }
  }

  lemma {:induction false} CountedTwice(list: seq<Policy>, which: Policy -> bool, i: nat, j: nat)
    requires i < j < |list| && which(list[i]) && which(list[j])
    ensures Count(list, which) >= 2
  {
    var n := |list| - 1;
    if j < n {
      CountedTwice(list[..n], which, i, j);
    } else {
      Counted(list[..n], which, i);
    }
  }

  /** Neither a copy policy nor media control: one rule in both ways. */
  predicate IsPlain(p: Policy) {
    InForce(p) && !IsCopyType(p) && Sub(p) != Media
  }

  predicate IsMistypedCopy(p: Policy) {
    InForce(p) && IsCopyType(p) && p.dlpType != PreventPlus
  }

  predicate IsTypedCopy(p: Policy) {
    InForce(p) && Sub(p) == CopyPrevent && p.dlpType == PreventPlus
  }

  /** How many rules are in force and written when no policy has a rule list. */
  lemma {:induction false} Lengths(list: seq<Policy>, found: bool)
    requires MediaTyped(list) && forall i | 0 <= i < |list| :: list[i].ruleList == []
    ensures |Contributions(list, found)| ==
            Count(list, IsPlain) + Count(list, IsMistypedCopy) + if found then 0 else Count(list, IsTypedCopy)
    ensures |XmlContributions(list, true)| == Count(list, IsPlain)
  {
    if list != [] {
      Lengths(list[..|list| - 1], found);
    }
  }

  /** A rule list given to a mistyped media policy is written, but not in force. */
  lemma {:induction false} OneLonger(a: seq<Policy>, b: seq<Policy>, i: nat, found: bool, xmlFound: bool)
    requires i < |a| && InForce(a[i]) && Sub(a[i]) == Media && a[i].dlpType != Control && a[i].ruleList == []
    requires b == a[i := a[i].(ruleList := [CLEAR_RULE])]
    ensures |Contributions(b, found)| == |Contributions(a, found)|
    ensures |XmlContributions(b, xmlFound)| == |XmlContributions(a, xmlFound)| + 1
  {
    var n := |a| - 1;
    if i < n {
      OneLonger(a[..n], b[..n], i, found, xmlFound);
    } else {
      assert b[..n] == a[..n];
    }
  }

  lemma GrownShape(list: seq<Policy>, a: seq<Policy>, i: nat)
    requires SameShape(list, a) && i < |a|
    ensures var b := a[i := a[i].(ruleList := [CLEAR_RULE])];
            SameShape(list, b) && SameShape(a, b)
  {
  }

  lemma ApartByMedia(list: seq<Policy>) returns (l: seq<Policy>)
    requires !MediaTyped(list)
    ensures SameShape(list, l) && XmlRules(l) != CurrentRules(l)
  {
    var a := Filled(list, [], -1);
    SameFacts(list, a);
    hide SameShape, Filled, XmlRules, CurrentRules;
    var i :| 0 <= i < |a| && InForce(a[i]) && Sub(a[i]) == Media && a[i].dlpType != Control;
    var b := a[i := a[i].(ruleList := [CLEAR_RULE])];
    GrownShape(list, a, i);
    ShapeKeepsFirst(a, b);
    OneLonger(a, b, i, FirstCurrentCopyEx(a).Some?, FirstXmlCopyEx(a).Some?);
    RuleNumbers(a);
    RuleNumbers(b);
    l := if |XmlRules(a)| != |CurrentRules(a)| then a else b;
  }

  lemma RuleNumbers(list: seq<Policy>)
    ensures var e := FirstXmlCopyEx(list).Some?;
            |XmlRules(list)| == (if e then 1 else 0) + |XmlContributions(list, e)|
    ensures var e := FirstCurrentCopyEx(list).Some?;
            |CurrentRules(list)| == (if e then 1 else 0) + |Contributions(list, e)|
  {
  }

  /** With a CopyEx policy in force the number of rules tells the emitters apart, unless all copies are typed or a
      mistyped CopyEx policy is the only one. */
  lemma ApartByNumber(a: seq<Policy>)
    requires MediaTyped(a) && !NoCopyEx(a) && forall i | 0 <= i < |a| :: a[i].ruleList == []
    ensures |XmlRules(a)| == |CurrentRules(a)| <==>
            if FirstCurrentCopyEx(a).Some? then Count(a, IsMistypedCopy) == 0
            else Count(a, IsMistypedCopy) + Count(a, IsTypedCopy) == 1
  {
    NoneWritten(a);
    Lengths(a, FirstCurrentCopyEx(a).Some?);
    RuleNumbers(a);
    hide MediaTyped, NoCopyEx, XmlRules, CurrentRules, Count;
  }

  predicate AllClear(rules: seq<Rule>) {
    forall i | 0 <= i < |rules| :: rules[i] == CLEAR_RULE
  }

  lemma {:induction false} ClearContributions(list: seq<Policy>)
    requires forall k | 0 <= k < |list| :: AllClear(Contribution(list[k], false))
    ensures AllClear(Contributions(list, false))
  {
    if list != [] {
      ClearContributions(list[..|list| - 1]);
    }
  }

  /** The rules in force lead with a clear one when some policy contributes one and only such come before it. */
  lemma {:induction false} LeadsClear(list: seq<Policy>, j: nat)
    requires j < |list| && Contribution(list[j], false) != []
    requires forall k | 0 <= k <= j :: AllClear(Contribution(list[k], false))
    ensures Contributions(list, false) != [] && Contributions(list, false)[0] == CLEAR_RULE
  {
    hide Contribution;
    var n := |list| - 1;
    if j < n {
      LeadsClear(list[..n], j);
    } else {
      ClearContributions(list);
    }
  }

  lemma ClearOne(p: Policy)
    requires p.rule == CLEAR_RULE && p.ruleList == [CLEAR_RULE]
    ensures AllClear(Contribution(p, false))
    ensures InForce(p) && !IsXmlCopyEx(p) ==> Contribution(p, false) != []
  {
  }

  lemma ApartByOrder(list: seq<Policy>, i: nat, j: nat) returns (l: seq<Policy>)
    requires j < i < |list| && IsXmlCopyEx(list[i]) && InForce(list[j])
    requires FirstXmlCopyEx(list) == Some(i) && FirstCurrentCopyEx(list).None?
    ensures SameShape(list, l) && XmlRules(l) != CurrentRules(l)
  {
    l := Filled(list, [CLEAR_RULE], i);
    ShapeKeepsFirst(list, l);
    SameFacts(list, l);
    assert !IsXmlCopyEx(list[j]);
    hide Contribution, IsXmlCopyEx, IsCurrentCopyEx, InForce, SameShape;
    forall k | 0 <= k <= j
      ensures AllClear(Contribution(l[k], false))
    {
      ClearOne(l[k]);
    }
    ClearOne(l[j]);
    LeadsClear(l, j);
    assert XmlRules(l)[0] == OTHER_RULE;
    assert CurrentRules(l)[0] == CLEAR_RULE;
  }

  lemma OnlyCopy(list: seq<Policy>, i: nat)
    requires i < |list| && IsXmlCopyEx(list[i]) && forall k | 0 <= k < |list| :: !IsCurrentCopyEx(list[k])
    requires Count(list, IsMistypedCopy) + Count(list, IsTypedCopy) == 1
    ensures IsMistypedCopy(list[i])
    ensures forall k | 0 <= k < |list| && k != i :: !(InForce(list[k]) && IsCopyType(list[k]))
  {
    assert !IsCurrentCopyEx(list[i]);
    Counted(list, IsMistypedCopy, i);
    forall k | 0 <= k < |list| && k != i
      ensures !(InForce(list[k]) && IsCopyType(list[k]))
    {
      assert !IsCurrentCopyEx(list[k]);
      if IsMistypedCopy(list[k]) {
        CountedTwice(list, IsMistypedCopy, if i < k then i else k, if i < k then k else i);
      } else if IsTypedCopy(list[k]) {
        Counted(list, IsTypedCopy, k);
      }
    }
  }

  /** When the numbers agree after all, the order tells. */
  lemma ApartAnyway(list: seq<Policy>, a: seq<Policy>) returns (l: seq<Policy>)
    requires SameShape(list, a) && !NoCopyEx(list) && !CopiesTyped(list) && !LoneMistyped(list)
    requires if FirstCurrentCopyEx(a).Some? then Count(a, IsMistypedCopy) == 0
             else Count(a, IsMistypedCopy) + Count(a, IsTypedCopy) == 1
    ensures SameShape(list, l) && XmlRules(l) != CurrentRules(l)
  {
    SameFacts(list, a);
    ShapeKeepsFirst(list, a);
    NoneWritten(list);
    SomeMistyped(a);
    hide SameShape, Count, XmlRules, CurrentRules, FirstXmlCopyEx, FirstCurrentCopyEx;
    var i := FirstXmlCopyEx(list).value;
    OnlyCopy(a, i);
    NotAlone(list, a, i);
    var j :| 0 <= j < i && InForce(list[j]);
    l := ApartByOrder(list, i, j);
  }

  lemma SomeMistyped(a: seq<Policy>)
    requires !CopiesTyped(a)
    ensures Count(a, IsMistypedCopy) >= 1
  {
    var k :| 0 <= k < |a| && InForce(a[k]) && IsCopyType(a[k]) && a[k].dlpType != PreventPlus;
    Counted(a, IsMistypedCopy, k);
  }

  lemma NotAlone(list: seq<Policy>, a: seq<Policy>, i: nat)
    requires SameShape(list, a) && i < |list| && IsXmlCopyEx(list[i]) && !LoneMistyped(list)
    requires IsMistypedCopy(a[i]) && forall k | 0 <= k < |a| && k != i :: !(InForce(a[k]) && IsCopyType(a[k]))
    ensures exists j :: 0 <= j < i && InForce(list[j])
  {
    SameFacts(list, a);
    hide SameShape;
    assert !LoneMistypedAt(list, i);
  }

  /** Some rules tell the emitters apart. */
  lemma Apart(list: seq<Policy>) returns (l: seq<Policy>)
    requires !TypesAllow(list)
    ensures SameShape(list, l) && XmlRules(l) != CurrentRules(l)
  {
    if !MediaTyped(list) {
      l := ApartByMedia(list);
    } else {
      var a := Filled(list, [], -1);
      SameFacts(list, a);
      ApartByNumber(a);
      if |XmlRules(a)| != |CurrentRules(a)| {
        l := a;
      } else {
        l := ApartAnyway(list, a);
      }
    }
    hide SameShape, MediaTyped, NoCopyEx, CopiesTyped, LoneMistyped, XmlRules, CurrentRules, Count;
  }

  /** The emitters agree whatever the device rules are, iff every media policy in force is typed as control, and no
      CopyEx policy is in force, or all copy policies in force are typed prevent-plus, or a single mistyped CopyEx
      policy is the only copy policy and the first policy in force. */
  lemma EmittersAgreeExactly(list: seq<Policy>)
    ensures (forall l | SameShape(list, l) :: XmlRules(l) == CurrentRules(l)) <==> TypesAllow(list)
  {
    if TypesAllow(list) {
      forall l | SameShape(list, l)
        ensures XmlRules(l) == CurrentRules(l)
      {
        SameTypes(list, l);
        AllowedAgree(l);
      }
    } else {
      var l := Apart(list);
      assert SameShape(list, l) && XmlRules(l) != CurrentRules(l);
    }
  }

  /** A CopyEx policy beside a copy policy typed as control, with the rules both would build: the copy policy's rule
      is in force but not written. */
  lemma EmittersDisagreeOnMixedTypes()
    ensures var ex := Policy(PreventPlus, CopyExKind([]), true, true, CLEAR_RULE, []);
            var copy := Policy(Control, CopyKind(Controls(NoInspect, Allow, Allow, Allow), false), true, true, CLEAR_RULE, []);
            var list := Translated([ex, copy], false);
            XmlRules(list) == [list[0].rule] && CurrentRules(list) == [list[0].rule, list[1].rule]
  {
    var ex := Policy(PreventPlus, CopyExKind([]), true, true, CLEAR_RULE, []);
    var copy := Policy(Control, CopyKind(Controls(NoInspect, Allow, Allow, Allow), false), true, true, CLEAR_RULE, []);
    var loaded := [ex, copy];
    var list := Translated(loaded, false);
    assert SearchesOf(loaded).media.None?;
    assert InForce(list[0]) && Sub(list[0]) == CopyExPrevent && list[0].dlpType == PreventPlus;
    assert InForce(list[1]) && Sub(list[1]) == CopyPrevent && list[1].dlpType == Control;
    assert list[..1] == [list[0]] && [list[0]][..0] == [];
    assert XmlContributions(list, true) == XmlContributions([], true) + XmlContribution(list[0], true) + XmlContribution(list[1], true);
    assert Contributions(list, true) == Contributions([], true) + Contribution(list[0], true) + Contribution(list[1], true);
  }
}
