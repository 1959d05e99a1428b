/** Offline mode has nobody to approve: every approval becomes a block when the policies are loaded. */
module ApprovalRewrite {
  import opened CStrings
  import opened Policies

  /** The three places a verdict is given. */
  datatype Slot = Uninspected | Found | NotFound

  predicate Active(c: Controls, s: Slot) {
    s.Uninspected? <==> c.option.NoInspect?
  }

  function VerdictAt(c: Controls, s: Slot): Verdict {
    match s
    case Uninspected => c.noInspect
    case Found => c.found
    case NotFound => c.notFound
  }

  ghost predicate AsksApproval(c: Controls) {
    exists s :: Active(c, s) && VerdictAt(c, s) == Approval
  }

  function Blocked(v: Verdict): Verdict {
    if v == Approval then Block else v
  }

  // ---- Log conditions ----

  const ON_NOT_FOUND: bv8 := 1
  const ON_FOUND: bv8 := 2
  const ON_ALL: bv8 := 7

  /** The log conditions that stand for a verdict's place. */
  function Conditions(s: Slot): bv8 {
    match s
    case Uninspected => ON_ALL
    case Found => ON_FOUND
    case NotFound => ON_NOT_FOUND
  }

  // ---- Plain prevent-plus policies ----

  datatype Plain = Plain(controls: Controls, block: Log, allow: Log)

  /** The conditions that move from the allow log to the block log. */
  function Moved(p: Plain): bv8 {
    if p.controls.option.NoInspect? then MovedAt(p, Uninspected) else MovedAt(p, Found) | MovedAt(p, NotFound)
  }

  function MovedAt(p: Plain, s: Slot): bv8 {
    if VerdictAt(p.controls, s) == Approval && Conditions(s) & p.allow.setting.condition != 0 then Conditions(s) else 0
  }

  function WithCondition(l: LogSetting, c: bv8): (r: LogSetting)
    ensures r.use == l.use && r.logType == l.logType
  {
    l.(condition := l.condition | c)
  }

  function WithoutCondition(l: LogSetting, c: bv8): (r: LogSetting)
    ensures r.use == l.use && r.logType == l.logType
  {
    l.(condition := l.condition & !c)
  }

  function BlockedControls(c: Controls): Controls {
    match c.option
    case NoInspect => c.(noInspect := Blocked(c.noInspect))
    case RunInspect => c.(found := Blocked(c.found), notFound := Blocked(c.notFound))
  }

  /** The conditions of `m` moved from the allow log to the block log. */
  function MoveMask(p: Plain, m: bv8): Plain {
    p.(block := p.block.(setting := WithCondition(p.block.setting, m)),
       allow := Log(WithoutCondition(p.allow.setting, m), WithoutCondition(p.allow.fileCopy, m)))
  }

  function RewrittenPlain(p: Plain): Plain {
    MoveMask(p, Moved(p)).(controls := BlockedControls(p.controls))
  }

  /** No active approval is left: every active verdict is the old one with approval read as block, and inactive
      verdicts stay. */
  lemma PlainRewriteExact(p: Plain)
    ensures !AsksApproval(RewrittenPlain(p).controls)
    ensures forall s :: VerdictAt(RewrittenPlain(p).controls, s)
                     == if Active(p.controls, s) then Blocked(VerdictAt(p.controls, s)) else VerdictAt(p.controls, s)
  {
    hide Moved, WithCondition, WithoutCondition;
  }

  /** No log condition gets lost, and in inspection mode none appears. */
  lemma ConditionsConserved(p: Plain)
    ensures var q := RewrittenPlain(p);
            && (p.allow.setting.condition | p.block.setting.condition)
               & !(q.allow.setting.condition | q.block.setting.condition) == 0
            && (p.controls.option.RunInspect? ==>
                  q.allow.setting.condition | q.block.setting.condition == p.allow.setting.condition | p.block.setting.condition)
  {
    ConditionsKept(p.allow.setting.condition, p.block.setting.condition, Moved(p));
    if p.controls.option.RunInspect? {
      MovedWereAllowed(p);
    }
    hide Moved;
  }

  predicate Has(condition: bv8, bit: bv8) {
    condition & bit != 0
  }

  /** A condition goes over from the allow log to the block log, and out of the file-copy log, iff the allow log has
      it and the verdict `v` it stands for is approval. */
  predicate BitFollows(p: Plain, q: Plain, bit: bv8, v: Verdict) {
    var goes := Has(p.allow.setting.condition, bit) && v == Approval;
    && (Has(q.allow.setting.condition, bit) <==> Has(p.allow.setting.condition, bit) && !goes)
    && (Has(q.block.setting.condition, bit) <==> Has(p.block.setting.condition, bit) || goes)
    && (Has(q.allow.fileCopy.condition, bit) <==> Has(p.allow.fileCopy.condition, bit) && !goes)
  }

  predicate OthersStay(p: Plain, q: Plain) {
    && q.allow.setting.condition & 252 == p.allow.setting.condition & 252
    && q.allow.fileCopy.condition & 252 == p.allow.fileCopy.condition & 252
    && q.block.setting.condition & 252 == p.block.setting.condition & 252
  }

  /** What the log conditions become in inspection mode: the found (2) and the not-found (1) condition each follow their
      verdict, and all others stay. */
  lemma ConditionsFollow(p: Plain)
    requires p.controls.option.RunInspect?
    ensures var q := RewrittenPlain(p);
            BitFollows(p, q, 2, p.controls.found) && BitFollows(p, q, 1, p.controls.notFound) && OthersStay(p, q)
  {
    MovedBits(p);
    RewrittenConditions(p);
    MaskedBits(p, RewrittenPlain(p), Moved(p));
    hide Moved, Has, RewrittenPlain, BitFollows, OthersStay;
  }

  predicate Removed(before: bv8, after: bv8, m: bv8) {
    after == before & !m
  }

  predicate Added(before: bv8, after: bv8, m: bv8) {
    after == before | m
  }

  predicate Masked(p: Plain, q: Plain, m: bv8) {
    && Removed(p.allow.setting.condition, q.allow.setting.condition, m)
    && Removed(p.allow.fileCopy.condition, q.allow.fileCopy.condition, m)
    && Added(p.block.setting.condition, q.block.setting.condition, m)
  }

  lemma MaskedBits(p: Plain, q: Plain, m: bv8)
    requires m in {0, 1, 2, 3} && Masked(p, q, m)
    ensures (Has(m, 2) <==> Has(p.allow.setting.condition, 2) && p.controls.found == Approval) ==> BitFollows(p, q, 2, p.controls.found)
    ensures (Has(m, 1) <==> Has(p.allow.setting.condition, 1) && p.controls.notFound == Approval) ==> BitFollows(p, q, 1, p.controls.notFound)
    ensures OthersStay(p, q)
  {
    hide Has, Removed, Added;
    RemovedBits(p.allow.setting.condition, q.allow.setting.condition, m);
    RemovedBits(p.allow.fileCopy.condition, q.allow.fileCopy.condition, m);
    AddedBits(p.block.setting.condition, q.block.setting.condition, m);
  }

  lemma RemovedBits(before: bv8, after: bv8, m: bv8)
    requires m in {0, 1, 2, 3} && Removed(before, after, m)
    ensures (Has(after, 2) <==> Has(before, 2) && !Has(m, 2)) && (Has(after, 1) <==> Has(before, 1) && !Has(m, 1))
    ensures after & 252 == before & 252
  {
  }

  lemma AddedBits(before: bv8, after: bv8, m: bv8)
    requires m in {0, 1, 2, 3} && Added(before, after, m)
    ensures (Has(after, 2) <==> Has(before, 2) || Has(m, 2)) && (Has(after, 1) <==> Has(before, 1) || Has(m, 1))
    ensures after & 252 == before & 252
  {
  }

  lemma RewrittenConditions(p: Plain)
    ensures Masked(p, RewrittenPlain(p), Moved(p))
  {
    hide Moved, BlockedControls;
  }

  lemma MovedBits(p: Plain)
    requires p.controls.option.RunInspect?
    ensures Moved(p) in {0, 1, 2, 3}
    ensures Has(Moved(p), 2) <==> Has(p.allow.setting.condition, 2) && p.controls.found == Approval
    ensures Has(Moved(p), 1) <==> Has(p.allow.setting.condition, 1) && p.controls.notFound == Approval
  {
  }

  /** Without inspection all three conditions go over together, iff approval was asked and the allow log has any. */
  lemma AllConditionsFollow(p: Plain)
    requires p.controls.option.NoInspect?
    ensures var q := RewrittenPlain(p);
            var a, f, b := p.allow.setting.condition, p.allow.fileCopy.condition, p.block.setting.condition;
            var a', f', b' := q.allow.setting.condition, q.allow.fileCopy.condition, q.block.setting.condition;
            if p.controls.noInspect == Approval && Has(a, 7) then a' == a & 248 && f' == f & 248 && b' == b | 7
            else q.allow == p.allow && q.block == p.block
  {
    NothingMoves(p.block.setting);
    NothingMoves(p.allow.setting);
    NothingMoves(p.allow.fileCopy);
    assert Moved(p) == if p.controls.noInspect == Approval && Has(p.allow.setting.condition, 7) then 7 else 0;
    AllBut(p.allow.setting.condition);
    AllBut(p.allow.fileCopy.condition);
    hide Moved, BlockedControls;
  }

  lemma AllBut(c: bv8)
    ensures c & !(7 as bv8) == c & 248
  {
  }

  /** A second rewrite changes nothing. */
  lemma PlainIdempotent(p: Plain)
    ensures RewrittenPlain(RewrittenPlain(p)) == RewrittenPlain(p)
  {
    var q := RewrittenPlain(p);
    PlainRewriteExact(p);
    NoMoveWithoutApproval(q);
    NothingMoves(q.block.setting);
    NothingMoves(q.allow.setting);
    NothingMoves(q.allow.fileCopy);
    hide Moved, BlockedControls, WithCondition, WithoutCondition;
  }

  lemma NoMoveWithoutApproval(p: Plain)
    requires !AsksApproval(p.controls)
    ensures Moved(p) == 0 && BlockedControls(p.controls) == p.controls
  {
    assert forall s :: Active(p.controls, s) ==> VerdictAt(p.controls, s) != Approval;
  }

  lemma NothingMoves(l: LogSetting)
    ensures WithCondition(l, 0) == l && WithoutCondition(l, 0) == l
  {
  }

  lemma ConditionsKept(allow: bv8, block: bv8, m: bv8)
    ensures (allow | block) & !((allow & !m) | (block | m)) == 0
    ensures m & allow == m ==> (allow & !m) | (block | m) == allow | block
  {
  }

  lemma MovedWereAllowed(p: Plain)
    requires p.controls.option.RunInspect?
    ensures Moved(p) & p.allow.setting.condition == Moved(p)
  {
  }

  /** The device rule of a copy policy does not change. */
  lemma CopyRuleKept(p: Plain, blockWriteAll: bool)
    ensures CopyRule(RewrittenPlain(p).controls, RewrittenPlain(p).block.setting.use, blockWriteAll)
         == CopyRule(p.controls, p.block.setting.use, blockWriteAll)
  {
  }

  // ---- CopyEx controls ----

  /** The last child with the key says "block" or "approval". */
  ghost predicate LastBlocks(children: seq<(string, string)>, key: string) {
    exists i :: 0 <= i < |children| && BlocksAt(children, key, i)
  }

  predicate BlocksAt(children: seq<(string, string)>, key: string, i: nat)
    requires i < |children|
  {
    && children[i].0 == key && (children[i].1 == "block" || children[i].1 == "approval")
    && forall j | i < j < |children| :: children[j].0 != key
  }

  lemma LastBlocksStep(children: seq<(string, string)>, key: string)
    requires children != []
    ensures var n := |children| - 1;
            LastBlocks(children, key) <==>
            if children[n].0 == key then children[n].1 == "block" || children[n].1 == "approval"
            else LastBlocks(children[..n], key)
  {
    var n := |children| - 1;
    var earlier := children[..n];
    assert forall j | 0 <= j < n :: earlier[j] == children[j];
    if children[n].0 == key {
      if i :| 0 <= i < |children| && BlocksAt(children, key, i) {
        assert i == n;
      }
      assert children[n].1 == "block" || children[n].1 == "approval" ==> BlocksAt(children, key, n);
    } else {
      if i :| 0 <= i < n && BlocksAt(earlier, key, i) {
        assert BlocksAt(children, key, i);
      }
      if i :| 0 <= i < |children| && BlocksAt(children, key, i) {
        assert BlocksAt(earlier, key, i);
      }
    }
  }

  /** What a child does to one verdict. */
  function Said(v: Verdict, child: (string, string), key: string): Verdict {
    if child.0 != key then v else if child.1 == "block" || child.1 == "approval" then Block else Allow
  }

  ghost function VerdictSaid(children: seq<(string, string)>, key: string): Verdict {
    if LastBlocks(children, key) then Block else Allow
  }

  lemma SaidNext(children: seq<(string, string)>, i: nat, key: string)
    requires i < |children|
    ensures VerdictSaid(children[..i + 1], key) == Said(VerdictSaid(children[..i], key), children[i], key)
  {
    assert children[..i + 1][..i] == children[..i];
    LastBlocksStep(children[..i + 1], key);
    hide LastBlocks;
  }

  /** `CDLPControl::setXml` on the `control` children, each an (inspect, type) pair: a verdict is Block iff the last
      child with its key says "block" or "approval". */
  method ParseControl(optionText: string, children: seq<(string, string)>) returns (c: Controls)
    ensures !AsksApproval(c)
    ensures c.option == if optionText == "inspect" then RunInspect else NoInspect
    ensures c.noInspect == if LastBlocks(children, "allow") then Block else Allow
    ensures c.found == if LastBlocks(children, "block") then Block else Allow
    ensures c.notFound == if LastBlocks(children, "approval") then Block else Allow
  {
    c := Controls(if optionText == "inspect" then RunInspect else NoInspect, Allow, Allow, Allow);
    var i := 0;
    while i < |children|
      invariant 0 <= i <= |children|
      invariant c.option == if optionText == "inspect" then RunInspect else NoInspect
      invariant c.noInspect == VerdictSaid(children[..i], "allow") && c.found == VerdictSaid(children[..i], "block")
      invariant c.notFound == VerdictSaid(children[..i], "approval")
    {
      SaidNext(children, i, "allow");
      SaidNext(children, i, "block");
      SaidNext(children, i, "approval");
      var verdict := ControlType(children[i].1);
      if children[i].0 == "allow" {
        c := c.(noInspect := verdict);
      } else if children[i].0 == "block" {
        c := c.(found := verdict);
      } else if children[i].0 == "approval" {
        c := c.(notFound := verdict);
      }
      i := i + 1;
    }
    assert children[..i] == children;
    hide LastBlocks;
  }

  /** The texts of `setControlType`; an approval is read as a block. */
  method ControlType(text: string) returns (v: Verdict)
    ensures v == if text == "block" || text == "approval" then Block else Allow
  {
    v := Allow;
    if text == "allow" {
      v := Allow;
    } else if text == "block" {
      v := Block;
    } else if text == "approval" {
      v := Block;
    }
  }

  /** `CDLPControl::changeControlApprovalToBlock`: its second test repeats the first, so the not-found verdict is
      never rewritten. */
  function BlockedControl(c: Controls): Controls {
    match c.option
    case NoInspect => c.(noInspect := Blocked(c.noInspect))
    case RunInspect => c.(found := Blocked(c.found))
  }

  method ChangeControl(c: Controls) returns (r: Controls)
    ensures r == BlockedControl(c)
  {
    r := c;
    match r.option {
      case NoInspect =>
        if r.noInspect == Approval {
          r := r.(noInspect := Block);
        }
      case RunInspect =>
        if r.found == Approval {
          r := r.(found := Block);
        }
        if r.found == Approval {
          r := r.(found := Block);
        }
    }
  }

  /** The rewrite of one control removes its approvals iff an inspecting control does not ask approval for what was
      not found. */
  lemma ControlRewriteExact(c: Controls)
    ensures !AsksApproval(BlockedControl(c)) <==> !(c.option.RunInspect? && c.notFound == Approval)
  {
    if c.option.RunInspect? && c.notFound == Approval {
      assert Active(BlockedControl(c), NotFound);
    }
  }

  lemma ApprovalSurvives()
    ensures var c := Controls(RunInspect, Allow, Allow, Approval);
            BlockedControl(c) == c && AsksApproval(c)
  {
    assert Active(Controls(RunInspect, Allow, Allow, Approval), NotFound);
  }

  // ---- Tallies ----

  /** How many of the controls give verdict `v` in an active slot `s`. */
  function Count(cs: seq<Controls>, s: Slot, v: Verdict): nat {
    if cs == [] then 0
    else
      var last := cs[|cs| - 1];
      Count(cs[..|cs| - 1], s, v) + if Active(last, s) && VerdictAt(last, s) == v then 1 else 0
  }

  datatype Tally = Tally(block: nat, allow: nat, approval: nat)

  function TallyOf(cs: seq<Controls>, s: Slot): Tally {
    Tally(Count(cs, s, Block), Count(cs, s, Allow), Count(cs, s, Approval))
  }

  function Bump(t: Tally, v: Verdict): Tally {
    match v
    case Block => t.(block := t.block + 1)
    case Allow => t.(allow := t.allow + 1)
    case Approval => t.(approval := t.approval + 1)
  }

  /** `getDLPControlCount` */
  method GetControlCount(cs: seq<Controls>) returns (found: Tally, notFound: Tally, uninspected: Tally)
    ensures found == TallyOf(cs, Found) && notFound == TallyOf(cs, NotFound) && uninspected == TallyOf(cs, Uninspected)
  {
    found, notFound, uninspected := Tally(0, 0, 0), Tally(0, 0, 0), Tally(0, 0, 0);
    var i := 0;
    while i < |cs|
      invariant 0 <= i <= |cs|
      invariant found == TallyOf(cs[..i], Found) && notFound == TallyOf(cs[..i], NotFound)
      invariant uninspected == TallyOf(cs[..i], Uninspected)
    {
      assert cs[..i + 1][..i] == cs[..i];
      match cs[i].option {
        case NoInspect =>
          uninspected := Bump(uninspected, cs[i].noInspect);
        case RunInspect =>
          found := Bump(found, cs[i].found);
          notFound := Bump(notFound, cs[i].notFound);
      }
      i := i + 1;
    }
    assert cs[..i] == cs;
  }

  function BlockedAll(cs: seq<Controls>): (r: seq<Controls>)
    ensures |r| == |cs| && forall i | 0 <= i < |cs| :: r[i] == BlockedControl(cs[i])
  {
    seq(|cs|, i requires 0 <= i < |cs| => BlockedControl(cs[i]))
  }

  /** Approvals are recounted as blocks, except those for what was not found; nothing else moves, so the sum over
      each category is kept. */
  lemma {:induction false} TalliesConserved(cs: seq<Controls>, s: Slot)
    ensures var before, after := TallyOf(cs, s), TallyOf(BlockedAll(cs), s);
            && after == (if s.NotFound? then before else Tally(before.block + before.approval, before.allow, 0))
            && after.block + after.allow + after.approval == before.block + before.allow + before.approval
  {
    if cs != [] {
      TalliesConserved(cs[..|cs| - 1], s);
      assert BlockedAll(cs)[..|cs| - 1] == BlockedAll(cs[..|cs| - 1]);
    }
  }

  lemma {:induction false} NoneToCount(cs: seq<Controls>, s: Slot)
    requires forall i | 0 <= i < |cs| :: !AsksApproval(cs[i])
    ensures TallyOf(cs, s).approval == 0
  {
    if cs != [] {
      NoneToCount(cs[..|cs| - 1], s);
    }
  }

  // ---- The logs of a CopyEx section ----

  datatype Logs = Logs(block: Log, allow: Log)

  function SwitchedOff(l: Log): Log {
    Log(l.setting.(logType := LogNone, use := false), l.fileCopy.(logType := LogNone, use := false))
  }

  function ValidatedUninspected(l: Logs, before: Tally, after: Tally): Logs {
    if l.allow.setting.logType == LogNone || before.approval == 0 || after.approval != 0 then l
    else
      Logs(if l.block.setting.logType == LogNone then l.block.(setting := l.block.setting.(logType := LogAll, use := true))
           else l.block,
           if after.allow == 0 then SwitchedOff(l.allow) else l.allow)
  }

  function NowLogging(block: Log, c: bv8): Log {
    match block.setting.logType
    case LogAll => block
    case LogConditional => block.(setting := WithCondition(block.setting, c))
    case LogNone => block.(setting := WithCondition(block.setting, c).(logType := LogConditional, use := true))
  }

  function NoLongerLogging(allow: Log, c: bv8): Log {
    var rest := Log(WithoutCondition(allow.setting, c), WithoutCondition(allow.fileCopy, c));
    if rest.setting.condition == 0 then SwitchedOff(rest) else rest
  }

  /** `validateWithFound` and `validateWithNotFound`, which differ in the condition only. */
  function ValidatedAt(l: Logs, c: bv8, before: Tally, after: Tally): Logs {
    if l.allow.setting.logType != LogConditional || before.approval == 0 || after.approval != 0
       || c & l.allow.setting.condition == 0 then l
    else Logs(NowLogging(l.block, c), if after.allow == 0 then NoLongerLogging(l.allow, c) else l.allow)
  }

  /** `CDLPLogs::validate`; `option` is the inspection option of the last control only. */
  function Validated(l: Logs, option: InspectOption, before: seq<Controls>, after: seq<Controls>): Logs {
    match option
    case NoInspect => ValidatedUninspected(l, TallyOf(before, Uninspected), TallyOf(after, Uninspected))
    case RunInspect =>
      ValidatedAt(ValidatedAt(l, ON_FOUND, TallyOf(before, Found), TallyOf(after, Found)),
                  ON_NOT_FOUND, TallyOf(before, NotFound), TallyOf(after, NotFound))
  }

  method ValidateWithUninspected(l: Logs, before: Tally, after: Tally) returns (r: Logs)
    ensures r == ValidatedUninspected(l, before, after)
  {
    r := l;
    if r.allow.setting.logType == LogNone {
      return;
    }
    if 0 < before.approval && 0 == after.approval {
      if r.block.setting.logType == LogNone {
        r := r.(block := r.block.(setting := r.block.setting.(logType := LogAll, use := true)));
      }
      if 0 == after.allow {
        r := r.(allow := SwitchedOff(r.allow));
      }
    }
  }

  lemma ConditionThere(l: LogSetting, c: bv8)
    requires (c == ON_FOUND || c == ON_NOT_FOUND) && c & l.condition != 0
    ensures WithCondition(l, c) == l
  {
  }

  method ValidateAt(l: Logs, c: bv8, before: Tally, after: Tally) returns (r: Logs)
    requires c == ON_FOUND || c == ON_NOT_FOUND
    ensures r == ValidatedAt(l, c, before, after)
  {
    hide WithCondition, WithoutCondition;
    r := l;
    if r.allow.setting.logType != LogConditional || 0 >= before.approval || 0 != after.approval
       || c & r.allow.setting.condition == 0 {
      return;
    }
    match r.block.setting.logType {
      case LogConditional =>
        if c & r.block.setting.condition == 0 {
          r := r.(block := r.block.(setting := WithCondition(r.block.setting, c)));
        } else {
          ConditionThere(r.block.setting, c);
        }
      case LogNone =>
        r := r.(block := r.block.(setting := WithCondition(r.block.setting, c).(logType := LogConditional, use := true)));
      case LogAll =>
    }
    if 0 != after.allow {
      return;
    }
    r := r.(allow := Log(WithoutCondition(r.allow.setting, c), WithoutCondition(r.allow.fileCopy, c)));
    if 0 == r.allow.setting.condition {
      r := r.(allow := SwitchedOff(r.allow));
    }
  }

  /** The log records what has the given condition. */
  predicate Records(l: Log, c: bv8) {
    l.setting.logType == LogAll || (l.setting.logType == LogConditional && Has(l.setting.condition, c))
  }

  /** Where approvals of one kind have become blocks, and the allow log recorded them by their condition, the block log
      records them now; the allow log goes on recording that condition iff allowances of the kind are left. In all
      other cases the logs stay as they are. */
  lemma RecordsFollow(l: Logs, c: bv8, before: Tally, after: Tally)
    requires c == 1 || c == 2
    ensures var l' := ValidatedAt(l, c, before, after);
            if l.allow.setting.logType == LogConditional && Has(l.allow.setting.condition, c)
               && before.approval > 0 && after.approval == 0 then
              && Records(l'.block, c) && (l'.block.setting.use <==> l.block.setting.use || l.block.setting.logType == LogNone)
              && (Records(l'.allow, c) <==> after.allow > 0)
              && (after.allow > 0 ==> l'.allow == l.allow)
              && (after.allow == 0 ==>
                    && !Has(l'.allow.fileCopy.condition, c)
                    && (l'.allow.setting.logType == LogNone <==> l.allow.setting.condition == c)
                    && (l'.allow.setting.use <==> l.allow.setting.use && l.allow.setting.condition != c))
            else l' == l
  {
    hide Has, WithCondition, WithoutCondition;
    ClearedBit(l.allow.setting, c);
    ClearedBit(l.allow.fileCopy, c);
    SetBit(l.block.setting, c);
    HasIt(l.allow.setting.condition, c);
  }

  lemma HasIt(x: bv8, c: bv8)
    ensures Has(x, c) <==> c & x != 0
  {
  }

  lemma ClearedBit(l: LogSetting, c: bv8)
    requires c == 1 || c == 2
    ensures !Has(WithoutCondition(l, c).condition, c)
    ensures Has(l.condition, c) ==> (WithoutCondition(l, c).condition == 0 <==> l.condition == c)
  {
  }

  lemma SetBit(l: LogSetting, c: bv8)
    requires c == 1 || c == 2
    ensures Has(WithCondition(l, c).condition, c)
  {
  }

  /** The same without inspection, where the logs have a type or none. */
  lemma RecordsFollowUninspected(l: Logs, before: Tally, after: Tally)
    ensures var l' := ValidatedUninspected(l, before, after);
            if l.allow.setting.logType != LogNone && before.approval > 0 && after.approval == 0 then
              && (if l.block.setting.logType == LogNone then l'.block.setting.logType == LogAll && l'.block.setting.use
                  else l'.block == l.block)
              && (if after.allow > 0 then l'.allow == l.allow
                  else l'.allow.setting.logType == LogNone && !l'.allow.setting.use
                       && l'.allow.fileCopy.logType == LogNone && !l'.allow.fileCopy.use)
            else l' == l
  {
  }

  // ---- CopyEx sections ----

  function RewrittenSection(section: CopyControl): CopyControl {
    if section.controls == [] then section
    else
      var after := BlockedAll(section.controls);
      var l := if section.allow.setting.use || section.block.setting.use
               then Validated(Logs(section.block, section.allow), after[|after| - 1].option, section.controls, after)
               else Logs(section.block, section.allow);
      section.(controls := after, block := l.block, allow := l.allow)
  }

  /** `CDLPCopyControl::changeControlApprovalToBlock` */
  method ChangeSection(section: CopyControl) returns (r: CopyControl)
    ensures r == RewrittenSection(section)
  {
    r := section;
    if |r.controls| == 0 {
      return;
    }
    var hasLog := r.allow.setting.use || r.block.setting.use;
    var foundBefore, notFoundBefore, uninspectedBefore := GetControlCount(r.controls);
    var option := NoInspect;
    var i := 0;
    while i < |r.controls|
      invariant 0 <= i <= |section.controls| && r == section.(controls := r.controls) && |r.controls| == |section.controls|
      invariant forall k | 0 <= k < |section.controls| ::
                  r.controls[k] == if k < i then BlockedControl(section.controls[k]) else section.controls[k]
      invariant i > 0 ==> option == r.controls[i - 1].option
    {
      var changed := ChangeControl(r.controls[i]);
      r := r.(controls := r.controls[i := changed]);
      option := r.controls[i].option;
      i := i + 1;
    }
    assert r.controls == BlockedAll(section.controls);
    if hasLog {
      var foundAfter, notFoundAfter, uninspectedAfter := GetControlCount(r.controls);
      var l := Logs(r.block, r.allow);
      match option {
        case NoInspect =>
          l := ValidateWithUninspected(l, uninspectedBefore, uninspectedAfter);
        case RunInspect =>
          l := ValidateAt(l, ON_FOUND, foundBefore, foundAfter);
          l := ValidateAt(l, ON_NOT_FOUND, notFoundBefore, notFoundAfter);
      }
      r := r.(block := l.block, allow := l.allow);
    }
  }

  function RewrittenSections(sections: seq<CopyControl>): (r: seq<CopyControl>)
    ensures |r| == |sections| && forall i | 0 <= i < |sections| :: r[i] == RewrittenSection(sections[i])
  {
    seq(|sections|, i requires 0 <= i < |sections| => RewrittenSection(sections[i]))
  }

  /** A section as parsing leaves it. */
  ghost predicate NoApprovals(section: CopyControl) {
    forall i | 0 <= i < |section.controls| :: !AsksApproval(section.controls[i])
  }

  lemma NoApprovalNoChange(c: Controls)
    requires !AsksApproval(c)
    ensures BlockedControl(c) == c
  {
    if c.option.NoInspect? {
      assert Active(c, Uninspected) && VerdictAt(c, Uninspected) != Approval;
    } else {
      assert Active(c, Found) && VerdictAt(c, Found) != Approval;
    }
  }

  /** A parsed section is left exactly as it is, its logs included. */
  lemma ParsedSectionKept(section: CopyControl)
    requires NoApprovals(section)
    ensures RewrittenSection(section) == section
  {
    forall i | 0 <= i < |section.controls|
      ensures BlockedControl(section.controls[i]) == section.controls[i]
    {
      NoApprovalNoChange(section.controls[i]);
    }
    assert BlockedAll(section.controls) == section.controls;
    NoneToCount(section.controls, Uninspected);
    NoneToCount(section.controls, Found);
    NoneToCount(section.controls, NotFound);
  }

  lemma SecondTally(cs: seq<Controls>, s: Slot)
    ensures var t := TallyOf(BlockedAll(cs), s);
            s.NotFound? || t.approval == 0
  {
    TalliesConserved(cs, s);
  }

  /** A second rewrite of any section changes nothing. */
  lemma SectionIdempotent(section: CopyControl)
    ensures RewrittenSection(RewrittenSection(section)) == RewrittenSection(section)
  {
    var after := BlockedAll(section.controls);
    assert BlockedAll(after) == after;
    SecondTally(section.controls, Uninspected);
    SecondTally(section.controls, Found);
    SecondTally(section.controls, NotFound);
    hide TallyOf, WithCondition, WithoutCondition;
  }

  /** Rewriting never changes whether a section blocks or asks. */
  lemma SectionBlocksAlike(section: CopyControl)
    ensures RewrittenSection(section).selectType == section.selectType
    ensures RewrittenSection(section).readPermit == section.readPermit
    ensures |RewrittenSection(section).controls| == |section.controls|
    ensures forall j | 0 <= j < |section.controls| ::
              HasBlockOrApproval(RewrittenSection(section).controls[j]) == HasBlockOrApproval(section.controls[j])
  {
    hide Validated;
  }

  predicate AnyLog(l: Logs) {
    l.block.setting.use || l.allow.setting.use
  }

  predicate SavesLog(section: CopyControl) {
    AnyLog(Logs(section.block, section.allow))
  }

  /** The rewrite switches the allow log off, and the block log, which has a type but is not in use, stays out of use:
      approvals there are, allowances there are none, and what the allow log was kept for goes away with them. */
  predicate LosesLogs(l: Logs, option: InspectOption, cs: seq<Controls>) {
    && !l.block.setting.use && l.block.setting.logType != LogNone
    && match option
       case NoInspect =>
         l.allow.setting.logType != LogNone && Count(cs, Uninspected, Approval) > 0 && Count(cs, Uninspected, Allow) == 0
       case RunInspect =>
         && l.allow.setting.logType == LogConditional && l.allow.setting.condition == ON_FOUND
         && Count(cs, Found, Approval) > 0 && Count(cs, Found, Allow) == 0
  }

  predicate LosesLog(section: CopyControl) {
    section.controls != []
    && LosesLogs(Logs(section.block, section.allow), section.controls[|section.controls| - 1].option, section.controls)
  }

  /** The inspecting case: the not-found approvals are never rewritten, so only the found ones count. */
  lemma InspectedLogs(l: Logs, cs: seq<Controls>)
    requires AnyLog(l)
    ensures AnyLog(Validated(l, RunInspect, cs, BlockedAll(cs))) <==> !LosesLogs(l, RunInspect, cs)
  {
    TalliesConserved(cs, Found);
    TalliesConserved(cs, NotFound);
    var after := BlockedAll(cs);
    OnlyFoundLeft(l.allow.setting);
    assert ValidatedAt(l, ON_FOUND, TallyOf(cs, Found), TallyOf(after, Found))
        == Validated(l, RunInspect, cs, after);
    hide Count, BlockedAll, WithCondition, WithoutCondition;
  }

  lemma OnlyFoundLeft(l: LogSetting)
    ensures ON_FOUND & l.condition != 0 && WithoutCondition(l, ON_FOUND).condition == 0 <==> l.condition == ON_FOUND
  {
  }

  lemma UninspectedLogs(l: Logs, cs: seq<Controls>)
    requires AnyLog(l)
    ensures AnyLog(Validated(l, NoInspect, cs, BlockedAll(cs))) <==> !LosesLogs(l, NoInspect, cs)
  {
    TalliesConserved(cs, Uninspected);
    hide Count, BlockedAll;
  }

  /** A section saves logs after the rewrite iff it did before and does not lose them. */
  lemma LogLostExactly(section: CopyControl)
    ensures SavesLog(RewrittenSection(section)) <==> SavesLog(section) && !LosesLog(section)
  {
    if section.controls != [] && SavesLog(section) {
      InspectedLogs(Logs(section.block, section.allow), section.controls);
      UninspectedLogs(Logs(section.block, section.allow), section.controls);
    }
    hide Validated, LosesLogs;
  }

  /** The device rule of a CopyEx policy is the same before and after the rewrite, unless sections save logs and all
      that do lose them. */
  lemma CopyExRuleKept(sections: seq<CopyControl>, blockWriteAll: bool)
    ensures CopyExRule(RewrittenSections(sections), blockWriteAll) == CopyExRule(sections, blockWriteAll)
       <==> ((exists i :: 0 <= i < |sections| && SavesLog(sections[i])) ==>
             exists i :: 0 <= i < |sections| && SavesLog(sections[i]) && !LosesLog(sections[i]))
  {
    var after := RewrittenSections(sections);
    forall i | 0 <= i < |sections|
      ensures after[i].selectType == sections[i].selectType && after[i].readPermit == sections[i].readPermit
      ensures |after[i].controls| == |sections[i].controls|
      ensures forall j | 0 <= j < |sections[i].controls| ::
                HasBlockOrApproval(after[i].controls[j]) == HasBlockOrApproval(sections[i].controls[j])
      ensures SavesLog(after[i]) <==> SavesLog(sections[i]) && !LosesLog(sections[i])
    {
      SectionBlocksAlike(sections[i]);
      LogLostExactly(sections[i]);
    }
    hide RewrittenSection, HasBlockOrApproval, LosesLog, SavesLog;
    SavedAny(sections);
    SavedAny(after);
    SameFlags(sections, after);
    hide SaveLogAny, AnyBlockOrApproval, BlockReadAll;
  }

  lemma SavedAny(sections: seq<CopyControl>)
    ensures SaveLogAny(sections) <==> exists i :: 0 <= i < |sections| && SavesLog(sections[i])
  {
    if SaveLogAny(sections) {
      var i :| 0 <= i < |sections| && (sections[i].block.setting.use || sections[i].allow.setting.use);
      assert SavesLog(sections[i]);
    }
  }

  lemma SameFlags(a: seq<CopyControl>, b: seq<CopyControl>)
    requires |a| == |b| && forall i | 0 <= i < |a| ::
               && b[i].selectType == a[i].selectType && b[i].readPermit == a[i].readPermit
               && |b[i].controls| == |a[i].controls|
               && forall j | 0 <= j < |a[i].controls| :: HasBlockOrApproval(b[i].controls[j]) == HasBlockOrApproval(a[i].controls[j])
    ensures BlockReadAll(a) == BlockReadAll(b) && AnyBlockOrApproval(a) == AnyBlockOrApproval(b)
  {
    hide HasBlockOrApproval;
    if AnyBlockOrApproval(a) {
      var i, j :| 0 <= i < |a| && 0 <= j < |a[i].controls| && HasBlockOrApproval(a[i].controls[j]);
      assert HasBlockOrApproval(b[i].controls[j]);
    }
    if AnyBlockOrApproval(b) {
      var i, j :| 0 <= i < |b| && 0 <= j < |b[i].controls| && HasBlockOrApproval(b[i].controls[j]);
      assert HasBlockOrApproval(a[i].controls[j]);
    }
  }

  /** Parsed sections are left as they are, and their rule with them. */
  lemma ParsedRuleKept(sections: seq<CopyControl>)
    requires forall i | 0 <= i < |sections| :: NoApprovals(sections[i])
    ensures RewrittenSections(sections) == sections
  {
    forall i | 0 <= i < |sections|
      ensures RewrittenSection(sections[i]) == sections[i]
    {
      ParsedSectionKept(sections[i]);
    }
    hide RewrittenSection;
  }

  // ---- The offline policy list ----

  /** Which verdicts a policy can ask for: plain policies through their controls, CopyEx through its sections. */
  datatype Entry = Entry(policy: Policy, plain: Plain)

  predicate IsPreventPlus(p: Policy) {
    Sub(p) != Media && Sub(p) != PCSecurity
  }

  /** The policy as rule building sees it. */
  function View(e: Entry): Policy {
    var log := e.plain.block.setting.use;
    match e.policy.kind
    case CopyKind(_, _) => e.policy.(kind := CopyKind(e.plain.controls, log))
    case SharedFolderKind(_) => e.policy.(kind := SharedFolderKind(log))
    case UploadKind(_) => e.policy.(kind := UploadKind(log))
    case PrintKind(_) => e.policy.(kind := PrintKind(log))
    case ClipboardKind(_) => e.policy.(kind := ClipboardKind(log))
    case CopyExKind(_) => e.policy
    case ApplicationKind(_) => e.policy
    case MediaKind(_, _, _, _) => e.policy
    case PCSecurityKind => e.policy
  }

  function RewrittenEntry(e: Entry): Entry {
    if !IsPreventPlus(e.policy) then e
    else if e.policy.kind.CopyExKind? then
      e.(policy := e.policy.(kind := CopyExKind(RewrittenSections(e.policy.kind.copyControls))))
    else e.(plain := RewrittenPlain(e.plain))
  }

  /** What parsing guarantees: a CopyEx section holds no approval. A plain policy may hold any. */
  ghost predicate Parsed(e: Entry) {
    e.policy.kind.CopyExKind? ==>
      forall i | 0 <= i < |e.policy.kind.copyControls| :: NoApprovals(e.policy.kind.copyControls[i])
  }

  /** Some verdict that is in use asks for approval. */
  ghost predicate MayAsk(e: Entry) {
    if e.policy.kind.CopyExKind? then
      exists i :: 0 <= i < |e.policy.kind.copyControls| && !NoApprovals(e.policy.kind.copyControls[i])
    else AsksApproval(e.plain.controls)
  }

  class PreventPlusPolicy {
    var policy: Policy
    var controls: Controls
    var blockLog: Log
    var allowLog: Log

    function Value(): Entry
      reads this
    {
      Entry(policy, Plain(controls, blockLog, allowLog))
    }

    /** `CDLPPolicyPreventPlus::changeControlApprovalToBlock` */
    method ChangePlain()
      modifies this
      ensures Value() == old(Value()).(plain := RewrittenPlain(old(Value()).plain))
    {
      match controls.option {
        case NoInspect =>
          if controls.noInspect == Approval {
            controls := controls.(noInspect := Block);
            MoveConditions(ON_ALL);
          }
        case RunInspect =>
          if controls.found == Approval {
            controls := controls.(found := Block);
            MoveConditions(ON_FOUND);
          }
          if controls.notFound == Approval {
            controls := controls.(notFound := Block);
            MoveConditions(ON_NOT_FOUND);
          }
      }
      SequentialMoves(old(Value()).plain);
      NothingMoves(old(blockLog).setting);
      NothingMoves(old(allowLog).setting);
      NothingMoves(old(allowLog).fileCopy);
      hide WithCondition, WithoutCondition;
    }

    /** The body of each branch: the conditions move when the allow log holds one of them. */
    method MoveConditions(c: bv8)
      modifies this`blockLog, this`allowLog
      ensures Plain(controls, blockLog, allowLog) == MovePlain(Plain(controls, old(blockLog), old(allowLog)), c)
    {
      if c & allowLog.setting.condition != 0 {
        allowLog := allowLog.(setting := WithoutCondition(allowLog.setting, c));
        blockLog := blockLog.(setting := WithCondition(blockLog.setting, c));
        allowLog := allowLog.(fileCopy := WithoutCondition(allowLog.fileCopy, c));
      }
    }

    /** The rewrite a policy object answers to: CopyEx overrides the plain one. */
    method ChangeControlApprovalToBlock()
      requires IsPreventPlus(policy)
      modifies this
      ensures Value() == RewrittenEntry(old(Value()))
    {
      if policy.kind.CopyExKind? {
        var sections := policy.kind.copyControls;
        var i := 0;
        while i < |sections|
          invariant 0 <= i <= |sections| == |old(policy).kind.copyControls|
          invariant forall k | 0 <= k < |sections| ::
                      var was := old(policy).kind.copyControls[k];
                      sections[k] == if k < i then RewrittenSection(was) else was
          invariant Value() == old(Value())
        {
          var section := ChangeSection(sections[i]);
          sections := sections[i := section];
          i := i + 1;
        }
        assert sections == RewrittenSections(old(policy).kind.copyControls);
        policy := policy.(kind := CopyExKind(sections));
      } else {
        ChangePlain();
      }
    }
  }

  function MovePlain(p: Plain, c: bv8): Plain {
    if c & p.allow.setting.condition == 0 then p else MoveMask(p, c)
  }

  /** One branch of the switch, for the logs only. */
  function MoveAt(p: Plain, s: Slot): Plain {
    if VerdictAt(p.controls, s) == Approval then MovePlain(p, Conditions(s)) else p
  }

  lemma CombineConditions(l: LogSetting, a: bv8, b: bv8)
    ensures WithCondition(WithCondition(l, a), b) == WithCondition(l, a | b)
    ensures WithoutCondition(WithoutCondition(l, a), b) == WithoutCondition(l, a | b)
  {
    Associates(l.condition, a, b);
  }

  lemma Associates(c: bv8, a: bv8, b: bv8)
    ensures (c | a) | b == c | (a | b)
    ensures (c & !a) & !b == c & !(a | b)
  {
  }

  lemma CombineMasks(p: Plain, a: bv8, b: bv8)
    ensures MoveMask(MoveMask(p, a), b) == MoveMask(p, a | b)
  {
    CombineConditions(p.block.setting, a, b);
    CombineConditions(p.allow.setting, a, b);
    CombineConditions(p.allow.fileCopy, a, b);
    hide WithCondition, WithoutCondition;
  }

  lemma MoveIsMask(p: Plain, s: Slot)
    ensures MoveAt(p, s) == MoveMask(p, MovedAt(p, s))
  {
    NothingMoves(p.block.setting);
    NothingMoves(p.allow.setting);
    NothingMoves(p.allow.fileCopy);
    hide WithCondition, WithoutCondition;
  }

  lemma OtherConditionStays(p: Plain)
    ensures MovedAt(MoveAt(p, Found), NotFound) == MovedAt(p, NotFound)
  {
    assert ON_NOT_FOUND & (p.allow.setting.condition & !ON_FOUND) == ON_NOT_FOUND & p.allow.setting.condition;
    hide WithCondition;
  }

  /** The branches one after the other move exactly the conditions of `Moved`. */
  lemma SequentialMoves(p: Plain)
    ensures (if p.controls.option.NoInspect? then MoveAt(p, Uninspected) else MoveAt(MoveAt(p, Found), NotFound))
         == RewrittenPlain(p).(controls := p.controls)
  {
    MoveIsMask(p, Uninspected);
    MoveIsMask(p, Found);
    MoveIsMask(MoveAt(p, Found), NotFound);
    OtherConditionStays(p);
    CombineMasks(p, MovedAt(p, Found), MovedAt(p, NotFound));
    hide WithCondition, WithoutCondition, MoveAt, MovedAt, BlockedControls;
  }

  /** `validateDLPPolicyXml`: the policies of the offline list, each object once. */
  method ValidateDLPPolicyXml(list: seq<PreventPlusPolicy>)
    requires forall i, j | 0 <= i < j < |list| :: list[i] != list[j]
    modifies set p | p in list
    ensures forall i | 0 <= i < |list| :: list[i].Value() == RewrittenEntry(old(list[i].Value()))
  {
    var index := 0;
    while index < |list|
      invariant 0 <= index <= |list|
      invariant forall i | 0 <= i < |list| ::
                  list[i].Value() == if i < index then RewrittenEntry(old(list[i].Value())) else old(list[i].Value())
    {
      if IsPreventPlus(list[index].policy) {
        list[index].ChangeControlApprovalToBlock();
      }
      index := index + 1;
    }
  }

  /** After loading, no offline policy can ask for approval. */
  lemma OfflineNeverAsks(e: Entry)
    requires IsPreventPlus(e.policy) && Parsed(e)
    ensures !MayAsk(RewrittenEntry(e))
  {
    if e.policy.kind.CopyExKind? {
      forall i | 0 <= i < |e.policy.kind.copyControls|
        ensures NoApprovals(RewrittenSections(e.policy.kind.copyControls)[i])
      {
        ParsedSectionKept(e.policy.kind.copyControls[i]);
      }
    } else {
      PlainRewriteExact(e.plain);
    }
  }

  lemma EntryIdempotent(e: Entry)
    ensures RewrittenEntry(RewrittenEntry(e)) == RewrittenEntry(e)
  {
    if e.policy.kind.CopyExKind? {
      var sections := e.policy.kind.copyControls;
      forall i | 0 <= i < |sections|
        ensures RewrittenSection(RewrittenSection(sections[i])) == RewrittenSection(sections[i])
      {
        SectionIdempotent(sections[i]);
      }
      assert RewrittenSections(RewrittenSections(sections)) == RewrittenSections(sections);
    } else {
      PlainIdempotent(e.plain);
    }
  }

  // ---- The rules of the offline mode ----

  /** The policies differ at most in what they would ask of a user: every device rule is built alike. */
  predicate Alike(p: Policy, q: Policy) {
    && q == p.(kind := q.kind) && Sub(q) == Sub(p) && (Sub(p) == Media ==> q.kind == p.kind)
    && WithRule(q, true).(kind := p.kind) == WithRule(p, true)
    && WithRule(q, false).(kind := p.kind) == WithRule(p, false)
  }

  lemma RewrittenAlike(e: Entry)
    requires Parsed(e)
    ensures Alike(View(e), View(RewrittenEntry(e)))
  {
    hide Alike, Parsed;
    var kind := e.policy.kind;
    if kind.CopyExKind? {
      CopyExAlike(e.policy, kind.copyControls, e);
    } else if kind.CopyKind? {
      CopyKindAlike(e.policy, e.plain);
    } else {
      hide RewrittenPlain;
      BlockUseKept(e.plain);
      AlikeItself(View(e));
    }
  }

  lemma BlockUseKept(p: Plain)
    ensures RewrittenPlain(p).block.setting.use == p.block.setting.use
  {
    hide Moved, BlockedControls;
  }

  lemma AlikeItself(p: Policy)
    ensures Alike(p, p)
  {
    KindKept(p, true);
    KindKept(p, false);
    hide WithRule;
  }

  lemma CopyExAlike(p: Policy, sections: seq<CopyControl>, e: Entry)
    requires e.policy == p && p.kind == CopyExKind(sections) && Parsed(e)
    ensures Alike(p, p.(kind := CopyExKind(RewrittenSections(sections))))
  {
    ParsedRuleKept(sections);
    assert p == p.(kind := CopyExKind(sections));
    AlikeItself(p);
    hide RewrittenSections, Alike;
  }

  lemma CopyKindAlike(p: Policy, plain: Plain)
    requires p.kind.CopyKind?
    ensures Alike(p.(kind := CopyKind(plain.controls, plain.block.setting.use)),
                  p.(kind := CopyKind(RewrittenPlain(plain).controls, RewrittenPlain(plain).block.setting.use)))
  {
    CopyRuleKept(plain, true);
    CopyRuleKept(plain, false);
    hide CopyRule, RewrittenPlain;
  }

  predicate AllAlike(ps: seq<Policy>, qs: seq<Policy>) {
    |ps| == |qs| && forall i | 0 <= i < |ps| :: Alike(ps[i], qs[i])
  }

  lemma {:induction false} FirstUsedAlike(ps: seq<Policy>, qs: seq<Policy>, subs: set<SubType>)
    requires |ps| == |qs| && forall i | 0 <= i < |ps| :: IsUsed(qs[i], subs) == IsUsed(ps[i], subs)
    ensures FirstUsed(ps, subs) == FirstUsed(qs, subs)
  {
    hide IsUsed;
    if ps != [] {
      FirstUsedAlike(ps[1..], qs[1..], subs);
    }
  }

  lemma UsedAlike(ps: seq<Policy>, qs: seq<Policy>, subs: set<SubType>)
    requires AllAlike(ps, qs)
    ensures FirstUsed(ps, subs) == FirstUsed(qs, subs)
  {
    forall i | 0 <= i < |ps|
      ensures IsUsed(qs[i], subs) == IsUsed(ps[i], subs)
    {
      assert Alike(ps[i], qs[i]);
      hide WithRule;
    }
    FirstUsedAlike(ps, qs, subs);
    hide WithRule, FirstUsed;
  }

  lemma SearchesAlike(ps: seq<Policy>, qs: seq<Policy>)
    requires AllAlike(ps, qs)
    ensures SearchesOf(ps) == SearchesOf(qs)
  {
    UsedAlike(ps, qs, {Media});
    UsedAlike(ps, qs, {CopyPrevent, CopyExPrevent});
    UsedAlike(ps, qs, {SharedFolder});
    var m := FirstUsed(ps, {Media});
    if m.Some? {
      assert Alike(ps[m.value], qs[m.value]);
    }
    hide FirstUsed;
  }

  /** The same policy up to its kind, which the rules in force do not look at beyond the subtype. */
  predicate SameOutput(p: Policy, q: Policy) {
    q == p.(kind := q.kind) && Sub(q) == Sub(p)
  }

  lemma TranslateOneAlike(p: Policy, q: Policy, i: nat, s: Searches, blockWriteAll: bool)
    requires Alike(p, q)
    ensures SameOutput(TranslateOne(p, i, s, blockWriteAll), TranslateOne(q, i, s, blockWriteAll))
  {
    hide Built, Alike, SameOutput, SharedFolderStep, CopyStep, MediaStep;
    BuiltAlike(p, q, blockWriteAll);
    var p1, q1 := Built(p, blockWriteAll), Built(q, blockWriteAll);
    SharedFolderAlike(p1, q1, i, s);
    var p2, q2 := SharedFolderStep(p1, i, s), SharedFolderStep(q1, i, s);
    CopyAlike(p2, q2, s.readBlocked);
    var p3, q3 := CopyStep(p2, s.readBlocked), CopyStep(q2, s.readBlocked);
    CopyAlike(p3, q3, s.writeBlocked);
    MediaAlike(CopyStep(p3, s.writeBlocked), CopyStep(q3, s.writeBlocked), i, s);
  }

  lemma SharedFolderAlike(p: Policy, q: Policy, i: nat, s: Searches)
    requires SameOutput(p, q)
    ensures SameOutput(SharedFolderStep(p, i, s), SharedFolderStep(q, i, s))
  {
  }

  lemma CopyAlike(p: Policy, q: Policy, blocked: bool)
    requires SameOutput(p, q)
    ensures SameOutput(CopyStep(p, blocked), CopyStep(q, blocked))
  {
  }

  lemma MediaAlike(p: Policy, q: Policy, i: nat, s: Searches)
    requires SameOutput(p, q)
    ensures SameOutput(MediaStep(p, i, s), MediaStep(q, i, s))
  {
    hide EraseRules;
  }

  lemma BuiltAlike(p: Policy, q: Policy, blockWriteAll: bool)
    requires Alike(p, q)
    ensures SameOutput(Built(p, blockWriteAll), Built(q, blockWriteAll))
  {
    KindKept(p, blockWriteAll);
    KindKept(q, blockWriteAll);
    hide WithRule;
  }

  lemma KindKept(p: Policy, blockWriteAll: bool)
    ensures WithRule(p, blockWriteAll).kind == p.kind
  {
    hide CopyRule, CopyExRule, MediaRules;
  }

  predicate AllSameOutput(ps: seq<Policy>, qs: seq<Policy>) {
    |ps| == |qs| && forall i | 0 <= i < |ps| :: SameOutput(ps[i], qs[i])
  }

  lemma {:induction false} ContributionsAlike(ps: seq<Policy>, qs: seq<Policy>, copyEx: bool)
    requires AllSameOutput(ps, qs)
    ensures Contributions(ps, copyEx) == Contributions(qs, copyEx)
  {
    hide Contribution, SameOutput;
    if ps != [] {
      var n := |ps| - 1;
      ContributionAlike(ps[n], qs[n], copyEx);
      ContributionsAlike(ps[..n], qs[..n], copyEx);
    }
  }

  lemma ContributionAlike(p: Policy, q: Policy, copyEx: bool)
    requires SameOutput(p, q)
    ensures Contribution(p, copyEx) == Contribution(q, copyEx)
  {
  }

  lemma {:induction false} FirstCopyExAlike(ps: seq<Policy>, qs: seq<Policy>)
    requires AllSameOutput(ps, qs)
    ensures FirstCurrentCopyEx(ps) == FirstCurrentCopyEx(qs)
  {
    if ps != [] {
      assert SameOutput(ps[0], qs[0]);
      FirstCopyExAlike(ps[1..], qs[1..]);
    }
  }

  function Views(list: seq<Entry>): (r: seq<Policy>)
    ensures |r| == |list|
  {
    seq(|list|, i requires 0 <= i < |list| => View(list[i]))
  }

  function RewrittenList(list: seq<Entry>): (r: seq<Entry>)
    ensures |r| == |list|
  {
    seq(|list|, i requires 0 <= i < |list| => RewrittenEntry(list[i]))
  }

  /** Turning approvals into blocks does not change the device rules of the offline mode: built, validated and
      merged, the rewritten policies give the rule sequence the original ones would. */
  lemma OfflineRulesKept(list: seq<Entry>, blockWriteAll: bool)
    requires forall i | 0 <= i < |list| :: Parsed(list[i])
    ensures CurrentRules(Translated(Views(RewrittenList(list)), blockWriteAll)) == CurrentRules(Translated(Views(list), blockWriteAll))
  {
    var ps, qs := Views(list), Views(RewrittenList(list));
    forall i | 0 <= i < |list|
      ensures Alike(ps[i], qs[i])
    {
      RewrittenAlike(list[i]);
    }
    SearchesAlike(ps, qs);
    var s := SearchesOf(ps);
    var ts, us := Translated(ps, blockWriteAll), Translated(qs, blockWriteAll);
    forall i | 0 <= i < |list|
      ensures SameOutput(ts[i], us[i])
    {
      TranslateOneAlike(ps[i], qs[i], i, s, blockWriteAll);
    }
    FirstCopyExAlike(ts, us);
    var e := FirstCurrentCopyEx(ts);
    if e.Some? {
      assert SameOutput(ts[e.value], us[e.value]);
    }
    ContributionsAlike(ts, us, e.Some?);
    hide RewrittenEntry, View, Alike, TranslateOne, FirstCurrentCopyEx, Contributions, SearchesOf;
  }
}
