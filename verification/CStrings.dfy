/** Bytes, C strings and what all of the program does with them: comparing, searching (`sms_strnstr` and
    `sms_strstr`) and taking paths apart. */
module CStrings {

  type byte = x: int | 0 <= x < 256

  const NUL: char := '\0'

  /** The characters of a C string, without its terminator. */
  type CStr = s: string | NUL !in s

  datatype Option<+T> = None | Some(value: T)

  /** Reading a C string at its length yields the terminator. */
  function At(s: string, i: nat): char
    requires i <= |s|
  {
    if i < |s| then s[i] else NUL
  }

  function Take(s: string, n: nat): string {
    if n <= |s| then s[..n] else s
  }

  /** `strncmp(a, b, n) == 0` on NUL-free strings. */
  predicate EqualFirst(a: string, b: string, n: nat) {
    Take(a, n) == Take(b, n)
  }

  /** A letter in lower case. */
  function Lower(c: char): char {
    if 'A' <= c <= 'Z' then c + ' ' else c
  }

  predicate MatchesAt<T(==)>(s: seq<T>, f: seq<T>, k: int) {
    0 <= k <= |s| - |f| && forall x | 0 <= x < |f| :: f[x] == s[k + x]
  }

  /** `r` is the first position in `s` at which `f` occurs, or None when it occurs nowhere. */
  ghost predicate IsFirstMatch(s: string, f: string, r: Option<nat>) {
    match r
    case Some(k) => MatchesAt(s, f, k) && NoMatchBefore(s, f, k)
    case None => forall j :: !MatchesAt(s, f, j)
  }

  ghost predicate NoMatchBefore(s: string, f: string, k: int) {
    forall j | 0 <= j < k :: !MatchesAt(s, f, j)
  }

  /** The bounded search: `sms_strnstr(s, find, n)` sees only the first `n` characters of `s`. */
  method SmsStrnstr(s: CStr, find: CStr, n: nat) returns (r: Option<nat>)
    ensures find != "" ==> IsFirstMatch(Take(s, n), find, r)
    ensures find == "" ==> r == Some(0)
  {
    if find == "" {
      return Some(0);
    }
    hide MatchesAt, NoMatchBefore, EqualFirst, Take;
    NothingBefore(Take(s, n), find);
    var c, rest := find[0], find[1..];
    var i, slen := 0, n;
    while true
      invariant 0 <= i <= |s| && 0 <= slen && i + slen == n
      invariant NoMatchBefore(Take(s, n), find, i)
      decreases |s| - i
    {
      while true
        invariant 0 <= i <= |s| && 0 <= slen && i + slen == n
        invariant NoMatchBefore(Take(s, n), find, i)
        decreases |s| - i
      {
        var sc := At(s, i);
        if sc == NUL || slen < 1 {
          Exhausted(s, n, find, i);
          return None;
        }
        if sc == c {
          break;
        }
        SkipOne(s, n, find, i);
        i, slen := i + 1, slen - 1;
      }
      i, slen := i + 1, slen - 1;
      if |rest| > slen {
        Exhausted(s, n, find, i - 1);
        return None;
      }
      MatchSplits(s, n, find, i - 1);
      if EqualFirst(s[i..], rest, |rest|) {
        return Some(i - 1);
      }
      NoMatchExtends(Take(s, n), find, i - 1, i);
    }
  }

  lemma SkipOne(s: string, n: nat, f: string, i: nat)
    requires f != "" && i < |s| && s[i] != f[0] && NoMatchBefore(Take(s, n), f, i)
    ensures NoMatchBefore(Take(s, n), f, i + 1)
  {
    DiffersAt(Take(s, n), f, i, 0);
    NoMatchExtends(Take(s, n), f, i, i + 1);
  }

  lemma Exhausted(s: string, n: nat, f: string, i: nat)
    requires f != "" && (i >= |s| || i + |f| > n) && NoMatchBefore(Take(s, n), f, i)
    ensures forall j :: !MatchesAt(Take(s, n), f, j)
  {
    NoRoomLeft(Take(s, n), f, i);
  }

  lemma NothingBefore(s: string, f: string)
    ensures NoMatchBefore(s, f, 0)
  {
  }

  lemma NoRoomLeft(s: string, f: string, k: nat)
    requires k + |f| > |s| && NoMatchBefore(s, f, k)
    ensures forall j :: !MatchesAt(s, f, j)
  {
  }

  lemma MatchSplits(s: string, n: nat, f: string, k: nat)
    requires f != "" && k < |s| && s[k] == f[0] && k + |f| <= n
    ensures MatchesAt(Take(s, n), f, k) <==> EqualFirst(s[k + 1..], f[1..], |f| - 1)
  {
    var a, b := Take(s[k + 1..], |f| - 1), Take(f[1..], |f| - 1);
    if a == b {
      forall x | 0 <= x < |f|
        ensures k + x < |s| && f[x] == s[k + x]
      {
        assert x > 0 ==> b[x - 1] == f[x] && a[x - 1] == s[k + x];
      }
    }
    if MatchesAt(Take(s, n), f, k) {
      forall x | 0 <= x < |f| - 1
        ensures a[x] == b[x]
      {
        assert f[x + 1] == Take(s, n)[k + (x + 1)];
      }
    }
  }

  lemma DiffersAt(s: string, f: string, k: nat, x: nat)
    requires x < |f| && (k + x < |s| ==> s[k + x] != f[x])
    ensures !MatchesAt(s, f, k)
  {
  }

  /** The path test of every file decision: the volume path is the file path or one of its ancestors. */
  predicate Covers(base: string, path: string) {
    path == base || base + "/" <= path
  }

  /** `sms_strnstr(path, base, strlen(base))` together with the look at `path[strlen(base)]`. */
  method IsUnderBase(path: CStr, base: CStr) returns (under: bool)
    ensures under <==> Covers(base, path)
  {
    var found := SmsStrnstr(path, base, |base|);
    under := found.Some? && |base| <= |path| && (At(path, |base|) == '/' || At(path, |base|) == NUL);
    PrefixTest(path, base, found);
  }

  lemma PrefixTest(path: string, base: string, found: Option<nat>)
    requires if base == "" then found == Some(0) else IsFirstMatch(Take(path, |base|), base, found)
    ensures found.Some? <==> base <= path
    ensures Covers(base, path) <==> base <= path && (|path| == |base| || path[|base|] == '/')
  {
    var t := Take(path, |base|);
    if base <= path {
      assert MatchesAt(t, base, 0);
      assert path == base + path[|base|..];
    }
    if found.Some? && base != "" {
      assert found.value == 0 && t == base;
    }
  }

  // ---- sms_strstr: a forward scan that never moves back in the text ----

  /** The scan at text position `i` with the first `k` token characters matched just before it. */
  function ScanFrom(s: string, t: string, i: nat, k: nat): (r: Option<nat>)
    requires k <= i <= |s| && (k < |t| || k == 0)
    decreases |s| - i
  {
    if i == |s| then None
    else
      var k' := if k > 0 && s[i] != t[k] then 0 else k;
      if k' < |t| && s[i] == t[k'] then
        if k' + 1 == |t| then Some(i - k') else ScanFrom(s, t, i + 1, k' + 1)
      else ScanFrom(s, t, i + 1, 0)
  }

  /** The `k` characters before `i` are the first `k` of the token. */
  predicate Tail(s: string, t: string, i: nat, k: nat)
    requires k <= i <= |s| && k <= |t|
  {
    forall x | 0 <= x < k :: t[x] == s[i - k + x]
  }

  /** The in-place pointer loop of `sms_strstr`; `start` plays `pczPos` and `k` the distance walked in the token. */
  method SmsStrstr(s: CStr, t: CStr) returns (r: Option<nat>)
    ensures r == ScanFrom(s, t, 0, 0)
    ensures r.Some? ==> MatchesAt(s, t, r.value)
  {
    var start: Option<nat> := None;
    var i, k := 0, 0;
    while i < |s|
      invariant 0 <= k <= i <= |s| && (k < |t| || k == 0)
      invariant start == if k == 0 then None else Some(i - k)
      invariant k > 0 ==> Tail(s, t, i, k)
      invariant ScanFrom(s, t, 0, 0) == ScanFrom(s, t, i, k)
    {
      if start.Some? && s[i] != At(t, k) {
        start, k := None, 0;
      }
      if start.None? && s[i] == At(t, k) {
        start := Some(i);
      }
      if start.Some? && s[i] == At(t, k) {
        k := k + 1;
      }
      if start.Some? && At(t, k) == NUL {
        return start;
      }
      i := i + 1;
    }
    r := None;
  }

  /** Every later occurrence of the token's first character starts a suffix that is also a prefix of the token. */
  predicate Restartable(t: string) {
    t != "" && forall j | 1 <= j < |t| && t[j] == t[0] :: t[j..] <= t
  }

  lemma RestartAt(t: string, j: nat, x: nat)
    requires Restartable(t) && 1 <= j < |t| && t[j] == t[0] && j + x < |t|
    ensures t[j + x] == t[x]
  {
    assert t[j..] <= t;
    assert t[j..][x] == t[x];
  }

  lemma TailExtends(s: string, t: string, i: nat, k: nat)
    requires k < |t| && k <= i < |s| && Tail(s, t, i, k) && s[i] == t[k]
    ensures Tail(s, t, i + 1, k + 1)
    ensures k + 1 == |t| ==> MatchesAt(s, t, i - k)
  {
  }

  lemma NoMatchExtends(s: string, t: string, k: nat, k': nat)
    requires NoMatchBefore(s, t, k) && forall p | k <= p < k' :: !MatchesAt(s, t, p)
    ensures NoMatchBefore(s, t, k')
  {
  }

  lemma {:induction false} ScanFindsFirst(s: string, t: string, i: nat, k: nat)
    requires Restartable(t) && k < |t| && k <= i <= |s|
    requires Tail(s, t, i, k)
    requires NoMatchBefore(s, t, i - k)
    ensures IsFirstMatch(s, t, ScanFrom(s, t, i, k))
    decreases |s| - i
  {
    hide Restartable, MatchesAt, NoMatchBefore;
    if i == |s| {
      NoRoomLeft(s, t, i - k);
    } else if s[i] == t[k] {
      TailExtends(s, t, i, k);
      if k + 1 < |t| {
        ScanFindsFirst(s, t, i + 1, k + 1);
      }
    } else {
      NoMatchAcrossMismatch(s, t, i, k);
      NoMatchExtends(s, t, i - k, i);
      if s[i] == t[0] {
        TailExtends(s, t, i, 0);
        ScanFindsFirst(s, t, i + 1, 1);
      } else {
        NoMatchExtends(s, t, i, i + 1);
        ScanFindsFirst(s, t, i + 1, 0);
      }
    }
  }

  lemma NoMatchAcrossMismatch(s: string, t: string, i: nat, k: nat)
    requires Restartable(t) && k < |t| && k <= i < |s|
    requires Tail(s, t, i, k) && s[i] != t[k]
    ensures forall p | i - k <= p < i :: !MatchesAt(s, t, p)
    ensures s[i] != t[0] ==> !MatchesAt(s, t, i)
    ensures k > 0 && s[i] == t[0] ==> |t| > 1
  {
    hide Restartable, MatchesAt;
    forall p | i - k <= p < i
      ensures !MatchesAt(s, t, p)
    {
      var j := p - (i - k);
      assert t[j] == s[p];
      if j == 0 {
        DiffersAt(s, t, p, k);
      } else if t[j] != t[0] {
        DiffersAt(s, t, p, 0);
      } else {
        RestartAt(t, j, k - j);
        DiffersAt(s, t, p, k - j);
      }
    }
    if s[i] != t[0] {
      DiffersAt(s, t, i, 0);
    }
  }

  lemma {:induction false} ScanNeverMovesBack(s: string, t: string, i: nat, k: nat)
    requires k < |t| && k <= i <= |s|
    requires ScanFrom(s, t, i, k).Some?
    ensures i - k <= ScanFrom(s, t, i, k).value
    ensures k > 0 && i < |s| && s[i] != t[k] ==> i <= ScanFrom(s, t, i, k).value
    decreases |s| - i
  {
    var k' := if k > 0 && s[i] != t[k] then 0 else k;
    if s[i] == t[k'] {
      if k' + 1 < |t| {
        ScanNeverMovesBack(s, t, i + 1, k' + 1);
      }
    } else {
      ScanNeverMovesBack(s, t, i + 1, 0);
    }
  }

  lemma {:induction false} ScanAdvances(s: string, t: string, k: nat)
    requires k < |t| && k <= |s| && s[..k] == t[..k]
    ensures ScanFrom(s, t, 0, 0) == ScanFrom(s, t, k, k)
  {
    if k > 0 {
      assert s[..k - 1] == s[..k][..k - 1] == t[..k - 1];
      assert s[k - 1] == s[..k][k - 1] == t[k - 1];
      ScanAdvances(s, t, k - 1);
    }
  }

  /** A token that is not restartable is missed in the text that repeats its start. */
  lemma ScanMisses(t: CStr, j: nat)
    requires 1 <= j < |t| && t[j] == t[0] && !(t[j..] <= t)
    ensures ScanFrom(t[..j] + t, t, 0, 0).None? && MatchesAt(t[..j] + t, t, j)
  {
    hide ScanFrom, MatchesAt;
    var s := t[..j] + t;
    MatchesBehind(t[..j], t);
    var l := FirstDifference(t[j..], t);
    var k := j + l;
    assert s[..k] == t[..k] by {
      assert s[..k] == t[..j] + t[..l] && t[..k] == t[..j] + t[j..][..l];
    }
    assert s[k] == t[l] && t[k] == t[j..][l];
    ScanAdvances(s, t, k);
    ScanBlocked(s, t, k);
  }

  lemma MatchesBehind(front: string, t: string)
    ensures MatchesAt(front + t, t, |front|)
  {
  }

  lemma ScanBlocked(s: string, t: string, k: nat)
    requires 0 < k < |t| && k < |s| && s[k] != t[k] && |s| < k + |t|
    ensures ScanFrom(s, t, k, k).None?
  {
    if ScanFrom(s, t, k, k).Some? {
      ScanNeverMovesBack(s, t, k, k);
      ScanFits(s, t, k, k);
    }
  }

  lemma {:induction false} ScanFits(s: string, t: string, i: nat, k: nat)
    requires k < |t| && k <= i <= |s|
    requires ScanFrom(s, t, i, k).Some?
    ensures ScanFrom(s, t, i, k).value + |t| <= |s|
    decreases |s| - i
  {
    var k' := if k > 0 && s[i] != t[k] then 0 else k;
    if s[i] == t[k'] {
      if k' + 1 < |t| {
        ScanFits(s, t, i + 1, k' + 1);
      }
    } else {
      ScanFits(s, t, i + 1, 0);
    }
  }

  /** The length of the common prefix of two strings that differ somewhere within `a`. */
  function FirstDifference(a: string, b: string): (k: nat)
    requires |a| <= |b| && !(a <= b)
    ensures k < |a| && a[..k] == b[..k] && a[k] != b[k]
  {
    if a[0] != b[0] then 0
    else
      assert a == [a[0]] + a[1..] && b == [b[0]] + b[1..];
      assert !(a[1..] <= b[1..]);
      var k := FirstDifference(a[1..], b[1..]) + 1;
      assert a[..k] == [a[0]] + a[1..][..k - 1] && b[..k] == [b[0]] + b[1..][..k - 1];
      k
  }

  /** `sms_strstr` with token `t` is a correct search in every text exactly when `t` is restartable. */
  lemma StrstrExact(t: CStr)
    ensures (forall s: CStr :: IsFirstMatch(s, t, ScanFrom(s, t, 0, 0))) <==> Restartable(t)
  {
    hide ScanFrom, MatchesAt, Restartable;
    if Restartable(t) {
      NotEmpty(t);
      forall s: CStr
        ensures IsFirstMatch(s, t, ScanFrom(s, t, 0, 0))
      {
        ScanFindsFirst(s, t, 0, 0);
      }
    } else {
      var s := MissedText(t);
      assert !IsFirstMatch(s, t, ScanFrom(s, t, 0, 0));
    }
  }

  lemma NotEmpty(t: string)
    requires Restartable(t)
    ensures t != ""
  {
  }

  lemma MissedText(t: CStr) returns (s: CStr)
    requires !Restartable(t)
    ensures ScanFrom(s, t, 0, 0).None? && exists j :: MatchesAt(s, t, j)
  {
    hide ScanFrom, MatchesAt;
    if t == "" {
      s := "";
      NothingToScan(t);
    } else {
      var j := BadRecurrence(t);
      ScanMisses(t, j);
      s := t[..j] + t;
    }
  }

  lemma BadRecurrence(t: string) returns (j: nat)
    requires !Restartable(t) && t != ""
    ensures 1 <= j < |t| && t[j] == t[0] && !(t[j..] <= t)
  {
    j :| 1 <= j < |t| && t[j] == t[0] && !(t[j..] <= t);
  }

  lemma NothingToScan(t: string)
    ensures ScanFrom("", t, 0, 0).None? && MatchesAt("", "", 0)
  {
  }

  /** The common case: the first character does not recur. */
  lemma DistinctFirstIsRestartable(t: string)
    requires t != "" && t[0] !in t[1..]
    ensures Restartable(t)
  {
    assert forall j | 1 <= j < |t| :: t[j] == t[1..][j - 1];
  }

  // ---- Paths ----

  /** The index of the last '/', or -1. */
  function LastSlash(s: string): (r: int)
    ensures -1 <= r < |s| && (r >= 0 ==> s[r] == '/')
    ensures forall j | r < j < |s| :: s[j] != '/'
  {
    if s == "" then -1 else if s[|s| - 1] == '/' then |s| - 1 else LastSlash(s[..|s| - 1])
  }
}
