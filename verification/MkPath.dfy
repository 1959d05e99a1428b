/** `_mkpath_np`: making a directory with all its missing ancestors, by shortening a copy of the path with
    NULs in place and then restoring it. */
module MkPath {
  import opened CStrings

  datatype Errno = OK | ENOENT | EEXIST | ENOTDIR | EACCES | EIO

  /** A path is resolved to its non-empty components, so repeated and trailing slashes do not matter. */
  type Components = seq<string>

  /** Directories, other files, and the places where the caller may not create an entry. */
  datatype FileSystem = FileSystem(dirs: set<Components>, files: set<Components>, denied: set<Components>)

  function Split(s: string): Components
    decreases |s|
  {
    var i := LastSlash(s);
    if i < 0 then if s == "" then [] else [s]
    else Split(s[..i]) + if i + 1 < |s| then [s[i + 1..]] else []
  }

  predicate EndsWithSlash(s: string) {
    s != "" && s[|s| - 1] == '/'
  }

  /** The root is a directory and every entry's parent is one. */
  ghost predicate WellFormed(fs: FileSystem) {
    && [] in fs.dirs && fs.dirs !! fs.files
    && forall c | c in fs.dirs + fs.files && c != [] :: c[..|c| - 1] in fs.dirs
  }

  predicate FileAbove(fs: FileSystem, c: Components) {
    exists k :: 0 <= k < |c| && c[..k] in fs.files
  }

  /** The answer of `mkdir` for a path. */
  function MkdirAnswer(fs: FileSystem, path: string): Errno {
    var c := Split(path);
    if path == "" then ENOENT
    else if c in fs.dirs || c in fs.files then EEXIST
    else if c == [] || FileAbove(fs, c) then ENOTDIR
    else if c[..|c| - 1] !in fs.dirs then ENOENT
    else if c in fs.denied then EACCES
    else OK
  }

  function WithDir(fs: FileSystem, c: Components): FileSystem {
    fs.(dirs := fs.dirs + {c})
  }

  /** The file system with the first `k` prefixes of `c` as directories. */
  function Grown(fs: FileSystem, c: Components, k: nat): FileSystem
    requires k <= |c|
  {
    fs.(dirs := fs.dirs + set j | 0 <= j <= k :: c[..j])
  }

  /** How far down the path directories exist or may be made, from depth `j` on. */
  function Reach(fs: FileSystem, c: Components, j: nat): (r: nat)
    requires j <= |c|
    ensures j <= r <= |c|
    ensures forall i | j < i <= r :: c[..i] in fs.dirs || c[..i] !in fs.denied
    ensures r < |c| ==> c[..r + 1] !in fs.dirs && c[..r + 1] in fs.denied
    decreases |c| - j
  {
    if j == |c| || (c[..j + 1] !in fs.dirs && c[..j + 1] in fs.denied) then j else Reach(fs, c, j + 1)
  }

  /** What `_mkpath_np` returns and leaves, over the whole path at once. */
  function Result(fs: FileSystem, path: string): (Errno, FileSystem) {
    var c := Split(path);
    if path == "" then (ENOENT, fs)
    else if c in fs.dirs then (EEXIST, fs)
    else if c in fs.files then (if EndsWithSlash(path) then EIO else ENOTDIR, fs)
    else if c == [] || FileAbove(fs, c) then (ENOTDIR, fs)
    else
      var k := Reach(fs, c, 0);
      var answer :=
        if k < |c| then EACCES
        else if EndsWithSlash(path) && c[..|c| - 1] !in fs.dirs then EEXIST
        else OK;
      (answer, Grown(fs, c, k))
  }

  // ---- The buffer ----

  /** `buffer` holds `path` with NULs at the cut positions, the latest cut being the leftmost. */
  ghost predicate BufferIs(buffer: seq<char>, path: string, cuts: seq<nat>) {
    && |buffer| == |path| + 1
    && (forall k | 0 <= k < |cuts| :: cuts[k] < |path| && path[cuts[k]] == '/')
    && (forall j, k | 0 <= j < k < |cuts| :: cuts[k] < cuts[j])
    && forall i | 0 <= i < |buffer| :: buffer[i] == if i == |path| || i in cuts then NUL else path[i]
  }

  function Visible(path: string, cuts: seq<nat>): (r: nat)
  {
    if cuts == [] then |path| else cuts[|cuts| - 1]
  }

  /** Each cut was made at the last slash visible before it. */
  ghost predicate Chain(path: string, cuts: seq<nat>) {
    forall k | 0 <= k < |cuts| ::
      Visible(path, cuts[..k]) <= |path| && cuts[k] == LastSlash(path[..Visible(path, cuts[..k])])
  }

  method StrLen(a: array<char>) returns (n: nat)
    requires exists i :: 0 <= i < a.Length && a[i] == NUL
    ensures n < a.Length && a[n] == NUL && forall j | 0 <= j < n :: a[j] != NUL
  {
    n := 0;
    while a[n] != NUL
      invariant n < a.Length && forall j | 0 <= j < n :: a[j] != NUL
      decreases a.Length - n
    {
      n := n + 1;
    }
  }

  /** `strrchr(a, '/')`, as an index or -1. */
  method StrRChr(a: array<char>) returns (r: int)
    requires exists i :: 0 <= i < a.Length && a[i] == NUL
    ensures exists n :: 0 <= n < a.Length && a[n] == NUL && (forall j | 0 <= j < n :: a[j] != NUL) && r == LastSlash(a[..n])
  {
    var n := StrLen(a);
    r := -1;
    var i := 0;
    while i < n
      invariant 0 <= i <= n && r == LastSlash(a[..i])
    {
      assert a[..i + 1][..i] == a[..i];
      if a[i] == '/' {
        r := i;
      }
      i := i + 1;
    }
  }

  lemma VisibleString(buffer: seq<char>, path: CStr, cuts: seq<nat>, n: nat)
    requires BufferIs(buffer, path, cuts)
    requires n < |buffer| && buffer[n] == NUL && forall j | 0 <= j < n :: buffer[j] != NUL
    ensures n == Visible(path, cuts) && buffer[..n] == path[..n]
  {
    var v := Visible(path, cuts);
    assert v == |path| || v in cuts;
    forall i | 0 <= i < v
      ensures i !in cuts
    {
    }
  }

  // ---- Components of shortened paths ----

  /** Cutting at the last slash drops the last component, or nothing when the path ends with that slash. */
  lemma CutComponents(s: string)
    requires LastSlash(s) >= 0
    ensures var c, d := Split(s), Split(s[..LastSlash(s)]);
            if EndsWithSlash(s) then d == c else c != [] && d == c[..|c| - 1]
  {
  }

  lemma NoSlashOneComponent(s: string)
    ensures |Split(s)| >= 2 ==> LastSlash(s) >= 0
  {
  }

  lemma CutBuffer(before: seq<char>, after: seq<char>, path: CStr, cuts: seq<nat>, s: nat)
    requires BufferIs(before, path, cuts) && s < Visible(path, cuts) <= |path| && path[s] == '/'
    requires |after| == |before| && after[s] == NUL && forall i | 0 <= i < |before| && i != s :: after[i] == before[i]
    ensures BufferIs(after, path, cuts + [s])
  {
    var cuts' := cuts + [s];
    assert forall i :: i in cuts' <==> i in cuts || i == s;
  }

  lemma RestoreBuffer(before: seq<char>, after: seq<char>, path: CStr, cuts: seq<nat>)
    requires cuts != [] && BufferIs(before, path, cuts)
    requires var v := Visible(path, cuts);
             |after| == |before| && after[v] == '/' && forall i | 0 <= i < |before| && i != v :: after[i] == before[i]
    ensures BufferIs(after, path, cuts[..|cuts| - 1])
  {
    var last := |cuts| - 1;
    var rest := cuts[..last];
    assert cuts == rest + [cuts[last]];
    assert forall i :: i in cuts <==> i in rest || i == cuts[last];
    assert cuts[last] !in rest;
  }

  // ---- The two loops on the file system ----

  /** The path cannot be made directly: it does not exist and neither does its parent directory. */
  ghost predicate NeedsAncestors(fs: FileSystem, c: Components) {
    WellFormed(fs) && c != [] && c !in fs.dirs && c !in fs.files && !FileAbove(fs, c) && c[..|c| - 1] !in fs.dirs
  }

  lemma {:induction false} PrefixExists(fs: FileSystem, c: Components, j: nat, k: nat)
    requires WellFormed(fs) && j <= k <= |c| && c[..k] in fs.dirs
    ensures c[..j] in fs.dirs
  {
    if j < k {
      assert c[..k] in fs.dirs + fs.files && c[..k] != [];
      assert c[..k][..k - 1] == c[..k - 1];
      PrefixExists(fs, c, j, k - 1);
    }
  }

  /** The state of the upward loop: the visible path names the first `m` components, and neither that prefix
      nor its parent exists. */
  ghost predicate UpState(fs: FileSystem, c: Components, visible: string, m: nat) {
    && NeedsAncestors(fs, c) && 1 <= m <= |c| && Split(visible) == c[..m]
    && c[..m] !in fs.dirs && c[..m - 1] !in fs.dirs
  }

  lemma UpStep(fs: FileSystem, c: Components, visible: string, m: nat) returns (m': nat)
    requires UpState(fs, c, visible, m)
    ensures LastSlash(visible) >= 0
    ensures 1 <= m' <= m <= |c|
    ensures var shorter := visible[..LastSlash(visible)];
            && Split(shorter) == c[..m'] && shorter != "" && c[..m'] !in fs.dirs
            && MkdirAnswer(fs, shorter) == (if c[..m' - 1] !in fs.dirs then ENOENT else if c[..m'] in fs.denied then EACCES else OK)
            && (c[..m' - 1] !in fs.dirs ==> UpState(fs, c, shorter, m'))
  {
    assert c[..0] == [] && c[..0] in fs.dirs;
    assert m >= 2;
    NoSlashOneComponent(visible);
    CutComponents(visible);
    m' := if EndsWithSlash(visible) then m else m - 1;
    var shorter := visible[..LastSlash(visible)];
    assert Split(shorter) == c[..m'] by {
      assert c[..m][..m - 1] == c[..m - 1];
    }
    PrefixNotFile(fs, c, m');
    assert c[..m'][..m' - 1] == c[..m' - 1];
    hide Split, LastSlash, FileAbove;
  }

  lemma PrefixNotFile(fs: FileSystem, c: Components, m: nat)
    requires c !in fs.files && !FileAbove(fs, c) && m <= |c|
    ensures c[..m] !in fs.files && !FileAbove(fs, c[..m])
  {
    assert c[..|c|] == c;
    forall k | 0 <= k < m
      ensures c[..m][..k] !in fs.files
    {
      assert c[..m][..k] == c[..k];
    }
  }

  /** The state of the downward loop: the first `m` prefixes are in place and nothing on the way was denied. */
  ghost predicate DownState(fs: FileSystem, grown: FileSystem, c: Components, visible: string, m: nat) {
    && NeedsAncestors(fs, c) && 1 <= m <= |c| && Split(visible) == c[..m]
    && c[..m] !in fs.dirs && m <= Reach(fs, c, 0) && grown == Grown(fs, c, m)
  }

  /** The first directory made in the upward loop starts the downward one. */
  lemma StartDown(fs: FileSystem, c: Components, visible: string, m: nat)
    requires NeedsAncestors(fs, c) && 1 <= m <= |c| && Split(visible) == c[..m]
    requires c[..m] !in fs.dirs && c[..m - 1] in fs.dirs
    ensures c[..m] !in fs.denied ==> DownState(fs, WithDir(fs, c[..m]), c, visible, m)
    ensures c[..m] in fs.denied ==> Reach(fs, c, 0) == m - 1 && Grown(fs, c, m - 1) == fs
  {
    hide Reach, Grown, WithDir, Split, FileAbove;
    forall j | 0 <= j <= m - 1
      ensures c[..j] in fs.dirs
    {
      PrefixExists(fs, c, j, m - 1);
    }
    GrownFromTop(fs, c, m);
    ReachAt(fs, c, m);
  }

  lemma GrownFromTop(fs: FileSystem, c: Components, m: nat)
    requires 1 <= m <= |c| && forall j | 0 <= j <= m - 1 :: c[..j] in fs.dirs
    ensures Grown(fs, c, m - 1) == fs && WithDir(fs, c[..m]) == Grown(fs, c, m)
  {
    assert (set j | 0 <= j <= m :: c[..j]) == (set j | 0 <= j <= m - 1 :: c[..j]) + {c[..m]};
  }

  lemma ReachAt(fs: FileSystem, c: Components, m: nat)
    requires 1 <= m <= |c| && c[..m] !in fs.dirs && forall j | 0 <= j <= m - 1 :: c[..j] in fs.dirs
    ensures if c[..m] in fs.denied then Reach(fs, c, 0) == m - 1 else Reach(fs, c, 0) >= m
  {
    hide Reach;
    var r := Reach(fs, c, 0);
    assert r < m ==> c[..r + 1] !in fs.dirs;
  }

  lemma GrownStep(fs: FileSystem, c: Components, m: nat)
    requires m < |c|
    ensures WithDir(Grown(fs, c, m), c[..m + 1]) == Grown(fs, c, m + 1)
  {
    assert (set j | 0 <= j <= m + 1 :: c[..j]) == (set j | 0 <= j <= m :: c[..j]) + {c[..m + 1]};
  }

  /** Making the next longer path: it is the same directory again, or the next one down. */
  lemma DownStep(fs: FileSystem, grown: FileSystem, c: Components, longer: string, m: nat)
    requires LastSlash(longer) >= 0 && DownState(fs, grown, c, longer[..LastSlash(longer)], m)
    requires exists n :: 0 <= n <= |c| && Split(longer) == c[..n]
    ensures EndsWithSlash(longer) ==>
              MkdirAnswer(grown, longer) == EEXIST && DownState(fs, grown, c, longer, m)
    ensures !EndsWithSlash(longer) ==>
              && m < |c| && Split(longer) == c[..m + 1]
              && MkdirAnswer(grown, longer) == (if c[..m + 1] in fs.denied then EACCES else OK)
              && (c[..m + 1] !in fs.denied ==> DownState(fs, WithDir(grown, c[..m + 1]), c, longer, m + 1))
              && (c[..m + 1] in fs.denied ==> Reach(fs, c, 0) == m)
  {
    CutComponents(longer);
    var n :| 0 <= n <= |c| && Split(longer) == c[..n];
    if EndsWithSlash(longer) {
      assert c[..m] in grown.dirs;
    } else {
      assert n == m + 1;
      NextMissing(fs, grown, c, m);
      GrownStep(fs, c, m);
    }
  }

  lemma NextMissing(fs: FileSystem, grown: FileSystem, c: Components, m: nat)
    requires NeedsAncestors(fs, c) && 1 <= m < |c| && c[..m] !in fs.dirs && grown == Grown(fs, c, m)
    ensures c[..m + 1] !in fs.dirs && c[..m + 1] !in grown.dirs
    ensures c[..m + 1] !in grown.files && !FileAbove(grown, c[..m + 1])
    ensures c[..m + 1][..m] in grown.dirs
  {
    if c[..m + 1] in fs.dirs {
      PrefixExists(fs, c, m, m + 1);
    }
    PrefixNotFile(fs, c, m + 1);
    assert forall k | 0 <= k <= m :: |c[..k]| != |c[..m + 1]|;
    assert c[..m + 1][..m] == c[..m];
  }

  /** Every path the buffer shows on the way names a prefix of the components. */
  lemma {:induction false} ShownPrefix(path: CStr, cuts: seq<nat>)
    requires Chain(path, cuts) && Visible(path, cuts) <= |path|
    ensures exists n :: 0 <= n <= |Split(path)| && Split(path[..Visible(path, cuts)]) == Split(path)[..n]
  {
    var c := Split(path);
    hide Split, LastSlash;
    if cuts == [] {
      assert path[..|path|] == path && c[..|c|] == c;
    } else {
      var rest := cuts[..|cuts| - 1];
      assert forall k | 0 <= k < |rest| :: rest[..k] == cuts[..k];
      ShownPrefix(path, rest);
      var longer := path[..Visible(path, rest)];
      var n :| 0 <= n <= |c| && Split(longer) == c[..n];
      CutComponents(longer);
      assert longer[..LastSlash(longer)] == path[..Visible(path, cuts)];
      assert n > 0 ==> c[..n][..n - 1] == c[..n - 1];
      if !EndsWithSlash(longer) {
        assert Split(path[..Visible(path, cuts)]) == c[..n - 1];
      }
    }
  }

  class Disk {
    var fs: FileSystem

    constructor (fs: FileSystem)
      ensures this.fs == fs
    {
      this.fs := fs;
    }

    method Mkdir(path: string) returns (e: Errno)
      modifies this
      ensures e == MkdirAnswer(old(fs), path)
      ensures fs == if e == OK then WithDir(old(fs), Split(path)) else old(fs)
    {
      e := MkdirAnswer(fs, path);
      if e == OK {
        fs := WithDir(fs, Split(path));
      }
    }

    /** `stat` and `S_ISDIR`: None when the call fails. */
    function StatIsDir(path: string): Option<bool>
      reads this
    {
      if path == "" then None
      else if Split(path) in fs.dirs then Some(true)
      else if Split(path) in fs.files && !EndsWithSlash(path) then Some(false)
      else None
    }

    /** The string in the buffer. */
    method Shown(apath: array<char>, ghost path: CStr, ghost cuts: seq<nat>) returns (s: string)
      requires BufferIs(apath[..], path, cuts)
      ensures Visible(path, cuts) <= |path| && s == path[..Visible(path, cuts)]
    {
      assert apath[..][|path|] == NUL;
      var n := StrLen(apath);
      VisibleString(apath[..], path, cuts, n);
      s := apath[..n];
      assert s == apath[..][..n];
    }

    /** The upward loop: shorten the path at its last slash until a directory can be made. */
    method GoUp(apath: array<char>, path: CStr) returns (retval: Errno, depth: nat, ghost cuts: seq<nat>, ghost m: nat)
      requires NeedsAncestors(fs, Split(path)) && BufferIs(apath[..], path, [])
      modifies this, apath
      ensures BufferIs(apath[..], path, cuts) && Chain(path, cuts) && Visible(path, cuts) <= |path| && depth == |cuts| >= 1
      ensures retval == OK || retval == EACCES
      ensures retval == OK ==> DownState(old(fs), fs, Split(path), path[..Visible(path, cuts)], m)
      ensures retval == EACCES ==> m < |Split(path)| && Reach(fs, Split(path), 0) == m && fs == old(fs) == Grown(fs, Split(path), m)
    {
      hide Chain, BufferIs, MkdirAnswer, Split, Reach, Grown, WithDir, LastSlash, DownState, UpState, NeedsAncestors;
      retval, depth, cuts, m := OK, 0, [], |Split(path)|;
      StartUp(fs, path);
      ghost var before, c := fs, Split(path);
      var done := false;
      while !done
        invariant BufferIs(apath[..], path, cuts) && Chain(path, cuts) && Visible(path, cuts) <= |path| && depth == |cuts|
        invariant !done ==> fs == before && retval == OK && UpState(before, c, path[..Visible(path, cuts)], m)
        invariant done ==> depth >= 1 && (retval == OK || retval == EACCES)
        invariant done && retval == OK ==> DownState(before, fs, c, path[..Visible(path, cuts)], m)
        invariant done && retval == EACCES ==> m < |c| && Reach(before, c, 0) == m && fs == before == Grown(before, c, m)
        decreases Visible(path, cuts), !done
      {
        ghost var m' := UpStep(before, c, path[..Visible(path, cuts)], m);
        ghost var visible := path[..Visible(path, cuts)];
        var found, shorter;
        found, shorter, cuts := CutLast(apath, path, cuts);
        if !found {
          retval, done := ENOENT, true;
        } else {
          depth := depth + 1;
          var e := Mkdir(shorter);
          if c[..m' - 1] in before.dirs {
            StartDown(before, c, shorter, m');
          }
          m := m';
          if e == OK {
            done := true;
          } else if e == EEXIST {
            done := true;
            if StatIsDir(shorter) != Some(true) {
              retval := ENOTDIR;
            }
          } else if e != ENOENT {
            retval, done := e, true;
            m := m' - 1;
          }
        }
      }
    }

    /** The downward loop: restore one slash at a time and make the directory shown. */
    method GoDown(apath: array<char>, path: CStr, depth0: nat, ghost cuts0: seq<nat>, ghost m0: nat, ghost before: FileSystem)
      returns (retval: Errno, ghost m: nat)
      requires BufferIs(apath[..], path, cuts0) && Chain(path, cuts0) && Visible(path, cuts0) <= |path| && depth0 == |cuts0| >= 1
      requires DownState(before, fs, Split(path), path[..Visible(path, cuts0)], m0)
      modifies this, apath
      ensures retval == OK || retval == EACCES
      ensures retval == OK ==> LastSlash(path) >= 0 && BufferIs(apath[..], path, [LastSlash(path)])
                               && DownState(before, fs, Split(path), path[..LastSlash(path)], m)
      ensures retval == EACCES ==> m < |Split(path)| && Reach(before, Split(path), 0) == m && fs == Grown(before, Split(path), m)
    {
      hide Chain, BufferIs, MkdirAnswer, Split, Reach, Grown, WithDir, LastSlash, DownState;
      ghost var cuts, c := cuts0, Split(path);
      var depth := depth0;
      retval, m := OK, m0;
      while depth > 1 && retval == OK
        invariant BufferIs(apath[..], path, cuts) && Chain(path, cuts) && Visible(path, cuts) <= |path| && depth == |cuts| >= 1
        invariant retval == OK || retval == EACCES
        invariant retval == OK ==> DownState(before, fs, c, path[..Visible(path, cuts)], m)
        invariant retval == EACCES ==> m < |c| && Reach(before, c, 0) == m && fs == Grown(before, c, m)
        decreases depth
      {
        ghost var grown := fs;
        var longer;
        longer, cuts := RestoreLast(apath, path, cuts);
        depth := depth - 1;
        DownStep(before, grown, c, longer, m);
        DownIsGrown(before, grown, c, longer[..LastSlash(longer)], m);
        var e := Mkdir(longer);
        if e == OK {
          m := m + 1;
        } else if e != EEXIST {
          retval := e;
        }
      }
      if retval == OK {
        LastCut(path, cuts);
      }
    }

    method RestoreLast(apath: array<char>, ghost path: CStr, ghost cuts: seq<nat>) returns (longer: string, ghost cuts': seq<nat>)
      requires cuts != [] && BufferIs(apath[..], path, cuts) && Chain(path, cuts) && Visible(path, cuts) <= |path|
      modifies apath
      ensures cuts' == cuts[..|cuts| - 1] && BufferIs(apath[..], path, cuts') && Chain(path, cuts')
      ensures Visible(path, cuts') <= |path| && longer == path[..Visible(path, cuts')]
      ensures LastSlash(longer) == Visible(path, cuts) && longer[..LastSlash(longer)] == path[..Visible(path, cuts)]
      ensures exists n :: 0 <= n <= |Split(path)| && Split(longer) == Split(path)[..n]
    {
      hide LastSlash, Split, Chain;
      assert apath[..][|path|] == NUL;
      var n := StrLen(apath);
      VisibleString(apath[..], path, cuts, n);
      ghost var shown := apath[..];
      apath[n] := '/';
      RestoreBuffer(shown, apath[..], path, cuts);
      cuts' := cuts[..|cuts| - 1];
      ChainShortens(path, cuts);
      hide BufferIs;
      longer := Shown(apath, path, cuts');
      ShownPrefix(path, cuts');
    }

    /** `_mkpath_np`. `apath` is the copy of the path, null when none was needed; on success it shows the
        parent path again. */
    method MkPathNp(path: CStr) returns (retval: Errno, apath: array?<char>)
      requires WellFormed(fs)
      modifies this
      ensures (retval, fs) == Result(old(fs), path)
      ensures apath != null ==> fresh(apath)
      ensures apath != null && (retval == OK || retval == EEXIST) ==>
                LastSlash(path) >= 0 && BufferIs(apath[..], path, [LastSlash(path)])
    {
      hide Chain, MkdirAnswer, Split, Reach, Grown, WithDir, LastSlash, DownState, NeedsAncestors, Result, WellFormed;
      apath := null;
      ghost var before := fs;
      var e := Mkdir(path);
      FirstAnswer(before, path);
      if e == EEXIST {
        var isDir := StatIsDir(path);
        retval := if isDir == Some(true) then EEXIST else if isDir == Some(false) then ENOTDIR else EIO;
        return;
      }
      if e != ENOENT || path == "" {
        retval := e;
        return;
      }
      var buffer := new char[|path| + 1](i requires 0 <= i <= |path| => if i < |path| then path[i] else NUL);
      apath := buffer;
      var depth;
      ghost var cuts, m;
      retval, depth, cuts, m := GoUp(buffer, path);
      if retval == OK {
        retval, m := GoDown(buffer, path, depth, cuts, m, before);
        if retval == OK {
          ghost var grown := fs;
          LastAnswer(before, grown, path, m);
          e := Mkdir(path);
          retval := e;
          if e == EEXIST && StatIsDir(path) == Some(false) {
            retval := ENOTDIR;
          }
        }
      }
      DeniedResult(before, path, m);
    }

    /** Cut the shown string at its last slash. */
    method CutLast(apath: array<char>, ghost path: CStr, ghost cuts: seq<nat>)
      returns (found: bool, shorter: string, ghost cuts': seq<nat>)
      requires BufferIs(apath[..], path, cuts) && Chain(path, cuts)
      modifies apath
      ensures Visible(path, cuts) <= |path|
      ensures var slash := LastSlash(path[..Visible(path, cuts)]);
              && (found <==> slash >= 0)
              && (found ==> cuts' == cuts + [slash] && shorter == path[..slash] == path[..Visible(path, cuts)][..slash])
      ensures !found ==> cuts' == cuts
      ensures BufferIs(apath[..], path, cuts') && Chain(path, cuts') && Visible(path, cuts') <= |path|
    {
      hide Chain, BufferIs, LastSlash;
      cuts' := cuts;
      var s := LastSlashIn(apath, path, cuts);
      if s < 0 {
        return false, "", cuts;
      }
      CutChain(path, cuts, s);
      ghost var shown := apath[..];
      apath[s] := NUL;
      CutBuffer(shown, apath[..], path, cuts, s);
      cuts' := cuts + [s];
      shorter := Shown(apath, path, cuts');
      found := true;
    }

    /** `strrchr(apath, '/')` on what the buffer shows. */
    method LastSlashIn(apath: array<char>, ghost path: CStr, ghost cuts: seq<nat>) returns (r: int)
      requires BufferIs(apath[..], path, cuts)
      ensures Visible(path, cuts) <= |path| && r == LastSlash(path[..Visible(path, cuts)]) && r < apath.Length
    {
      assert apath[..][|path|] == NUL;
      r := StrRChr(apath);
      ghost var n :| 0 <= n < apath.Length && apath[n] == NUL && (forall j | 0 <= j < n :: apath[j] != NUL) && r == LastSlash(apath[..n]);
      VisibleString(apath[..], path, cuts, n);
      assert apath[..n] == apath[..][..n];
    }
  }

  lemma StartUp(fs: FileSystem, path: CStr)
    requires NeedsAncestors(fs, Split(path))
    ensures Visible(path, []) == |path| && UpState(fs, Split(path), path[..|path|], |Split(path)|) && Chain(path, [])
  {
    var c := Split(path);
    assert c[..|c|] == c && path[..|path|] == path;
  }

  lemma DownIsGrown(fs: FileSystem, grown: FileSystem, c: Components, visible: string, m: nat)
    requires DownState(fs, grown, c, visible, m)
    ensures m <= |c| && grown == Grown(fs, c, m)
  {
  }

  lemma LastCut(path: CStr, cuts: seq<nat>)
    requires Chain(path, cuts) && |cuts| == 1
    ensures LastSlash(path) >= 0 && cuts == [LastSlash(path)] && Visible(path, cuts) == LastSlash(path)
  {
    assert cuts[..0] == [] && path[..|path|] == path;
  }

  lemma ChainShortens(path: CStr, cuts: seq<nat>)
    requires Chain(path, cuts) && cuts != []
    ensures var rest := cuts[..|cuts| - 1];
            Chain(path, rest) && Visible(path, rest) <= |path|
            && Visible(path, cuts) == LastSlash(path[..Visible(path, rest)])
            && path[..Visible(path, rest)][..Visible(path, cuts)] == path[..Visible(path, cuts)]
  {
    var rest := cuts[..|cuts| - 1];
    assert forall k | 0 <= k < |rest| :: rest[..k] == cuts[..k];
  }

  /** The answers of the first `mkdir`: all but ENOENT on a real path are final. */
  lemma FirstAnswer(fs: FileSystem, path: CStr)
    requires WellFormed(fs)
    ensures var e, c := MkdirAnswer(fs, path), Split(path);
            && (path == "" ==> e == ENOENT)
            && (e == EEXIST ==>
                  Result(fs, path) == (if c in fs.dirs then EEXIST else if EndsWithSlash(path) then EIO else ENOTDIR, fs)
                  && (c in fs.dirs || c in fs.files) && path != "")
            && (e != EEXIST && (e != ENOENT || path == "") ==> Result(fs, path) == (e, if e == OK then WithDir(fs, c) else fs))
            && (e == ENOENT && path != "" ==> NeedsAncestors(fs, c))
  {
    hide Reach, Grown, WithDir, Split;
    var e, c := MkdirAnswer(fs, path), Split(path);
    if e == OK || e == EACCES {
      DirectReach(fs, c);
    }
  }

  /** Below an existing parent only the last component is at stake. */
  lemma DirectReach(fs: FileSystem, c: Components)
    requires WellFormed(fs) && c != [] && c !in fs.dirs && c[..|c| - 1] in fs.dirs
    ensures c in fs.denied ==> Reach(fs, c, 0) == |c| - 1 && Grown(fs, c, |c| - 1) == fs
    ensures c !in fs.denied ==> Reach(fs, c, 0) == |c| && Grown(fs, c, |c|) == WithDir(fs, c)
  {
    var m := |c|;
    assert c[..m] == c;
    forall j | 0 <= j <= m - 1
      ensures c[..j] in fs.dirs
    {
      PrefixExists(fs, c, j, m - 1);
    }
    assert (set j | 0 <= j <= m :: c[..j]) == (set j | 0 <= j <= m - 1 :: c[..j]) + {c};
  }

  /** The final `mkdir` of the whole path, once its parent path has been dealt with. */
  lemma LastAnswer(fs: FileSystem, grown: FileSystem, path: CStr, m: nat)
    requires LastSlash(path) >= 0 && DownState(fs, grown, Split(path), path[..LastSlash(path)], m)
    ensures var e := MkdirAnswer(grown, path);
            && Result(fs, path) == (e, if e == OK then WithDir(grown, Split(path)) else grown)
            && (e == EEXIST ==> Split(path) in grown.dirs) && path != ""
  {
    var c := Split(path);
    assert c[..|c|] == c;
    DownStep(fs, grown, c, path, m);
    if !EndsWithSlash(path) {
      SplitLength(c, m + 1);
      GrownStep(fs, c, m);
    } else {
      CutComponents(path);
      SplitLength(c, m);
    }
  }

  lemma SplitLength(c: Components, m: nat)
    requires m <= |c| && c == c[..m]
    ensures m == |c|
  {
  }

  lemma DeniedResult(fs: FileSystem, path: CStr, m: nat)
    ensures NeedsAncestors(fs, Split(path)) && path != "" && m < |Split(path)| && Reach(fs, Split(path), 0) == m
            ==> Result(fs, path) == (EACCES, Grown(fs, Split(path), m))
  {
  }

  lemma CutChain(path: CStr, cuts: seq<nat>, s: nat)
    requires Chain(path, cuts) && Visible(path, cuts) <= |path| && s == LastSlash(path[..Visible(path, cuts)])
    ensures Chain(path, cuts + [s]) && s < Visible(path, cuts) && path[s] == '/'
  {
    var cuts' := cuts + [s];
    assert cuts'[..|cuts|] == cuts;
    assert forall k | 0 <= k < |cuts| :: cuts'[..k] == cuts[..k];
  }

  // ---- What the result means ----

  /** The call succeeds, or reports an existing entry, exactly when the path is a directory afterwards. What it
      adds are prefixes of the path and nothing else, and on success none of them is missing. */
  lemma MkPathExact(fs: FileSystem, path: CStr)
    requires WellFormed(fs) && path != ""
    ensures var (e, fs') := Result(fs, path); var c := Split(path);
            && (e == OK || e == EEXIST <==> c in fs'.dirs)
            && (forall d | d in fs'.dirs && d !in fs.dirs :: d <= c)
            && (c in fs'.dirs ==> forall k | 0 <= k <= |c| :: c[..k] in fs'.dirs)
            && fs.dirs <= fs'.dirs && fs'.files == fs.files
  {
    var c := Split(path);
    assert c[..|c|] == c;
    if c in fs.dirs {
      forall k | 0 <= k <= |c|
        ensures c[..k] in fs.dirs
      {
        PrefixExists(fs, c, k, |c|);
      }
    } else if c !in fs.files && c != [] && !FileAbove(fs, c) {
      var r := Reach(fs, c, 0);
      assert forall k | 0 <= k < |c| :: |c[..k]| != |c|;
    }
  }

  /** A directory that was made is reported as already existing exactly when the path ends with a slash and
      its parent directory had to be made too. */
  lemma TrailingSlashReportsExisting(fs: FileSystem, path: CStr)
    requires WellFormed(fs) && path != ""
    ensures var (e, fs') := Result(fs, path); var c := Split(path);
            (e == EEXIST && c !in fs.dirs) <==>
            (c in fs'.dirs && c !in fs.dirs && EndsWithSlash(path) && c[..|c| - 1] !in fs.dirs)
  {
    MkPathExact(fs, path);
    assert Split(path) == [] ==> [] in fs.dirs;
  }

  /** The tree stays a tree. */
  lemma MkPathKeepsTree(fs: FileSystem, path: CStr)
    requires WellFormed(fs)
    ensures WellFormed(Result(fs, path).1)
  {
    var fs', c := Result(fs, path).1, Split(path);
    if fs' != fs {
      var r := Reach(fs, c, 0);
      forall k | 0 <= k <= r
        ensures c[..k] !in fs.files
      {
        PrefixNotFile(fs, c, k);
      }
      forall d | d in fs'.dirs + fs'.files && d != []
        ensures d[..|d| - 1] in fs'.dirs
      {
        if d in fs.dirs + fs.files {
        } else {
          var k :| 0 <= k <= r && d == c[..k];
          assert d[..|d| - 1] == c[..k - 1];
        }
      }
      assert [] in fs.dirs;
    }
  }
}
