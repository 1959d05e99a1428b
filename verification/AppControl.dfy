/** Application control: binary patterns, and the verdict on a starting process. */
module AppControl {
  import opened CStrings

  // ---- Hexadecimal patterns ----

  /** `x2c`: the value of a hexadecimal digit, 16 for any other character. */
  function X2c(c: char): (r: nat)
    ensures r <= 16
  {
    if '0' <= c <= '9' then c as int - '0' as int
    else if 'a' <= c <= 'f' then c as int - 'a' as int + 10
    else if 'A' <= c <= 'F' then c as int - 'A' as int + 10
    else 16
  }

  /** `(hi << 4) | lo` truncated to a byte; the value 16 only reaches bit 4. */
  function Combine(hi: nat, lo: nat): byte
    requires hi <= 16 && lo <= 16
  {
    var high := hi % 16;
    if lo < 16 then high * 16 + lo else if high % 2 == 1 then high * 16 else high * 16 + 16
  }

  /** The byte of each two digits; an odd last digit is dropped. */
  function Pattern(hex: string): (r: seq<byte>)
    ensures |r| == |hex| / 2
    ensures forall i | 0 <= i < |r| :: r[i] == Combine(X2c(hex[2 * i]), X2c(hex[2 * i + 1]))
  {
    seq(|hex| / 2, i requires 0 <= i < |hex| / 2 => Combine(X2c(hex[2 * i]), X2c(hex[2 * i + 1])))
  }

  /** `hexToBin`: whatever bytes the digits print, they come back. */
  method HexToBin(hex: string) returns (bin: seq<byte>)
    ensures bin == Pattern(hex)
    ensures forall bytes :: Prints(hex, bytes) ==> bin == bytes
  {
    bin := [];
    var index := 0;
    while index < |hex| / 2
      invariant 0 <= index <= |hex| / 2 && |bin| == index
      invariant forall i | 0 <= i < index :: bin[i] == Combine(X2c(hex[2 * i]), X2c(hex[2 * i + 1]))
    {
      bin := bin + [Combine(X2c(hex[index * 2]), X2c(hex[index * 2 + 1]))];
      index := index + 1;
    }
    assert bin == Pattern(hex);
    forall bytes | Prints(hex, bytes)
      ensures bin == bytes
    {
      HexRoundTrip(hex, bytes);
    }
  }

  const LOWER_DIGITS := "0123456789abcdef"
  const UPPER_DIGITS := "0123456789ABCDEF"

  /** `hex` prints `bytes`, each digit in either case. */
  predicate Prints(hex: string, bytes: seq<byte>) {
    && |hex| == 2 * |bytes|
    && forall i | 0 <= i < |bytes| :: IsDigit(hex[2 * i], bytes[i] / 16) && IsDigit(hex[2 * i + 1], bytes[i] % 16)
  }

  predicate IsDigit(c: char, v: int) {
    0 <= v < 16 && (c == LOWER_DIGITS[v] || c == UPPER_DIGITS[v])
  }

  /** Every other character has the value 16. */
  lemma NoDigit(c: char)
    ensures X2c(c) == 16 <==> c !in LOWER_DIGITS && c !in UPPER_DIGITS
  {
    if X2c(c) < 16 {
      assert c == LOWER_DIGITS[X2c(c)] || c == UPPER_DIGITS[X2c(c)];
    }
  }

  lemma DigitValue(c: char, v: int)
    requires IsDigit(c, v)
    ensures X2c(c) == v
  {
  }

  /** Reading back what was printed gives the bytes. */
  lemma HexRoundTrip(hex: string, bytes: seq<byte>)
    requires Prints(hex, bytes)
    ensures Pattern(hex) == bytes
  {
    forall i | 0 <= i < |bytes|
      ensures Pattern(hex)[i] == bytes[i]
    {
      OneByte(hex[2 * i], hex[2 * i + 1], bytes[i]);
    }
  }

  lemma OneByte(hi: char, lo: char, b: byte)
    requires IsDigit(hi, b / 16) && IsDigit(lo, b % 16)
    ensures Combine(X2c(hi), X2c(lo)) == b
  {
    DigitValue(hi, b / 16);
    DigitValue(lo, b % 16);
  }

  // ---- Searching ----

  predicate Occurs(buffer: seq<byte>, pattern: seq<byte>) {
    exists k :: 0 <= k <= |buffer| && MatchesAt(buffer, pattern, k)
  }

  /** The inner `containBinary`: one pointer runs ahead and falls back to one past the start of the attempt. */
  method ContainsInBuffer(buffer: seq<byte>, pattern: seq<byte>) returns (found: bool)
    requires pattern != []
    ensures found <==> Occurs(buffer, pattern)
  {
    var curSize := 0;
    while curSize < |buffer|
      invariant 0 <= curSize <= |buffer|
      invariant forall k | 0 <= k < curSize :: !MatchesAt(buffer, pattern, k)
    {
      ghost var start := curSize;
      var tempPos := 0;
      while curSize < |buffer| && tempPos < |pattern| && buffer[curSize] == pattern[tempPos]
        invariant curSize == start + tempPos <= |buffer| && tempPos <= |pattern|
        invariant forall x | 0 <= x < tempPos :: pattern[x] == buffer[start + x]
        decreases |pattern| - tempPos
      {
        curSize, tempPos := curSize + 1, tempPos + 1;
      }
      if tempPos == |pattern| {
        assert MatchesAt(buffer, pattern, start);
        return true;
      }
      NoAttempt(buffer, pattern, start, tempPos);
      curSize := curSize - tempPos + 1;
    }
    found := false;
  }

  lemma NoAttempt(buffer: seq<byte>, pattern: seq<byte>, start: nat, x: nat)
    requires x < |pattern| && (start + x < |buffer| ==> buffer[start + x] != pattern[x])
    ensures !MatchesAt(buffer, pattern, start)
  {
  }

  const CHUNK_SIZE := 8192

  function Flat(chunks: seq<seq<byte>>): seq<byte> {
    if chunks == [] then [] else Flat(chunks[..|chunks| - 1]) + chunks[|chunks| - 1]
  }

  predicate AnyContains(chunks: seq<seq<byte>>, pattern: seq<byte>) {
    exists i :: 0 <= i < |chunks| && Occurs(chunks[i], pattern)
  }

  /** The file version: every chunk read is searched by itself, until one matches or the file is used up. The
      reads may return less than a full chunk. */
  method ContainsInFile(file: seq<byte>, binData: string) returns (found: bool, chunks: seq<seq<byte>>)
    ensures Flat(chunks) <= file && forall i | 0 <= i < |chunks| :: 1 <= |chunks[i]| <= 8192
    ensures |binData| < 2 ==> !found && chunks == []
    ensures |binData| >= 2 && !found ==> Flat(chunks) == file
    ensures |binData| >= 2 ==>
              (found <==> exists k :: MatchesAt(file, Pattern(binData), k) && InsideOneChunk(chunks, Pattern(binData), k))
  {
    chunks, found := [], false;
    var pattern := HexToBin(binData);
    if pattern == [] {
      return;
    }
    var readSum := 0;
    while readSum < |file| && !found
      invariant 0 <= readSum <= |file| && Flat(chunks) == file[..readSum]
      invariant forall i | 0 <= i < |chunks| :: 1 <= |chunks[i]| <= CHUNK_SIZE
      invariant found <==> AnyContains(chunks, pattern)
      decreases |file| - readSum
    {
      var n: nat :| 1 <= n <= |file| - readSum && n <= CHUNK_SIZE;
      var chunk := file[readSum..readSum + n];
      readSum := readSum + n;
      found := ContainsInBuffer(chunk, pattern);
      ghost var before := chunks;
      chunks := chunks + [chunk];
      assert chunks[..|before|] == before;
      assert file[..readSum] == file[..readSum - n] + chunk;
      AppendedChunk(before, chunk, pattern);
    }
    assert readSum == |file| ==> file[..readSum] == file;
    FoundInFile(file, chunks, pattern);
  }

  /** Inside the chunks read so far, the file and its beginning read so far have the same matches. */
  lemma FoundInFile(file: seq<byte>, chunks: seq<seq<byte>>, pattern: seq<byte>)
    requires Flat(chunks) <= file
    ensures AnyContains(chunks, pattern) <==> exists k :: MatchesAt(file, pattern, k) && InsideOneChunk(chunks, pattern, k)
  {
    ChunkedSearchExact(chunks, pattern);
    var text := Flat(chunks);
    forall k | InsideOneChunk(chunks, pattern, k)
      ensures MatchesAt(file, pattern, k) <==> MatchesAt(text, pattern, k)
    {
      var i :| 0 <= i < |chunks| && Start(chunks, i) <= k && k + |pattern| <= Start(chunks, i) + |chunks[i]|;
      FlatSlice(chunks, i);
      assert forall x | 0 <= x < |text| :: text[x] == file[x];
    }
  }

  lemma AppendedChunk(chunks: seq<seq<byte>>, chunk: seq<byte>, pattern: seq<byte>)
    ensures AnyContains(chunks + [chunk], pattern) <==> AnyContains(chunks, pattern) || Occurs(chunk, pattern)
  {
    var all := chunks + [chunk];
    if AnyContains(chunks, pattern) {
      var i :| 0 <= i < |chunks| && Occurs(chunks[i], pattern);
      assert all[i] == chunks[i];
    }
    if Occurs(chunk, pattern) {
      assert all[|chunks|] == chunk;
    }
  }

  /** The position at which chunk `i` starts. */
  function Start(chunks: seq<seq<byte>>, i: nat): nat
    requires i <= |chunks|
  {
    |Flat(chunks[..i])|
  }

  /** An occurrence lies inside one chunk. */
  predicate InsideOneChunk(chunks: seq<seq<byte>>, pattern: seq<byte>, k: int) {
    exists i :: 0 <= i < |chunks| && Start(chunks, i) <= k && k + |pattern| <= Start(chunks, i) + |chunks[i]|
  }

  lemma {:induction false} FlatSlice(chunks: seq<seq<byte>>, i: nat)
    requires i < |chunks|
    ensures Start(chunks, i) + |chunks[i]| <= |Flat(chunks)|
    ensures Flat(chunks)[Start(chunks, i)..Start(chunks, i) + |chunks[i]|] == chunks[i]
  {
    var n := |chunks| - 1;
    if i < n {
      FlatSlice(chunks[..n], i);
      assert chunks[..n][..i] == chunks[..i];
      var s, e := Start(chunks, i), Start(chunks, i) + |chunks[i]|;
      assert Flat(chunks)[s..e] == Flat(chunks[..n])[s..e];
    } else {
      assert chunks[..i] == chunks[..n];
    }
  }

  lemma MatchInChunk(chunks: seq<seq<byte>>, pattern: seq<byte>, i: nat, j: nat)
    requires i < |chunks| && j + |pattern| <= |chunks[i]|
    ensures MatchesAt(chunks[i], pattern, j) <==> MatchesAt(Flat(chunks), pattern, Start(chunks, i) + j)
  {
    FlatSlice(chunks, i);
    var text, s := Flat(chunks), Start(chunks, i);
    forall x | 0 <= x < |pattern|
      ensures pattern[x] == chunks[i][j + x] <==> pattern[x] == text[s + j + x]
    {
      assert text[s..s + |chunks[i]|][j + x] == text[s + j + x];
    }
    hide Flat, Start;
  }

  /** The chunked search finds a pattern iff some occurrence in the whole text lies inside one chunk: what it
      misses are exactly the patterns all of whose occurrences straddle a chunk boundary. */
  lemma ChunkedSearchExact(chunks: seq<seq<byte>>, pattern: seq<byte>)
    ensures AnyContains(chunks, pattern) <==>
            exists k :: MatchesAt(Flat(chunks), pattern, k) && InsideOneChunk(chunks, pattern, k)
  {
    hide Flat, Start, MatchesAt;
    if AnyContains(chunks, pattern) {
      var i :| 0 <= i < |chunks| && Occurs(chunks[i], pattern);
      var j :| 0 <= j <= |chunks[i]| && MatchesAt(chunks[i], pattern, j);
      MatchFits(chunks[i], pattern, j);
      MatchInChunk(chunks, pattern, i, j);
      assert InsideOneChunk(chunks, pattern, Start(chunks, i) + j);
    }
    if k :| MatchesAt(Flat(chunks), pattern, k) && InsideOneChunk(chunks, pattern, k) {
      var i :| 0 <= i < |chunks| && Start(chunks, i) <= k && k + |pattern| <= Start(chunks, i) + |chunks[i]|;
      MatchInChunk(chunks, pattern, i, k - Start(chunks, i));
      assert Occurs(chunks[i], pattern);
    }
  }

  lemma MatchFits(buffer: seq<byte>, pattern: seq<byte>, j: int)
    requires MatchesAt(buffer, pattern, j)
    ensures 0 <= j && j + |pattern| <= |buffer|
  {
  }

  // ---- Process verdicts ----

  datatype Application = Application(execControl: bool, guid: string, lowerFileName: string, lowerFileExt: string, binData: string)

  predicate IsWindowsExecutable(a: Application) {
    a.lowerFileExt == "exe"
  }

  datatype Config = Config(skipWindowsExecutable: bool, checkFilePath: bool, checkBinary: bool,
                           allowedProcesses: set<string>, allowedFiles: seq<string>)

  datatype ProcessVerdict = Allow | BlockProcessName(guid: string) | BlockFilePath(guid: string) | BlockBinary(guid: string)

  function ToLower(s: string): string {
    seq(|s|, i requires 0 <= i < |s| => Lower(s[i]))
  }

  /** Same characters, letter case aside, for a name that is in lower case. */
  predicate SameName(processName: string, lower: string) {
    |processName| == |lower| && forall i | 0 <= i < |lower| :: Lower(processName[i]) == lower[i]
  }

  predicate IsSameProcessName(a: Application, processName: string): (r: bool)
    ensures r <==> processName != "" && SameName(processName, a.lowerFileName)
  {
    processName != "" && ToLower(processName) == a.lowerFileName
  }

  /** The name of a file is what follows its last slash. */
  ghost predicate IsFileName(path: string, name: string) {
    |name| <= |path| && name == path[|path| - |name|..] && '/' !in name
    && (|name| == |path| || path[|path| - |name| - 1] == '/')
  }
  /** `getFileNameExt` */
  function FileNameExt(path: string): (r: string)
    ensures IsFileName(path, r)
  {
    path[LastSlash(path) + 1..]
  }

  predicate Listed(a: Application, config: Config) {
    a.execControl && (config.skipWindowsExecutable ==> a.lowerFileExt != "exe")
  }

  /** Which listed applications take part in exec control. */
  predicate Considered(a: Application, config: Config): (r: bool)
    ensures r <==> Listed(a, config)
  {
    a.execControl && !(config.skipWindowsExecutable && IsWindowsExecutable(a))
  }

  function FirstHit(list: seq<Application>, config: Config, hit: Application -> bool): Option<string> {
    if list == [] then None
    else if Considered(list[0], config) && hit(list[0]) then Some(list[0].guid)
    else FirstHit(list[1..], config, hit)
  }

  ghost predicate InAllowedList(config: Config, path: string, processName: string) {
    processName in config.allowedProcesses
    || exists i, k :: 0 <= i < |config.allowedFiles| && MatchesAt(path, config.allowedFiles[i], k)
  }

  /** The verdict of the full scan, with no look at the counters. `hasBinary` tells which applications' pattern
      the file contains. */
  ghost function FullScan(list: seq<Application>, config: Config, path: string, processName: string,
                    hasBinary: Application -> bool): ProcessVerdict
  {
    var byName := FirstHit(list, config, a => IsSameProcessName(a, processName));
    var byPath := FirstHit(list, config, a => IsSameProcessName(a, FileNameExt(path)));
    var byBinary := FirstHit(list, config, hasBinary);
    if InAllowedList(config, path, processName) then Allow
    else if byName.Some? then BlockProcessName(byName.value)
    else if config.checkFilePath && path != "" && byPath.Some? then BlockFilePath(byPath.value)
    else if config.checkBinary && byBinary.Some? then BlockBinary(byBinary.value)
    else Allow
  }

  /** The application at `i` is the first one under exec control, a Windows executable only if these are not skipped,
      that `hit` holds for. */
  ghost predicate FirstAt(list: seq<Application>, config: Config, hit: Application -> bool, i: nat) {
    && i < |list| && Listed(list[i], config) && hit(list[i])
    && forall j | 0 <= j < i :: !(Listed(list[j], config) && hit(list[j]))
  }

  ghost predicate SomeListed(list: seq<Application>, config: Config, hit: Application -> bool) {
    exists i :: 0 <= i < |list| && Listed(list[i], config) && hit(list[i])
  }

  /** `guid` is that of the first such application. */
  ghost predicate FirstGuid(list: seq<Application>, config: Config, hit: Application -> bool, guid: string) {
    exists i: nat :: FirstAt(list, config, hit, i) && list[i].guid == guid
  }

  lemma {:induction false} FirstHitExactly(list: seq<Application>, config: Config, hit: Application -> bool)
    ensures FirstHit(list, config, hit).Some? <==> SomeListed(list, config, hit)
    ensures FirstHit(list, config, hit).Some? ==> FirstGuid(list, config, hit, FirstHit(list, config, hit).value)
  {
    if list != [] {
      var rest := list[1..];
      FirstHitExactly(rest, config, hit);
      if Listed(list[0], config) && hit(list[0]) {
        assert FirstAt(list, config, hit, 0);
      } else {
        if FirstHit(rest, config, hit).Some? {
          var i: nat :| FirstAt(rest, config, hit, i) && rest[i].guid == FirstHit(rest, config, hit).value;
          assert FirstAt(list, config, hit, i + 1);
        }
        if SomeListed(list, config, hit) {
          var i :| 0 <= i < |list| && Listed(list[i], config) && hit(list[i]);
          assert rest[i - 1] == list[i];
        }
      }
    }
  }

  /** The verdict by what it takes: nothing on the allowed lists is blocked; then the process name decides, then, if
      asked for, the name of the file, then, if asked for, its contents, each by the first application that it
      hits. */
  ghost predicate RightVerdict(v: ProcessVerdict, allowed: bool, list: seq<Application>, config: Config, path: string,
                               byName: Application -> bool, byPath: Application -> bool, byBinary: Application -> bool)
  {
    var name, file := SomeListed(list, config, byName), config.checkFilePath && path != "" && SomeListed(list, config, byPath);
    var binary := config.checkBinary && SomeListed(list, config, byBinary);
    match v
    case Allow => allowed || (!name && !file && !binary)
    case BlockProcessName(guid) => !allowed && name && FirstGuid(list, config, byName, guid)
    case BlockFilePath(guid) => !allowed && !name && file && FirstGuid(list, config, byPath, guid)
    case BlockBinary(guid) => !allowed && !name && !file && binary && FirstGuid(list, config, byBinary, guid)
  }

  ghost predicate IsPart(file: string, path: string) {
    exists front: string, back: string :: path == front + file + back
  }

  /** A process is on the allowed lists by its name, or by a listed file name that is part of its path. */
  lemma AllowedExactly(config: Config, path: string, processName: string)
    ensures InAllowedList(config, path, processName) <==>
            processName in config.allowedProcesses || exists file :: file in config.allowedFiles && IsPart(file, path)
  {
    forall file
      ensures IsPart(file, path) <==> exists k :: MatchesAt(path, file, k)
    {
      PartMatches(file, path);
    }
    if i, k :| 0 <= i < |config.allowedFiles| && MatchesAt(path, config.allowedFiles[i], k) {
      assert IsPart(config.allowedFiles[i], path);
    }
    hide IsPart, MatchesAt;
  }

  lemma PartMatches(file: string, path: string)
    ensures IsPart(file, path) <==> exists k :: MatchesAt(path, file, k)
  {
    if front: string, back: string :| path == front + file + back {
      assert MatchesAt(path, file, |front|);
    }
    if k :| MatchesAt(path, file, k) {
      assert path[k..k + |file|] == file;
      assert path == path[..k] + file + path[k + |file|..];
    }
  }

  lemma VerdictExactly(list: seq<Application>, config: Config, path: string, processName: string, hasBinary: Application -> bool)
    ensures RightVerdict(FullScan(list, config, path, processName, hasBinary), InAllowedList(config, path, processName),
                         list, config, path, a => IsSameProcessName(a, processName), a => IsSameProcessName(a, FileNameExt(path)),
                         hasBinary)
  {
    hide FirstHit, FirstGuid, SomeListed, InAllowedList, IsSameProcessName, FileNameExt;
    FirstHitExactly(list, config, a => IsSameProcessName(a, processName));
    FirstHitExactly(list, config, a => IsSameProcessName(a, FileNameExt(path)));
    FirstHitExactly(list, config, hasBinary);
  }

  function CountExec(list: seq<Application>): nat {
    if list == [] then 0
    else CountExec(list[..|list| - 1]) + if list[|list| - 1].execControl then 1 else 0
  }

  function CountExecWindows(list: seq<Application>): nat {
    if list == [] then 0
    else CountExecWindows(list[..|list| - 1])
         + if list[|list| - 1].execControl && IsWindowsExecutable(list[|list| - 1]) then 1 else 0
  }

  lemma {:induction false} CountsBound(list: seq<Application>)
    ensures CountExecWindows(list) <= CountExec(list)
    ensures CountExec(list) == 0 ==> forall i | 0 <= i < |list| :: !list[i].execControl
    ensures CountExec(list) == CountExecWindows(list) ==>
              forall i | 0 <= i < |list| :: list[i].execControl ==> IsWindowsExecutable(list[i])
  {
    if list != [] {
      CountsBound(list[..|list| - 1]);
    }
  }

  lemma {:induction false} NoHit(list: seq<Application>, config: Config, hit: Application -> bool)
    requires forall i | 0 <= i < |list| :: !Considered(list[i], config)
    ensures FirstHit(list, config, hit).None?
  {
    if list != [] {
      NoHit(list[1..], config, hit);
    }
  }

  /** The positions of the Windows executables. */
  ghost function WindowsIn(list: seq<Application>): set<int> {
    set i | 0 <= i < |list| && list[i].lowerFileExt == "exe"
  }

  lemma OneMoreWindows(list: seq<Application>, a: Application)
    ensures |WindowsIn(list + [a])| == |WindowsIn(list)| + if a.lowerFileExt == "exe" then 1 else 0
  {
    assert WindowsIn(list + [a]) == WindowsIn(list) + if a.lowerFileExt == "exe" then {|list|} else {};
  }

  class ApplicationPolicy {
    var list: seq<Application>
    var controlCount: int
    var controlWindowsExecutableCount: int

    /** The counters are the true counts of the list. */
    ghost predicate Valid()
      reads this
    {
      controlCount == CountExec(list) && controlWindowsExecutableCount == CountExecWindows(list)
    }

    constructor ()
      ensures Valid() && list == []
    {
      list, controlCount, controlWindowsExecutableCount := [], 0, 0;
    }

    /** `parsePolicyInfo`: the exec-control entries, then the file-open entries. */
    method ParsePolicyInfo(exec: seq<Application>, fileOpen: seq<Application>)
      requires forall i | 0 <= i < |exec| :: exec[i].execControl
      requires forall i | 0 <= i < |fileOpen| :: !fileOpen[i].execControl
      modifies this
      ensures Valid() && list == exec + fileOpen
      ensures controlCount == |exec| && controlWindowsExecutableCount == |WindowsIn(exec)|
    {
      list, controlCount, controlWindowsExecutableCount := [], 0, 0;
      ParseExecControl(exec);
      ParseFileOpen(fileOpen);
    }

    method ParseExecControl(exec: seq<Application>)
      requires Valid() && list == [] && forall i | 0 <= i < |exec| :: exec[i].execControl
      modifies this
      ensures Valid() && list == exec
      ensures controlCount == |exec| && controlWindowsExecutableCount == |WindowsIn(exec)|
    {
      var i := 0;
      assert WindowsIn(exec[..0]) == {};
      while i < |exec|
        invariant 0 <= i <= |exec| && list == exec[..i] && Valid()
        invariant controlCount == i && controlWindowsExecutableCount == |WindowsIn(exec[..i])|
      {
        ghost var before := list;
        list := list + [exec[i]];
        assert list[..|before|] == before;
        OneMoreWindows(exec[..i], exec[i]);
        assert exec[..i + 1] == exec[..i] + [exec[i]];
        controlCount := controlCount + 1;
        if IsWindowsExecutable(exec[i]) {
          controlWindowsExecutableCount := controlWindowsExecutableCount + 1;
        }
        i := i + 1;
      }
      assert exec[..i] == exec;
      hide WindowsIn;
    }

    method ParseFileOpen(fileOpen: seq<Application>)
      requires Valid() && forall i | 0 <= i < |fileOpen| :: !fileOpen[i].execControl
      modifies this`list
      ensures Valid() && list == old(list) + fileOpen
    {
      var i := 0;
      while i < |fileOpen|
        invariant 0 <= i <= |fileOpen| && list == old(list) + fileOpen[..i] && Valid()
      {
        ghost var before := list;
        list := list + [fileOpen[i]];
        assert list[..|before|] == before;
        i := i + 1;
      }
    }

    predicate IsControlApplicationEmpty()
      reads this
    {
      controlCount == 0
    }

    predicate IsControlApplicationNonWindowsExecutableEmpty()
      reads this
    {
      IsControlApplicationEmpty() || controlCount - controlWindowsExecutableCount <= 0
    }

    /** The scan shared by the three blocking tests. */
    method Scan(config: Config, hit: Application -> bool) returns (r: Option<string>)
      ensures r == FirstHit(list, config, hit)
    {
      var pos := 0;
      while pos < |list|
        invariant 0 <= pos <= |list| && FirstHit(list, config, hit) == FirstHit(list[pos..], config, hit)
      {
        if list[pos].execControl && !(config.skipWindowsExecutable && IsWindowsExecutable(list[pos])) && hit(list[pos]) {
          return Some(list[pos].guid);
        }
        pos := pos + 1;
      }
      r := None;
    }

    /** `isProcessAllow`: the emptiness shortcuts never change the verdict of the full scan. */
    method IsProcessAllow(config: Config, path: string, processName: string, allowedListed: bool, hasBinary: Application -> bool)
      returns (verdict: ProcessVerdict)
      requires Valid() && allowedListed == InAllowedList(config, path, processName)
      ensures verdict == FullScan(list, config, path, processName, hasBinary)
    {
      if (if config.skipWindowsExecutable then IsControlApplicationNonWindowsExecutableEmpty() else IsControlApplicationEmpty()) {
        CountsBound(list);
        NoHit(list, config, a => IsSameProcessName(a, processName));
        NoHit(list, config, a => IsSameProcessName(a, FileNameExt(path)));
        NoHit(list, config, hasBinary);
        return Allow;
      }
      if allowedListed {
        return Allow;
      }
      var byName := Scan(config, a => IsSameProcessName(a, processName));
      if byName.Some? {
        return BlockProcessName(byName.value);
      }
      if config.checkFilePath && path != "" {
        var byPath := Scan(config, a => IsSameProcessName(a, FileNameExt(path)));
        if byPath.Some? {
          return BlockFilePath(byPath.value);
        }
      }
      if config.checkBinary {
        var byBinary := Scan(config, hasBinary);
        if byBinary.Some? {
          return BlockBinary(byBinary.value);
        }
      }
      verdict := Allow;
    }
  }
}
