/** The buffered line reader for the CUPS configuration file. */
module CupsReader {
  import opened CStrings

  const BUFFER_SIZE := 4096

  /** One line taken from the front of a text when `room` characters fit the line buffer: the line without its
      terminator, and how many characters were consumed. A full buffer leaves the rest for the next call. */
  function GetLine(text: string, room: nat): (r: (string, nat))
    ensures r.1 <= |text| && |r.0| <= room && |r.0| <= r.1
    ensures room > 0 && text != "" ==> r.1 > 0
  {
    if room == 0 || text == "" then ("", 0)
    else if text[0] == '\r' then ("", if 1 < |text| && text[1] == '\n' then 2 else 1)
    else if text[0] == '\n' then ("", 1)
    else
      var (line, n) := GetLine(text[1..], room - 1);
      ([text[0]] + line, n + 1)
  }

  function Prepend(front: string, r: (string, nat)): (string, nat) {
    (front + r.0, |front| + r.1)
  }

  lemma GetLineStep(front: string, text: string, room: nat)
    ensures Prepend("", GetLine(text, room)) == GetLine(text, room)
    ensures room == 0 || text == "" ==> Prepend(front, GetLine(text, room)) == (front, |front|)
    ensures room > 0 && text != "" ==>
              Prepend(front, GetLine(text, room)) ==
              if text[0] == '\r' then (front, |front| + if 1 < |text| && text[1] == '\n' then 2 else 1)
              else if text[0] == '\n' then (front, |front| + 1)
              else Prepend(front + [text[0]], GetLine(text[1..], room - 1))
  {
    assert front + "" == front && "" + GetLine(text, room).0 == GetLine(text, room).0;
    if room > 0 && text != "" && text[0] != '\r' && text[0] != '\n' {
      var (line, n) := GetLine(text[1..], room - 1);
      assert front + ([text[0]] + line) == (front + [text[0]]) + line;
    }
  }

  /** The lines of a text, with at most `room` characters each. */
  function Lines(text: string, room: nat): seq<string>
    requires room > 0
    decreases |text|
  {
    if text == "" then []
    else
      var (line, n) := GetLine(text, room);
      [line] + Lines(text[n..], room)
  }

  lemma LinesStep(text: string, room: nat)
    requires room > 0
    ensures text == "" ==> Lines(text, room) == []
    ensures text != "" ==> Lines(text, room) == [GetLine(text, room).0] + Lines(text[GetLine(text, room).1..], room)
  {
  }

  class CupsFile {
    const content: string
    const buf: array<char>
    var read: nat      // how much of the file was read so far
    var ptr: nat
    var end: nat
    var pos: nat
    var bufpos: nat
    var eof: bool

    ghost predicate Valid()
      reads this, buf
    {
      && buf.Length == BUFFER_SIZE && ptr <= end <= BUFFER_SIZE
      && bufpos + end == read <= |content|
      && bufpos + ptr == pos
      && buf[..end] == content[bufpos..read]
    }

    /** What the caller has not been given yet. */
    function Rest(): string
      reads this
    {
      if pos <= |content| then content[pos..] else ""
    }

    constructor (content: string)
      ensures Valid() && this.content == content && pos == 0 && fresh(buf)
    {
      this.content := content;
      buf := new char[BUFFER_SIZE];
      read, ptr, end, pos, bufpos, eof := 0, 0, 0, 0, 0, false;
    }

    /** `cups_read`: up to a buffer full, at least one byte unless the file is exhausted. */
    method Read() returns (bytes: nat)
      requires Valid() && ptr == end
      modifies this`read, buf
      ensures bytes <= BUFFER_SIZE && read == old(read) + bytes <= |content|
      ensures bytes == 0 <==> old(read) == |content|
      ensures buf[..bytes] == content[old(read)..read]
    {
      var left := |content| - read;
      if left == 0 {
        return 0;
      }
      var n: nat :| 1 <= n <= left && n <= BUFFER_SIZE;
      bytes := n;
      forall i | 0 <= i < bytes {
        buf[i] := content[read + i];
      }
      read := read + bytes;
    }

    /** `cups_fill` */
    method Fill() returns (bytes: nat)
      requires Valid() && ptr == end
      modifies this, buf
      ensures Valid() && pos == old(pos)
      ensures bytes == 0 <==> pos == |content|
      ensures bytes > 0 ==> ptr == 0 < end
      ensures bytes == 0 ==> ptr == end
    {
      var loaded := end;
      bytes := Read();
      bufpos := bufpos + loaded;
      if bytes == 0 {
        eof, ptr, end := true, 0, 0;
      } else {
        eof, ptr, end := false, 0, bytes;
      }
    }

    /** Fill the buffer if it is used up, and take one character. */
    method NextChar() returns (more: bool, ch: char)
      requires Valid()
      modifies this, buf
      ensures Valid()
      ensures more <==> old(Rest()) != ""
      ensures more ==> ch == old(Rest())[0] && pos == old(pos) + 1 && Rest() == old(Rest())[1..]
      ensures !more ==> pos == old(pos)
    {
      if ptr >= end {
        var bytes := Fill();
        if bytes == 0 {
          return false, NUL;
        }
      }
      assert buf[ptr] == buf[..end][ptr] == content[pos];
      more, ch := true, buf[ptr];
      ptr, pos := ptr + 1, pos + 1;
    }

    /** After a carriage return: take the line feed that belongs to it, if any. */
    method SkipLineFeed()
      requires Valid()
      modifies this, buf
      ensures Valid()
      ensures pos == old(pos) + if old(Rest()) != "" && old(Rest())[0] == '\n' then 1 else 0
    {
      if ptr >= end {
        var bytes := Fill();
        if bytes == 0 {
          return;
        }
      }
      assert buf[ptr] == buf[..end][ptr] == content[pos];
      if buf[ptr] == '\n' {
        ptr, pos := ptr + 1, pos + 1;
      }
    }

    /** `cupsFileGetsESF`: None at the end of the file or for a buffer too small to hold anything. */
    method Gets(buflen: nat) returns (line: Option<string>)
      requires Valid()
      modifies this, buf
      ensures Valid()
      ensures buflen < 2 || old(Rest()) == "" ==> line.None? && pos == old(pos)
      ensures buflen >= 2 && old(Rest()) != "" ==>
                var (text, n) := GetLine(old(Rest()), buflen - 1);
                line == Some(text) && pos == old(pos) + n
    {
      hide GetLine, Prepend, Valid, Rest;
      line := None;
      if buflen >= 2 {
        line := GetsText(buflen);
      }
    }

    /** The loop over the characters. */
    method GetsText(buflen: nat) returns (line: Option<string>)
      requires Valid() && buflen >= 2
      modifies this, buf
      ensures Valid()
      ensures old(Rest()) == "" ==> line.None? && pos == old(pos)
      ensures old(Rest()) != "" ==>
                line == Some(GetLine(old(Rest()), buflen - 1).0) && pos == old(pos) + GetLine(old(Rest()), buflen - 1).1
    {
      hide GetLine, Prepend, Valid, Rest;
      ghost var all, start := Rest(), pos;
      GetLineStep("", all, buflen - 1);
      var text := "";
      while |text| < buflen - 1
        invariant Valid() && |text| <= buflen - 1 && pos == start + |text|
        invariant GetLine(all, buflen - 1) == Prepend(text, GetLine(Rest(), buflen - 1 - |text|))
        invariant text == "" ==> Rest() == all
        invariant text != "" ==> all != ""
        decreases buflen - |text|
      {
        ghost var rest := Rest();
        GetLineStep(text, rest, buflen - 1 - |text|);
        var more, ch := NextChar();
        if !more {
          line := if text == "" then None else Some(text);
          return;
        }
        if ch == '\r' {
          assert 1 < |rest| ==> rest[1..][0] == rest[1];
          SkipLineFeed();
          return Some(text);
        } else if ch == '\n' {
          return Some(text);
        }
        text := text + [ch];
      }
      GetLineStep(text, Rest(), 0);
      line := Some(text);
    }

    /** Reading a file line by line, as its user does. */
    method AllLines(buflen: nat) returns (lines: seq<string>)
      requires Valid() && buflen >= 2
      modifies this, buf
      ensures Valid() && pos == |content|
      ensures lines == Lines(old(Rest()), buflen - 1)
    {
      hide GetLine, Lines;
      lines := [];
      var line := Gets(buflen);
      ghost var all := old(Rest());
      ghost var before := all;
      while line.Some?
        invariant Valid()
        invariant before == "" <==> line.None?
        invariant Lines(all, buflen - 1) == lines + Lines(before, buflen - 1)
        invariant line.Some? ==> line.value == GetLine(before, buflen - 1).0 && Rest() == before[GetLine(before, buflen - 1).1..]
        invariant line.None? ==> Rest() == ""
        decreases |before|
      {
        LinesStep(before, buflen - 1);
        lines := lines + [line.value];
        before := Rest();
        line := Gets(buflen);
      }
      LinesStep(before, buflen - 1);
    }
  }

  // ---- The splitter against the lines a text was written from ----

  datatype Ending = LF | CR | CRLF

  function Text(e: Ending): string {
    match e
    case LF => "\n"
    case CR => "\r"
    case CRLF => "\r\n"
  }

  datatype Line = Line(text: string, ending: Ending)

  function Joined(lines: seq<Line>): string {
    if lines == [] then "" else lines[0].text + Text(lines[0].ending) + Joined(lines[1..])
  }

  function Texts(lines: seq<Line>): seq<string> {
    if lines == [] then [] else [lines[0].text] + Texts(lines[1..])
  }

  /** A text without a terminator. */
  predicate Unbroken(text: string) {
    forall i | 0 <= i < |text| :: text[i] != '\r' && text[i] != '\n'
  }

  predicate AllUnbroken(lines: seq<Line>) {
    forall i | 0 <= i < |lines| :: Unbroken(lines[i].text)
  }

  /** Every text consists of such lines and a rest without a terminator. */
  lemma {:induction false} EveryTextHasLines(text: string) returns (lines: seq<Line>, tail: string)
    ensures AllUnbroken(lines) && Unbroken(tail) && text == Joined(lines) + tail
  {
    if text == "" {
      lines, tail := [], "";
    } else {
      var ls, t := EveryTextHasLines(text[1..]);
      lines, tail := WithCharacter(text[0], ls, t);
      assert text == [text[0]] + text[1..];
    }
    hide Joined;
  }

  lemma WithCharacter(c: char, ls: seq<Line>, t: string) returns (lines: seq<Line>, tail: string)
    requires AllUnbroken(ls) && Unbroken(t)
    ensures AllUnbroken(lines) && Unbroken(tail) && Joined(lines) + tail == [c] + (Joined(ls) + t)
  {
    hide Text;
    tail := t;
    if c == '\n' || c == '\r' {
      var l := Line("", if c == '\n' then LF else CR);
      lines := [l] + ls;
      JoinedCons(l, ls);
      OneTerminator(c);
      assert "" + [c] + Joined(ls) + t == [c] + (Joined(ls) + t);
    } else if ls == [] {
      lines, tail := [], [c] + t;
      assert Joined([]) + tail == [c] + (Joined([]) + t);
    } else {
      var l := Line([c] + ls[0].text, ls[0].ending);
      lines := [l] + ls[1..];
      JoinedCons(l, ls[1..]);
      Regroup([c], ls[0].text, Text(l.ending), Joined(ls[1..]), t);
    }
    hide Joined;
  }

  lemma JoinedCons(l: Line, ls: seq<Line>)
    ensures Joined([l] + ls) == l.text + Text(l.ending) + Joined(ls)
  {
    assert ([l] + ls)[1..] == ls;
  }

  lemma OneTerminator(c: char)
    requires c == '\n' || c == '\r'
    ensures Text(if c == '\n' then LF else CR) == [c]
  {
  }

  lemma Regroup(c: string, text: string, ending: string, more: string, t: string)
    ensures (c + text) + ending + more + t == c + ((text + ending + more) + t)
  {
  }

  /** What a terminated line is read as: pieces that fill the buffer, then what is left over, even if that is nothing. */
  function Pieces(text: string, room: nat): (r: seq<string>)
    requires room > 0
    ensures |r| >= 1 && r[0] == if |text| < room then text else text[..room]
  {
    if |text| < room then [text] else [text[..room]] + Pieces(text[room..], room)
  }

  /** What is read of a rest that no terminator follows. */
  function TailPieces(text: string, room: nat): seq<string>
    requires room > 0
  {
    if text == "" then [] else if |text| <= room then [text] else [text[..room]] + TailPieces(text[room..], room)
  }

  /** A carriage return, then an empty line ended by a line feed: the two read as one CR LF. */
  predicate Fuses(lines: seq<Line>, i: nat) {
    i + 1 < |lines| && lines[i].ending == CR && lines[i + 1] == Line("", LF)
  }

  /** The lines as read back: each in its pieces, and a fused pair counts once. */
  function Merged(lines: seq<Line>, room: nat): seq<string>
    requires room > 0
  {
    if lines == [] then []
    else Pieces(lines[0].text, room) + Merged(lines[if Fuses(lines, 0) then 2 else 1..], room)
  }

  lemma {:induction false} GetPlain(text: string, rest: string, room: nat)
    requires Unbroken(text) && |text| < room && rest != "" && (rest[0] == '\r' || rest[0] == '\n')
    ensures GetLine(text + rest, room) ==
            (text, |text| + if rest[0] == '\r' && 1 < |rest| && rest[1] == '\n' then 2 else 1)
  {
    if text == "" {
      assert text + rest == rest;
    } else {
      GetPlain(text[1..], rest, room - 1);
      assert (text + rest)[1..] == text[1..] + rest && (text + rest)[0] == text[0];
      assert [text[0]] + text[1..] == text;
    }
  }

  lemma {:induction false} GetFull(text: string, rest: string, room: nat)
    requires Unbroken(text) && (room <= |text| || rest == "")
    ensures GetLine(text + rest, room) == if room <= |text| then (text[..room], room) else (text, |text|)
  {
    if room > 0 && text != "" {
      GetFull(text[1..], rest, room - 1);
      assert (text + rest)[1..] == text[1..] + rest && (text + rest)[0] == text[0];
      assert [text[0]] + text[1..] == text;
      assert room <= |text| ==> [text[0]] + text[1..][..room - 1] == text[..room];
    }
  }

  lemma {:induction false} ReadLine(text: string, rest: string, room: nat)
    requires room > 0 && Unbroken(text) && rest != "" && (rest[0] == '\r' || rest[0] == '\n')
    ensures Lines(text + rest, room)
         == Pieces(text, room) + Lines(rest[if rest[0] == '\r' && 1 < |rest| && rest[1] == '\n' then 2 else 1..], room)
  {
    hide GetLine, Lines;
    var all, k := text + rest, if rest[0] == '\r' && 1 < |rest| && rest[1] == '\n' then 2 else 1;
    LinesStep(all, room);
    if |text| < room {
      GetPlain(text, rest, room);
      assert all[|text| + k..] == rest[k..];
    } else {
      GetFull(text, rest, room);
      ReadLine(text[room..], rest, room);
      assert all[room..] == text[room..] + rest;
    }
  }

  lemma {:induction false} ReadTail(tail: string, room: nat)
    requires room > 0 && Unbroken(tail)
    ensures Lines(tail, room) == TailPieces(tail, room)
  {
    hide GetLine, Lines;
    LinesStep(tail, room);
    if tail != "" {
      GetFull(tail, "", room);
      assert tail + "" == tail;
      if |tail| <= room {
        LinesStep(tail[|tail|..], room);
      } else {
        ReadTail(tail[room..], room);
      }
    }
  }

  /** Whether a line feed comes next. */
  lemma JoinedStarts(lines: seq<Line>, tail: string)
    requires AllUnbroken(lines) && Unbroken(tail)
    ensures Joined(lines) + tail != "" && (Joined(lines) + tail)[0] == '\n' <==> lines != [] && lines[0] == Line("", LF)
  {
  }

  lemma SplitFirst(lines: seq<Line>, tail: string)
    requires lines != []
    ensures Joined(lines) + tail == lines[0].text + (Text(lines[0].ending) + (Joined(lines[1..]) + tail))
  {
  }

  /** What follows a terminator: a line feed there belongs to a carriage return. */
  lemma AfterEnding(e: Ending, more: string)
    ensures var rest := Text(e) + more;
            && rest != "" && (rest[0] == '\r' || rest[0] == '\n')
            && rest[if rest[0] == '\r' && 1 < |rest| && rest[1] == '\n' then 2 else 1..]
               == if e == CR && more != "" && more[0] == '\n' then more[1..] else more
  {
  }

  lemma ThreeParts(a: seq<string>, b: seq<string>, c: seq<string>)
    ensures a + (b + c) == (a + b) + c
  {
  }

  lemma AfterEmptyLine(lines: seq<Line>, tail: string)
    requires lines != [] && lines[0] == Line("", LF)
    ensures (Joined(lines) + tail)[1..] == Joined(lines[1..]) + tail
  {
    SplitFirst(lines, tail);
  }

  /** What is read of any text: the lines in their pieces, fused where a line feed follows a carriage return. */
  lemma {:induction false} LinesMerged(lines: seq<Line>, tail: string, room: nat)
    requires room > 0 && AllUnbroken(lines) && Unbroken(tail)
    ensures Lines(Joined(lines) + tail, room) == Merged(lines, room) + TailPieces(tail, room)
    decreases |lines|
  {
    hide Lines, Pieces, TailPieces, Joined, Text, Unbroken, AllUnbroken;
    RestUnbroken(lines);
    if lines == [] {
      ReadTail(tail, room);
      NothingJoined(tail);
    } else {
      var more := Joined(lines[1..]) + tail;
      SplitFirst(lines, tail);
      AfterEnding(lines[0].ending, more);
      ReadLine(lines[0].text, Text(lines[0].ending) + more, room);
      JoinedStarts(lines[1..], tail);
      var rest := lines[if Fuses(lines, 0) then 2 else 1..];
      if Fuses(lines, 0) {
        AfterEmptyLine(lines[1..], tail);
        assert lines[1..][1..] == lines[2..];
      }
      LinesMerged(rest, tail, room);
      ThreeParts(Pieces(lines[0].text, room), Merged(rest, room), TailPieces(tail, room));
    }
  }

  lemma RestUnbroken(lines: seq<Line>)
    requires AllUnbroken(lines)
    ensures lines != [] ==> Unbroken(lines[0].text) && AllUnbroken(lines[1..])
    ensures |lines| >= 2 ==> AllUnbroken(lines[2..])
  {
  }

  lemma NothingJoined(tail: string)
    ensures Joined([]) + tail == tail
  {
  }

  // ---- When the lines come back as they were ----

  /** Whether the lines come back, when an empty line more than was written is `owed` so far. A line that fills the
      buffer is read with an empty one behind it. Nothing but empty lines may follow until a fused pair, which is
      read as one line, makes up for it; and no pair may fuse otherwise. */
  predicate ReadsBack(lines: seq<Line>, room: nat, owed: bool) {
    if lines == [] then !owed
    else
      var n := |lines[0].text|;
      && (if owed then n == 0 else n <= room)
      && if Fuses(lines, 0) then (owed || n == room) && ReadsBack(lines[2..], room, false)
         else ReadsBack(lines[1..], room, owed || n == room)
  }

  function Blank(k: nat): (r: seq<string>)
    ensures |r| == k
  {
    seq(k, _ => "")
  }

  lemma BlankShift(k: nat, xs: seq<string>)
    ensures Blank(k) + ([""] + xs) == [""] + (Blank(k) + xs) == Blank(k + 1) + xs
  {
  }

  lemma BlankFirst(k: nat, xs: seq<string>, ys: seq<string>)
    requires k > 0 && ys != [] ==> ys[0] != ""
    ensures k > 0 ==> ys != Blank(k) + xs
  {
    assert k > 0 ==> (Blank(k) + xs)[0] == "";
  }

  /** Once a fused pair has swallowed a line, no later line makes up for it. */
  lemma {:induction false} NeverCaughtUp(lines: seq<Line>, room: nat, k: nat)
    requires room > 0 && k > 0
    ensures Merged(lines, room) != Blank(k) + Texts(lines)
    decreases |lines|
  {
    hide Blank;
    if lines != [] && lines[0].text == "" {
      var rest := lines[if Fuses(lines, 0) then 2 else 1..];
      assert Merged(lines, room) == [""] + Merged(rest, room);
      NeverCaughtUp(rest, room, if Fuses(lines, 0) then k + 1 else k);
      assert Fuses(lines, 0) ==> lines[1..][1..] == lines[2..];
      BlankShift(k, Texts(lines[1..]));
      BlankShift(k, Texts(rest));
      Behead("", Merged(rest, room), Blank(k) + Texts(lines[1..]));
    } else {
      BlankFirst(k, Texts(lines), Merged(lines, room));
    }
  }

  lemma Behead(first: string, a: seq<string>, b: seq<string>)
    ensures [first] + a == [first] + b <==> a == b
  {
    assert ([first] + a)[1..] == a && ([first] + b)[1..] == b;
  }

  lemma {:induction false} ReadsBackExact(lines: seq<Line>, room: nat)
    requires room > 0
    ensures Merged(lines, room) == Texts(lines) <==> ReadsBack(lines, room, false)
    ensures [""] + Merged(lines, room) == Texts(lines) <==> ReadsBack(lines, room, true)
    decreases |lines|
  {
    if lines != [] {
      var text, rest := lines[0].text, lines[if Fuses(lines, 0) then 2 else 1..];
      ReadsBackExact(rest, room);
      assert Fuses(lines, 0) ==> lines[1..][1..] == lines[2..];
      var texts := if Fuses(lines, 0) then [""] + Texts(rest) else Texts(rest);
      assert Texts(lines) == [text] + texts;
      FirstPiece(text, Merged(rest, room), texts, room);
      Behead("", Merged(rest, room), Texts(rest));
      if Fuses(lines, 0) {
        NeverCaughtUp(rest, room, 1);
        assert Blank(1) == [""];
      }
      hide Texts;
    }
  }

  /** The pieces of one line and what is read behind them, against the line and what was written behind it. */
  lemma FirstPiece(text: string, read: seq<string>, written: seq<string>, room: nat)
    requires room > 0
    ensures Pieces(text, room) + read == [text] + written <==>
            (|text| < room && read == written) || (|text| == room && [""] + read == written)
    ensures [""] + (Pieces(text, room) + read) == [text] + written <==> text == "" && [""] + read == written
  {
    var all := Pieces(text, room) + read;
    assert all[0] == Pieces(text, room)[0];
    if |text| < room {
      Behead(text, read, written);
    } else if |text| == room {
      assert text[..room] == text && text[room..] == "";
      assert all == [text] + ([""] + read);
      Behead(text, [""] + read, written);
    } else {
      assert |all[0]| == room != |([text] + written)[0]|;
    }
    if text == "" {
      Behead("", [""] + read, written);
      assert [""] + all == [""] + ([""] + read);
    } else {
      assert ([""] + all)[0] == "" != ([text] + written)[0];
    }
  }

  /** Lines are read back exactly, whichever of the three endings each of them has and however long they are, iff
      they pass that check. */
  lemma ReadBackExact(lines: seq<Line>, buflen: nat)
    requires buflen >= 2 && AllUnbroken(lines)
    ensures Lines(Joined(lines), buflen - 1) == Texts(lines) <==> ReadsBack(lines, buflen - 1, false)
  {
    hide Lines, Merged, Texts;
    LinesMerged(lines, "", buflen - 1);
    ReadsBackExact(lines, buflen - 1);
    assert Joined(lines) + "" == Joined(lines) && Merged(lines, buflen - 1) + [] == Merged(lines, buflen - 1);
  }

  lemma FusesInTail(lines: seq<Line>)
    requires lines != [] && !Fuses(lines, 0)
    ensures (exists i :: 0 <= i < |lines| && Fuses(lines, i)) <==> (exists i :: 0 <= i < |lines[1..]| && Fuses(lines[1..], i))
  {
    assert forall i | 1 <= i < |lines| :: Fuses(lines, i) <==> Fuses(lines[1..], i - 1);
    if i :| 0 <= i < |lines[1..]| && Fuses(lines[1..], i) {
      assert Fuses(lines, i + 1);
    }
  }

  /** Lines shorter than the room come back iff no empty LF-ended line follows a CR-ended one. */
  lemma {:induction false} ShortLinesExact(lines: seq<Line>, room: nat)
    requires forall i | 0 <= i < |lines| :: |lines[i].text| < room
    ensures ReadsBack(lines, room, false) <==> forall i | 0 <= i < |lines| :: !Fuses(lines, i)
    decreases |lines|
  {
    if lines != [] && !Fuses(lines, 0) {
      FusesInTail(lines);
      ShortLinesExact(lines[1..], room);
    }
  }
}
