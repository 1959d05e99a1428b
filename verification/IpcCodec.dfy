/** The `CIPCMessage` wire format: a header, the command, the parameter lengths and the parameters. */
module IpcCodec {
  import opened CStrings

  type int32 = x: int | -0x8000_0000 <= x < 0x8000_0000
  type uint32 = x: int | 0 <= x < 0x1_0000_0000

  /** A parameter; `size` is what the length field carries. */
  datatype Value = Value(size: int32, bytes: seq<byte>)

  // ---- Little-endian integers ----

  function Unsigned(v: int32): uint32 {
    if v < 0 then v + 0x1_0000_0000 else v
  }

  function Signed(u: uint32): int32 {
    if u < 0x8000_0000 then u else u - 0x1_0000_0000
  }

  function WordBytes(u: uint32): (r: seq<byte>)
    ensures |r| == 4
  {
    [u % 256, u / 256 % 256, u / 65536 % 256, u / 16777216]
  }

  function WordOf(b: seq<byte>): uint32
    requires |b| == 4
  {
    var b0: int, b1: int, b2: int, b3: int := b[0], b[1], b[2], b[3];
    b0 + 256 * b1 + 65536 * b2 + 16777216 * b3
  }

  lemma WordRoundTrip(u: uint32)
    ensures WordOf(WordBytes(u)) == u
  {
    assert u == u % 256 + 256 * (u / 256);
    assert u / 256 == u / 256 % 256 + 256 * (u / 65536);
    assert u / 65536 == u / 65536 % 256 + 256 * (u / 16777216);
  }

  lemma BytesRoundTrip(b: seq<byte>)
    requires |b| == 4
    ensures WordBytes(WordOf(b)) == b
  {
    Digits(b[0], b[1], b[2], b[3]);
  }

  lemma Digits(b0: int, b1: int, b2: int, b3: int)
    requires 0 <= b0 < 256 && 0 <= b1 < 256 && 0 <= b2 < 256 && 0 <= b3 < 256
    ensures var u := b0 + 256 * b1 + 65536 * b2 + 16777216 * b3;
            u % 256 == b0 && u / 256 % 256 == b1 && u / 65536 % 256 == b2 && u / 16777216 == b3
  {
    var u := b0 + 256 * b1 + 65536 * b2 + 16777216 * b3;
    assert u / 256 == b1 + 256 * (b2 + 256 * b3);
    assert u / 65536 == b2 + 256 * b3;
  }

  function IntBytes(v: int32): (r: seq<byte>)
    ensures |r| == 4
  {
    WordBytes(Unsigned(v))
  }

  function IntOf(b: seq<byte>): int32
    requires |b| == 4
  {
    Signed(WordOf(b))
  }

  // ---- Writing ----

  const HEADER_SIZE := 12
  const RESERVED: seq<byte> := [0, 0, 0, 0]

  function SizeFields(values: seq<Value>): (r: seq<byte>)
    ensures |r| == 4 * |values|
  {
    if values == [] then [] else IntBytes(values[0].size) + SizeFields(values[1..])
  }

  function Payload(values: seq<Value>): (r: seq<byte>) {
    if values == [] then [] else values[0].bytes + Payload(values[1..])
  }

  function ValueSize(values: seq<Value>): nat {
    8 + 4 * |values| + |Payload(values)|
  }

  /** Every length field agrees with its parameter. */
  predicate Sized(values: seq<Value>) {
    forall i | 0 <= i < |values| :: values[i].size == |values[i].bytes|
  }

  predicate Sendable(values: seq<Value>) {
    Sized(values) && HEADER_SIZE + ValueSize(values) < 0x8000_0000
  }

  function Encode(processId: uint32, command: int32, values: seq<Value>): (r: seq<byte>)
    requires Sendable(values)
    ensures |r| == HEADER_SIZE + ValueSize(values)
  {
    Head(HEADER_SIZE + ValueSize(values), processId, command, |values|) + SizeFields(values) + Payload(values)
  }

  /** The header with the command and the parameter count. */
  function Head(total: int32, processId: uint32, command: int32, count: int32): (r: seq<byte>)
    ensures |r| == 20
  {
    IntBytes(total) + WordBytes(processId) + RESERVED + IntBytes(command) + IntBytes(count)
  }

  // ---- Reading ----

  function ParseSizes(d: seq<byte>, n: nat): (r: seq<int32>)
    requires 4 * n <= |d|
    ensures |r| == n
  {
    if n == 0 then [] else [IntOf(d[..4])] + ParseSizes(d[4..], n - 1)
  }

  /** The parameters announced by the length fields are all there. */
  predicate Fits(d: seq<byte>, sizes: seq<int32>) {
    sizes == [] || (0 <= sizes[0] <= |d| && Fits(d[sizes[0]..], sizes[1..]))
  }

  function ParseValues(d: seq<byte>, sizes: seq<int32>): (r: seq<Value>)
    requires Fits(d, sizes)
    ensures |r| == |sizes|
  {
    if sizes == [] then [] else [Value(sizes[0], d[..sizes[0]])] + ParseValues(d[sizes[0]..], sizes[1..])
  }

  /** How many length fields the reader walks: none for a negative count. */
  function FieldCount(d: seq<byte>): nat
    requires |d| >= 20
  {
    if IntOf(d[16..20]) < 0 then 0 else IntOf(d[16..20])
  }

  /** The memory the reader touches is there. */
  predicate Readable(d: seq<byte>) {
    && |d| >= 20
    && 20 + 4 * FieldCount(d) <= |d|
    && Fits(d[20 + 4 * FieldCount(d)..], ParseSizes(d[20..], FieldCount(d)))
  }

  function DecodedValues(d: seq<byte>): seq<Value>
    requires Readable(d)
  {
    ParseValues(d[20 + 4 * FieldCount(d)..], ParseSizes(d[20..], FieldCount(d)))
  }

  /** A negative count reads no parameters. */
  lemma NegativeCount(d: seq<byte>)
    requires |d| >= 20 && IntOf(d[16..20]) < 0
    ensures Readable(d) && DecodedValues(d) == []
  {
  }

  class IpcMessage {
    var total: int32
    var processId: uint32
    var command: int32
    var paramCount: int32
    var values: seq<Value>

    constructor ()
      ensures total == 0 && processId == 0 && command == 0 && paramCount == 0 && values == []
    {
      total, processId, command, paramCount, values := 0, 0, 0, 0, [];
    }

    method SetCommand(command: int32)
      modifies this`command
      ensures this.command == command
    {
      this.command := command;
    }

    /** `AddBinary`: the index of the new parameter. */
    method AddBinary(bytes: seq<byte>) returns (index: int)
      requires |bytes| < 0x8000_0000
      modifies this`values
      ensures values == old(values) + [Value(|bytes|, bytes)] && index == |old(values)|
      ensures Sized(old(values)) ==> Sized(values)
    {
      values := values + [Value(|bytes|, bytes)];
      index := |values| - 1;
    }

    /** `GetData`: header, fields and parameters are written through a moving cursor. */
    method GetData(currentProcessId: uint32) returns (data: array<byte>)
      requires Sendable(values)
      modifies this`total, this`processId
      ensures fresh(data) && data[..] == Encode(currentProcessId, command, values)
      ensures total == data.Length && processId == currentProcessId
    {
      var count := |values|;
      total := HEADER_SIZE + ValueSize(values);
      data := new byte[total](_ => 0);
      processId := currentProcessId;
      hide Head, IntBytes, WordBytes;
      var iter := PutHeader(data, total, processId, command, count);
      iter := PutSizes(data, iter, values);
      iter := PutParameters(data, iter, values);
      assert data[..iter] == data[..];
    }

    /** The loop over the parameter lengths. */
    static method PutSizes(a: array<byte>, at: nat, values: seq<Value>) returns (iter: nat)
      requires at + 4 * |values| <= a.Length
      modifies a
      ensures iter == at + 4 * |values| && a[..iter] == old(a[..at]) + SizeFields(values)
    {
      hide WordBytes, Unsigned;
      iter := at;
      var index := 0;
      while index < |values|
        invariant 0 <= index <= |values| && iter == at + 4 * index
        invariant a[..iter] + SizeFields(values[index..]) == old(a[..at]) + SizeFields(values)
      {
        ghost var before := a[..iter];
        iter := PutWord(a, iter, Unsigned(values[index].size));
        assert values[index..][1..] == values[index + 1..];
        assert before + (IntBytes(values[index].size) + SizeFields(values[index + 1..]))
            == a[..iter] + SizeFields(values[index + 1..]);
        index := index + 1;
      }
    }

    /** The loop over the parameters. */
    static method PutParameters(a: array<byte>, at: nat, values: seq<Value>) returns (iter: nat)
      requires at + |Payload(values)| <= a.Length
      modifies a
      ensures iter == at + |Payload(values)| && a[..iter] == old(a[..at]) + Payload(values)
    {
      iter := at;
      var index := 0;
      while index < |values|
        invariant 0 <= index <= |values| && at <= iter && iter + |Payload(values[index..])| == at + |Payload(values)|
        invariant a[..iter] + Payload(values[index..]) == old(a[..at]) + Payload(values)
      {
        ghost var before := a[..iter];
        iter := PutBytes(a, iter, values[index].bytes);
        assert values[index..][1..] == values[index + 1..];
        assert before + (values[index].bytes + Payload(values[index + 1..])) == a[..iter] + Payload(values[index + 1..]);
        index := index + 1;
      }
    }

    static method PutHeader(a: array<byte>, total: int32, processId: uint32, command: int32, count: int32) returns (iter: nat)
      requires a.Length >= 20 && forall i | 0 <= i < a.Length :: a[i] == 0
      modifies a
      ensures iter == 20
      ensures a[..iter] == Head(total, processId, command, count)
    {
      hide WordBytes, Unsigned;
      iter := PutWord(a, 0, Unsigned(total));
      iter := PutWord(a, iter, processId);
      ghost var head := a[..iter];
      iter := iter + 4;
      assert a[..iter] == head + RESERVED;
      iter := PutWord(a, iter, Unsigned(command));
      iter := PutWord(a, iter, Unsigned(count));
    }

    static method PutBytes(a: array<byte>, at: nat, bytes: seq<byte>) returns (next: nat)
      requires at + |bytes| <= a.Length
      modifies a
      ensures next == at + |bytes|
      ensures a[..] == old(a[..at]) + bytes + old(a[next..])
      ensures a[..next] == old(a[..at]) + bytes
      ensures forall i | next <= i < a.Length :: a[i] == old(a[i])
    {
      next := at + |bytes|;
      forall i | 0 <= i < |bytes| {
        a[at + i] := bytes[i];
      }
    }

    static method PutWord(a: array<byte>, at: nat, u: uint32) returns (next: nat)
      requires at + 4 <= a.Length
      modifies a
      ensures next == at + 4
      ensures a[..] == old(a[..at]) + WordBytes(u) + old(a[next..])
      ensures a[..next] == old(a[..at]) + WordBytes(u)
      ensures forall i | next <= i < a.Length :: a[i] == old(a[i])
    {
      next := PutBytes(a, at, WordBytes(u));
    }

    /** `SetData` */
    method SetData(data: array<byte>)
      requires Readable(data[..])
      modifies this
      ensures total == IntOf(data[0..4]) && processId == WordOf(data[4..8])
      ensures command == IntOf(data[12..16]) && paramCount == IntOf(data[16..20])
      ensures values == DecodedValues(data[..])
    {
      hide WordOf, Signed, Fits, ParseSizes, ParseValues;
      ghost var d := data[..];
      assert d[16..20] == data[16..20];
      total := IntOf(data[0..4]);
      processId := WordOf(data[4..8]);
      command := IntOf(data[12..16]);
      paramCount := IntOf(data[16..20]);
      var sizes, iter := ReadSizes(data, 20, paramCount);
      values := ReadValues(data, iter, sizes);
    }

    /** The loop over the parameter lengths; a negative count reads none. */
    static method ReadSizes(data: array<byte>, at: nat, count: int32) returns (sizes: seq<int32>, iter: nat)
      requires at + (if count < 0 then 0 else 4 * count) <= data.Length
      ensures iter == at + (if count < 0 then 0 else 4 * count)
      ensures sizes == ParseSizes(data[..][at..], if count < 0 then 0 else count)
    {
      hide WordOf, Signed;
      var n := if count < 0 then 0 else count;
      ghost var d := data[..];
      sizes, iter := [], at;
      while |sizes| < count
        invariant |sizes| <= n && iter == at + 4 * |sizes|
        invariant sizes + ParseSizes(d[iter..], n - |sizes|) == ParseSizes(d[at..], n)
      {
        assert d[iter..][..4] == data[iter..iter + 4] && d[iter..][4..] == d[iter + 4..];
        sizes := sizes + [IntOf(data[iter..iter + 4])];
        iter := iter + 4;
      }
    }

    /** The loop over the parameters. */
    static method ReadValues(data: array<byte>, at: nat, sizes: seq<int32>) returns (values: seq<Value>)
      requires at <= data.Length && Fits(data[..][at..], sizes)
      ensures values == ParseValues(data[..][at..], sizes)
    {
      ghost var d := data[..];
      values := [];
      var index, iter := 0, at;
      while index < |sizes|
        invariant 0 <= index <= |sizes| && 0 <= iter <= |d|
        invariant Fits(d[iter..], sizes[index..])
        invariant values + ParseValues(d[iter..], sizes[index..]) == ParseValues(d[at..], sizes)
      {
        var size := sizes[index];
        assert d[iter..][..size] == data[iter..iter + size] && d[iter..][size..] == d[iter + size..];
        assert sizes[index..][1..] == sizes[index + 1..];
        values := values + [Value(size, data[iter..iter + size])];
        iter := iter + size;
        index := index + 1;
      }
    }
  }

  // ---- The layout ----

  /** Integers go out with the lowest byte first. */
  lemma LowestByteFirst(u: uint32)
    ensures WordBytes(u) == [u % 256, u / 256 % 256, u / 256 / 256 % 256, u / 256 / 256 / 256]
    ensures WordOf(WordBytes(u)) == u
  {
    WordRoundTrip(u);
  }

  /** Where the header fields and the command are. */
  lemma HeaderLayout(processId: uint32, command: int32, values: seq<Value>)
    requires Sendable(values)
    ensures var d := Encode(processId, command, values);
            && d[0..4] == IntBytes(|d|) && d[4..8] == WordBytes(processId) && d[8..12] == [0, 0, 0, 0]
            && d[12..16] == IntBytes(command) && d[16..20] == IntBytes(|values|)
  {
    hide IntBytes, WordBytes, SizeFields, Payload;
    var d := Encode(processId, command, values);
    var h := Head(|d|, processId, command, |values|);
    assert d == h + (SizeFields(values) + Payload(values));
    assert d[..20] == h;
    assert d[0..4] == h[0..4] && d[4..8] == h[4..8] && d[8..12] == h[8..12] && d[12..16] == h[12..16] && d[16..20] == h[16..20];
  }

  /** Where parameter `k` starts: behind the fields and the parameters before it. */
  function Offset(values: seq<Value>, k: nat): nat
    requires k <= |values|
  {
    if k == 0 then 20 + 4 * |values| else Offset(values, k - 1) + |values[k - 1].bytes|
  }

  lemma {:induction false} SizeFieldAt(values: seq<Value>, k: nat)
    requires k < |values|
    ensures SizeFields(values)[4 * k..4 * k + 4] == IntBytes(values[k].size)
  {
    hide IntBytes;
    var rest := SizeFields(values[1..]);
    assert SizeFields(values) == IntBytes(values[0].size) + rest;
    if k > 0 {
      SizeFieldAt(values[1..], k - 1);
      assert SizeFields(values)[4 * k..4 * k + 4] == rest[4 * (k - 1)..4 * (k - 1) + 4];
    }
  }

  /** The parameters before `k`, one behind the other. */
  lemma {:induction false} PayloadAt(values: seq<Value>, k: nat)
    requires k <= |values|
    ensures Payload(values) == Payload(values[..k]) + Payload(values[k..])
    ensures |Payload(values[..k])| == Offset(values, k) - 20 - 4 * |values|
  {
    if k == 0 {
      assert values[..0] == [] && values[0..] == values;
    } else {
      PayloadAt(values, k - 1);
      PayloadSnoc(values[..k - 1], values[k - 1]);
      assert values[..k] == values[..k - 1] + [values[k - 1]];
      assert values[k - 1..][1..] == values[k..] && values[k - 1..][0] == values[k - 1];
    }
  }

  lemma {:induction false} PayloadSnoc(values: seq<Value>, v: Value)
    ensures Payload(values + [v]) == Payload(values) + v.bytes
  {
    if values == [] {
      assert values + [v] == [v] && [v][1..] == [];
    } else {
      PayloadSnoc(values[1..], v);
      assert (values + [v])[1..] == values[1..] + [v];
    }
  }

  /** Where length field and parameter `k` are. */
  lemma ParameterLayout(processId: uint32, command: int32, values: seq<Value>, k: nat)
    requires Sendable(values) && k < |values|
    ensures var d := Encode(processId, command, values);
            && 20 + 4 * k + 4 <= |d| && d[20 + 4 * k..20 + 4 * k + 4] == IntBytes(|values[k].bytes|)
            && Offset(values, k) + |values[k].bytes| <= |d|
            && d[Offset(values, k)..Offset(values, k) + |values[k].bytes|] == values[k].bytes
  {
    hide Head, IntBytes, SizeFields, Payload, Encode, Offset;
    SizeFieldAt(values, k);
    var h := EncodeParts(processId, command, values, k);
    Located(h, SizeFields(values), Payload(values[..k]), values[k].bytes, Payload(values[k + 1..]), 4 * k);
  }

  lemma EncodeParts(processId: uint32, command: int32, values: seq<Value>, k: nat) returns (h: seq<byte>)
    requires Sendable(values) && k < |values|
    ensures |h| == 20 && Offset(values, k) == 20 + 4 * |values| + |Payload(values[..k])|
    ensures Encode(processId, command, values)
         == h + SizeFields(values) + (Payload(values[..k]) + values[k].bytes + Payload(values[k + 1..]))
  {
    hide Head, IntBytes, SizeFields, Payload, Offset;
    h := Head(HEADER_SIZE + ValueSize(values), processId, command, |values|);
    PayloadAt(values, k);
    PayloadAt(values, k + 1);
    PayloadSnoc(values[..k], values[k]);
    assert values[..k + 1] == values[..k] + [values[k]];
  }

  lemma Located(h: seq<byte>, fields: seq<byte>, before: seq<byte>, bytes: seq<byte>, after: seq<byte>, at: nat)
    requires |h| == 20 && at + 4 <= |fields|
    ensures var d := h + fields + (before + bytes + after);
            && d[20 + at..20 + at + 4] == fields[at..at + 4]
            && d[20 + |fields| + |before|..20 + |fields| + |before| + |bytes|] == bytes
  {
  }

  // ---- Round trips ----

  lemma IntRoundTrip(v: int32)
    ensures IntOf(IntBytes(v)) == v
  {
    WordRoundTrip(Unsigned(v));
  }

  function SizesOf(values: seq<Value>): (r: seq<int32>)
    ensures |r| == |values|
  {
    if values == [] then [] else [values[0].size] + SizesOf(values[1..])
  }

  lemma {:induction false} ParseSizeFields(values: seq<Value>, rest: seq<byte>)
    ensures ParseSizes(SizeFields(values) + rest, |values|) == SizesOf(values)
  {
    if values != [] {
      hide IntOf, IntBytes;
      var d := SizeFields(values) + rest;
      IntRoundTrip(values[0].size);
      ParseSizeFields(values[1..], rest);
      FrontAndRest(IntBytes(values[0].size), SizeFields(values[1..]), rest);
    }
  }

  lemma FrontAndRest(a: seq<byte>, b: seq<byte>, c: seq<byte>)
    ensures (a + b + c)[..|a|] == a && (a + b + c)[|a|..] == b + c
  {
  }

  lemma {:induction false} ParsePayload(values: seq<Value>, rest: seq<byte>)
    requires Sized(values)
    ensures Fits(Payload(values) + rest, SizesOf(values))
    ensures ParseValues(Payload(values) + rest, SizesOf(values)) == values
  {
    if values != [] {
      var d, size := Payload(values) + rest, values[0].size;
      assert d == values[0].bytes + (Payload(values[1..]) + rest);
      ParsePayload(values[1..], rest);
      assert d[..size] == values[0].bytes && d[size..] == Payload(values[1..]) + rest;
      assert SizesOf(values)[1..] == SizesOf(values[1..]);
    }
  }

  lemma HeadFields(total: int32, processId: uint32, command: int32, count: int32)
    ensures var h := Head(total, processId, command, count);
            && IntOf(h[0..4]) == total && WordOf(h[4..8]) == processId && h[8..12] == RESERVED
            && IntOf(h[12..16]) == command && IntOf(h[16..20]) == count
  {
    hide IntBytes, WordBytes, IntOf, WordOf;
    IntRoundTrip(total);
    WordRoundTrip(processId);
    IntRoundTrip(command);
    IntRoundTrip(count);
    var h := Head(total, processId, command, count);
    assert h[0..4] == IntBytes(total) && h[4..8] == WordBytes(processId);
    assert h[12..16] == IntBytes(command) && h[16..20] == IntBytes(count);
  }

  lemma EncodedFields(processId: uint32, command: int32, values: seq<Value>, rest: seq<byte>)
    requires Sendable(values)
    ensures var d := Encode(processId, command, values) + rest;
            && |d| >= 20 && IntOf(d[0..4]) == HEADER_SIZE + ValueSize(values) && WordOf(d[4..8]) == processId
            && IntOf(d[12..16]) == command && IntOf(d[16..20]) == |values|
            && d[20..] == SizeFields(values) + (Payload(values) + rest)
            && d[20 + 4 * |values|..] == Payload(values) + rest
  {
    hide Head, IntOf, WordOf, SizeFields, Payload;
    var d, total := Encode(processId, command, values) + rest, HEADER_SIZE + ValueSize(values);
    var h := Head(total, processId, command, |values|);
    HeadFields(total, processId, command, |values|);
    assert d == h + (SizeFields(values) + (Payload(values) + rest));
    assert d[..20] == h;
    assert d[0..4] == h[0..4] && d[4..8] == h[4..8] && d[12..16] == h[12..16] && d[16..20] == h[16..20];
    assert d[20..] == SizeFields(values) + (Payload(values) + rest);
    assert d[20 + 4 * |values|..] == d[20..][4 * |values|..];
  }

  /** Whatever follows a sent message in the buffer, reading gives back its command and every parameter, and the
      total-size field tells where it ends. */
  lemma DecodeEncode(processId: uint32, command: int32, values: seq<Value>, rest: seq<byte>)
    requires Sendable(values)
    ensures var d := Encode(processId, command, values) + rest;
            && Readable(d) && DecodedValues(d) == values
            && IntOf(d[12..16]) == command && WordOf(d[4..8]) == processId && IntOf(d[16..20]) == |values|
            && 0 <= IntOf(d[0..4]) <= |d| && d[IntOf(d[0..4])..] == rest
  {
    hide Encode, IntOf, WordOf, SizeFields, Payload, ParseSizes, ParseValues, Fits;
    var d := Encode(processId, command, values) + rest;
    EncodedFields(processId, command, values, rest);
    ParseSizeFields(values, Payload(values) + rest);
    ParsePayload(values, rest);
  }

  /** No message is a proper beginning of another one, so a stream of messages reads in one way only. */
  lemma MessagesAreSelfDelimiting(p1: uint32, c1: int32, v1: seq<Value>, x: seq<byte>, p2: uint32, c2: int32, v2: seq<Value>, y: seq<byte>)
    requires Sendable(v1) && Sendable(v2)
    requires Encode(p1, c1, v1) + x == Encode(p2, c2, v2) + y
    ensures p1 == p2 && c1 == c2 && v1 == v2 && x == y
  {
    DecodeEncode(p1, c1, v1, x);
    DecodeEncode(p2, c2, v2, y);
  }

  lemma {:induction false} UnparseSizes(d: seq<byte>, n: nat, values: seq<Value>)
    requires 4 * n <= |d| && SizesOf(values) == ParseSizes(d, n)
    ensures SizeFields(values) == d[..4 * n]
  {
    if n > 0 {
      BytesRoundTrip(d[..4]);
      assert SizesOf(values)[1..] == SizesOf(values[1..]);
      assert ParseSizes(d, n)[1..] == ParseSizes(d[4..], n - 1);
      UnparseSizes(d[4..], n - 1, values[1..]);
      assert d[..4 * n] == d[..4] + d[4..][..4 * (n - 1)];
    }
  }

  lemma {:induction false} UnparseValues(d: seq<byte>, sizes: seq<int32>)
    requires Fits(d, sizes)
    ensures var values := ParseValues(d, sizes);
            Sized(values) && SizesOf(values) == sizes && Payload(values) <= d
  {
    if sizes != [] {
      var k := sizes[0];
      UnparseValues(d[k..], sizes[1..]);
      assert d == d[..k] + d[k..];
    }
  }

  /** What was read, written again, is the message that was read: a readable message with a non-negative count,
      zero reserved bytes and a total-size field equal to its own length is reproduced byte for byte. */
  lemma EncodeDecode(d: seq<byte>)
    requires Readable(d) && IntOf(d[16..20]) >= 0 && d[8..12] == RESERVED
    requires HEADER_SIZE + ValueSize(DecodedValues(d)) == IntOf(d[0..4]) == |d|
    ensures Sendable(DecodedValues(d))
    ensures Encode(WordOf(d[4..8]), IntOf(d[12..16]), DecodedValues(d)) == d
  {
    hide IntOf, WordOf, IntBytes, WordBytes, SizeFields, Payload, ParseSizes, ParseValues, Fits, Sized;
    var n, values := FieldCount(d), DecodedValues(d);
    var fields, payload := d[20..], d[20 + 4 * n..];
    UnparseValues(payload, ParseSizes(fields, n));
    UnparseSizes(fields, n, values);
    IntBytesRoundTrip(d[0..4]);
    BytesRoundTrip(d[4..8]);
    IntBytesRoundTrip(d[12..16]);
    IntBytesRoundTrip(d[16..20]);
    assert |SizeFields(values)| == 4 * n;
    assert Payload(values) == payload;
    var h := Head(IntOf(d[0..4]), WordOf(d[4..8]), IntOf(d[12..16]), n);
    assert h == d[..20] by {
      assert d[..20] == d[0..4] + d[4..8] + d[8..12] + d[12..16] + d[16..20];
    }
    assert fields[..4 * n] + payload == fields;
    assert d == d[..20] + fields;
  }

  lemma IntBytesRoundTrip(b: seq<byte>)
    requires |b| == 4
    ensures IntBytes(IntOf(b)) == b
  {
    BytesRoundTrip(b);
  }
}
