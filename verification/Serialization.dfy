// IpcSerializationTransporter: length-prefixed encoding and its reader.
// LenSizeT has 4 bytes, size_t has 8; both ends share the byte order (little-endian).

module Serialization {
  import opened Text
  import opened AccessRecords
  import opened RdbManager

  const TWO_32: nat := 0x1_0000_0000
  const LEN_SIZE: nat := 4
  const INT32_SIZE: nat := 4
  const SIZE_T_SIZE: nat := 8

  // ----- scalars as bytes -----

  function Pow256(width: nat): (p: nat)
    ensures p > 0
  {
    if width == 0 then 1 else 256 * Pow256(width - 1)
  }

  function ToBytes(n: nat, width: nat): Str {
    if width == 0 then [] else [n % 256] + ToBytes(n / 256, width - 1)
  }

  function FromBytes(s: Str): nat {
    if s == [] then 0 else s[0] + 256 * FromBytes(s[1..])
  }

  lemma {:induction false} BytesRoundTrip(n: nat, width: nat)
    requires n < Pow256(width)
    ensures |ToBytes(n, width)| == width && FromBytes(ToBytes(n, width)) == n
  {
    if width > 0 {
      BytesRoundTrip(n / 256, width - 1);
      assert ToBytes(n, width)[1..] == ToBytes(n / 256, width - 1);
    }
  }

  lemma Widths()
    ensures Pow256(4) == TWO_32 && Pow256(8) == TWO_32 * TWO_32
  {
    assert Pow256(1) == 256 && Pow256(2) == 0x1_0000 && Pow256(3) == 0x100_0000;
    assert Pow256(5) == 0x100_0000_0000 && Pow256(6) == 0x1_0000_0000_0000 && Pow256(7) == 0x100_0000_0000_0000;
  }

  function ToUnsigned(n: int): nat
    requires IsInt32(n)
  {
    if n < 0 then n + TWO_32 else n
  }

  function ToSigned(n: nat): int {
    if n < TWO_32 / 2 then n else n - TWO_32
  }

  // ----- encodings (Flat) -----

  datatype Kind = SwitchKind | AccessKind

  // The two structs that are sent in vectors.
  datatype Element = SwitchElement(status: AncoSwitchStatusInfo) | AccessElement(record: AccessRecordInfo)

  predicate InRange(e: Element) {
    match e
    case SwitchElement(i) => IsInt32(i.userId) && IsInt32(i.status)
    case AccessElement(i) => IsInt32(i.userId) && IsInt32(i.count)
  }

  predicate IsVector(v: seq<Element>, kind: Kind) {
    forall i :: 0 <= i < |v| ==> InRange(v[i]) && (v[i].SwitchElement? <==> kind == SwitchKind)
  }

  function EncodeArithmetic(n: nat, width: nat): Str {
    ToBytes(width, LEN_SIZE) + ToBytes(n, width)
  }

  function EncodeInt32(n: int): Str
    requires IsInt32(n)
  {
    EncodeArithmetic(ToUnsigned(n), INT32_SIZE)
  }

  function EncodeString(s: Str): Str {
    EncodeArithmetic(|s|, SIZE_T_SIZE) + s
  }

  function EncodeElement(e: Element): Str
    requires InRange(e)
  {
    match e
    case SwitchElement(i) =>
      EncodeInt32(i.userId) + EncodeString(i.bundleName) + EncodeString(i.uid) + EncodeInt32(i.status)
    case AccessElement(i) =>
      EncodeInt32(i.userId) + EncodeString(i.bundleName) + EncodeString(i.uid) + EncodeString(i.time)
      + EncodeInt32(i.count)
  }

  function EncodeElements(v: seq<Element>): Str
    requires forall i :: 0 <= i < |v| ==> InRange(v[i])
  {
    if v == [] then [] else EncodeElement(v[0]) + EncodeElements(v[1..])
  }

  function EncodeVector(v: seq<Element>): Str
    requires forall i :: 0 <= i < |v| ==> InRange(v[i])
  {
    EncodeArithmetic(|v|, SIZE_T_SIZE) + EncodeElements(v)
  }

  // ----- the reader as a function of the bytes -----

  // Overread stands for a copy past the end of the buffer.
  datatype ReadResult<+T> = Value(value: T) | Nothing | Overread

  datatype Cursor = Cursor(pos: nat, bad: bool)

  // CheckRemainingSize: all of its arithmetic is modulo 2^32.
  predicate CheckRemainingSize(size: nat, pos: nat, expected: nat) {
    (pos % TWO_32 + expected % TWO_32) % TWO_32 <= size
  }

  // The size that Build receives is the length cut to 32 bits.
  function SizeOf(data: Str): nat {
    |data| % TWO_32
  }

  function ReadArithmetic(data: Str, c: Cursor, width: nat): (ReadResult<nat>, Cursor) {
    if c.bad then (Nothing, c)
    else if !CheckRemainingSize(SizeOf(data), c.pos, LEN_SIZE) then (Nothing, Cursor(c.pos, true))
    else if c.pos + LEN_SIZE > |data| then (Overread, c)
    else
      var start := c.pos + LEN_SIZE;
      if FromBytes(data[c.pos..start]) != width then (Nothing, Cursor(start, true))
      else if start + width > |data| then (Overread, Cursor(start, false))
      else (Value(FromBytes(data[start..start + width])), Cursor(start + width, false))
  }

  function ReadInt32(data: Str, c: Cursor): (ReadResult<int>, Cursor) {
    match ReadArithmetic(data, c, INT32_SIZE)
    case (Value(n), c') => (Value(ToSigned(n)), c')
    case (Nothing, c') => (Nothing, c')
    case (Overread, c') => (Overread, c')
  }

  function ReadString(data: Str, c: Cursor): (ReadResult<Str>, Cursor) {
    match ReadArithmetic(data, c, SIZE_T_SIZE)
    case (Nothing, c') => (Nothing, Cursor(c'.pos, true))
    case (Overread, c') => (Overread, c')
    case (Value(len), c') =>
      if !CheckRemainingSize(SizeOf(data), c'.pos, len) then (Nothing, c')
      else if c'.pos + len > |data| then (Overread, c')
      else (Value(data[c'.pos..c'.pos + len]), Cursor(c'.pos + len, c'.bad))
  }

  // Continue with the next field, or stop at the first that cannot be read.
  function Then<A, B>(r: (ReadResult<A>, Cursor), next: (A, Cursor) -> (ReadResult<B>, Cursor))
    : (ReadResult<B>, Cursor)
  {
    match r.0
    case Value(a) => next(a, r.1)
    case Nothing => (Nothing, r.1)
    case Overread => (Overread, r.1)
  }

  function ReadSwitch(data: Str, c: Cursor): (ReadResult<AncoSwitchStatusInfo>, Cursor) {
    Then(ReadInt32(data, c), (userId, c1) =>
      Then(ReadString(data, c1), (bundleName, c2) =>
        Then(ReadString(data, c2), (uid, c3) =>
          Then(ReadInt32(data, c3), (status, c4) =>
            (Value(AncoSwitchStatusInfo(userId, bundleName, uid, status)), c4)))))
  }

  function ReadAccess(data: Str, c: Cursor): (ReadResult<AccessRecordInfo>, Cursor) {
    Then(ReadInt32(data, c), (userId, c1) =>
      Then(ReadString(data, c1), (bundleName, c2) =>
        Then(ReadString(data, c2), (uid, c3) =>
          Then(ReadString(data, c3), (time, c4) =>
            Then(ReadInt32(data, c4), (count, c5) =>
              (Value(AccessRecordInfo(userId, bundleName, uid, time, count)), c5))))))
  }

  function ReadElement(data: Str, c: Cursor, kind: Kind): (ReadResult<Element>, Cursor) {
    match kind
    case SwitchKind => Then(ReadSwitch(data, c), (i, c') => (Value(SwitchElement(i)), c'))
    case AccessKind => Then(ReadAccess(data, c), (i, c') => (Value(AccessElement(i)), c'))
  }

  function ReadElements(data: Str, c: Cursor, kind: Kind, n: nat): (ReadResult<seq<Element>>, Cursor)
    decreases n
  {
    if n == 0 then (Value([]), c)
    else
      match ReadElement(data, c, kind)
      case (Nothing, c') => (Nothing, c')
      case (Overread, c') => (Overread, c')
      case (Value(e), c') =>
        match ReadElements(data, c', kind, n - 1)
        case (Value(rest), c'') => (Value([e] + rest), c'')
        case (Nothing, c'') => (Nothing, c'')
        case (Overread, c'') => (Overread, c'')
  }

  function ReadVector(data: Str, c: Cursor, kind: Kind): (ReadResult<seq<Element>>, Cursor) {
    match ReadArithmetic(data, c, SIZE_T_SIZE)
    case (Nothing, c') => (Nothing, c')
    case (Overread, c') => (Overread, c')
    case (Value(n), c') => ReadElements(data, c', kind, n)
  }

  // ----- reading back what Flat wrote -----

  // The bytes stand at a position of a buffer of fewer than 2^32 bytes.
  ghost predicate At(data: Str, pos: nat, bytes: Str) {
    |data| < TWO_32 && pos + |bytes| <= |data| && data[pos..pos + |bytes|] == bytes
  }

  lemma AtConcat(data: Str, pos: nat, a: Str, b: Str)
    requires At(data, pos, a + b)
    ensures At(data, pos, a) && At(data, pos + |a|, b)
  {
    assert data[pos..pos + |a|] == (a + b)[..|a|] == a;
    assert data[pos + |a|..pos + |a| + |b|] == (a + b)[|a|..] == b;
  }

  // As long as the sum stays below 2^32 the 32-bit check is the true comparison.
  lemma RemainingSizeExact(data: Str, pos: nat, expected: nat)
    requires |data| < TWO_32 && pos + expected < TWO_32
    ensures CheckRemainingSize(SizeOf(data), pos, expected) <==> pos + expected <= |data|
  {
  }

  lemma ArithmeticAt(data: Str, pos: nat, n: nat, width: nat)
    requires n < Pow256(width) && width < TWO_32 && At(data, pos, EncodeArithmetic(n, width))
    ensures |EncodeArithmetic(n, width)| == LEN_SIZE + width
    ensures ReadArithmetic(data, Cursor(pos, false), width) == (Value(n), Cursor(pos + LEN_SIZE + width, false))
  {
    hide FromBytes, ToBytes, CheckRemainingSize, SizeOf;
    Widths();
    BytesRoundTrip(width, LEN_SIZE);
    BytesRoundTrip(n, width);
    RemainingSizeExact(data, pos, LEN_SIZE);
    AtConcat(data, pos, ToBytes(width, LEN_SIZE), ToBytes(n, width));
  }

  lemma Int32At(data: Str, pos: nat, n: int)
    requires IsInt32(n) && At(data, pos, EncodeInt32(n))
    ensures ReadInt32(data, Cursor(pos, false)) == (Value(n), Cursor(pos + |EncodeInt32(n)|, false))
  {
    hide ReadArithmetic;
    Widths();
    ArithmeticAt(data, pos, ToUnsigned(n), INT32_SIZE);
  }

  lemma StringAt(data: Str, pos: nat, s: Str)
    requires At(data, pos, EncodeString(s))
    ensures ReadString(data, Cursor(pos, false)) == (Value(s), Cursor(pos + |EncodeString(s)|, false))
  {
    hide ReadArithmetic, CheckRemainingSize, SizeOf;
    Widths();
    RemainingSizeExact(data, pos + |EncodeArithmetic(|s|, SIZE_T_SIZE)|, |s|);
    AtConcat(data, pos, EncodeArithmetic(|s|, SIZE_T_SIZE), s);
    ArithmeticAt(data, pos, |s|, SIZE_T_SIZE);
  }

  lemma SwitchAt(data: Str, pos: nat, i: AncoSwitchStatusInfo)
    requires InRange(SwitchElement(i)) && At(data, pos, EncodeElement(SwitchElement(i)))
    ensures ReadSwitch(data, Cursor(pos, false)) == (Value(i), Cursor(pos + |EncodeElement(SwitchElement(i))|, false))
  {
    hide ReadInt32, ReadString, EncodeInt32, EncodeString, At;
    var a, b, c, d := EncodeInt32(i.userId), EncodeString(i.bundleName), EncodeString(i.uid), EncodeInt32(i.status);
    AtConcat(data, pos, a + b + c, d);
    AtConcat(data, pos, a + b, c);
    AtConcat(data, pos, a, b);
    Int32At(data, pos, i.userId);
    StringAt(data, pos + |a|, i.bundleName);
    StringAt(data, pos + |a + b|, i.uid);
    Int32At(data, pos + |a + b + c|, i.status);
  }

  lemma AccessAt(data: Str, pos: nat, i: AccessRecordInfo)
    requires InRange(AccessElement(i)) && At(data, pos, EncodeElement(AccessElement(i)))
    ensures ReadAccess(data, Cursor(pos, false)) == (Value(i), Cursor(pos + |EncodeElement(AccessElement(i))|, false))
  {
    hide ReadInt32, ReadString, EncodeInt32, EncodeString, At;
    var a, b, c := EncodeInt32(i.userId), EncodeString(i.bundleName), EncodeString(i.uid);
    var d, e := EncodeString(i.time), EncodeInt32(i.count);
    AtConcat(data, pos, a + b + c + d, e);
    AtConcat(data, pos, a + b + c, d);
    AtConcat(data, pos, a + b, c);
    AtConcat(data, pos, a, b);
    Int32At(data, pos, i.userId);
    StringAt(data, pos + |a|, i.bundleName);
    StringAt(data, pos + |a + b|, i.uid);
    StringAt(data, pos + |a + b + c|, i.time);
    Int32At(data, pos + |a + b + c + d|, i.count);
  }

  lemma {:induction false} ElementsAt(data: Str, pos: nat, v: seq<Element>, kind: Kind)
    requires IsVector(v, kind) && At(data, pos, EncodeElements(v))
    ensures ReadElements(data, Cursor(pos, false), kind, |v|) == (Value(v), Cursor(pos + |EncodeElements(v)|, false))
    decreases |v|
  {
    hide ReadSwitch, ReadAccess, EncodeElement, At;
    if v != [] {
      AtConcat(data, pos, EncodeElement(v[0]), EncodeElements(v[1..]));
      match v[0] {
        case SwitchElement(i) => SwitchAt(data, pos, i);
        case AccessElement(i) => AccessAt(data, pos, i);
      }
      ElementsAt(data, pos + |EncodeElement(v[0])|, v[1..], kind);
      assert v == [v[0]] + v[1..];
    }
  }

  lemma {:induction false} ToBytesLength(n: nat, width: nat)
    ensures |ToBytes(n, width)| == width
  {
    if width > 0 {
      ToBytesLength(n / 256, width - 1);
    }
  }

  lemma {:induction false} ElementCountFits(v: seq<Element>)
    requires forall i :: 0 <= i < |v| ==> InRange(v[i])
    ensures |v| <= |EncodeElements(v)|
  {
    if v != [] {
      ElementCountFits(v[1..]);
      ToBytesLength(INT32_SIZE, LEN_SIZE);
    }
  }

  // Reading an encoded vector, whatever follows it, returns the vector and stops
  // exactly at the end of its encoding: no check wraps and no copy passes the end.
  lemma SelfDelimiting(v: seq<Element>, kind: Kind, rest: Str)
    requires IsVector(v, kind) && |EncodeVector(v) + rest| < TWO_32
    ensures ReadVector(EncodeVector(v) + rest, Cursor(0, false), kind) == (Value(v), Cursor(|EncodeVector(v)|, false))
  {
    hide ReadArithmetic, ReadElements, EncodeArithmetic;
    var data := EncodeVector(v) + rest;
    Widths();
    ElementCountFits(v);
    assert At(data, 0, EncodeVector(v));
    AtConcat(data, 0, EncodeArithmetic(|v|, SIZE_T_SIZE), EncodeElements(v));
    ArithmeticAt(data, 0, |v|, SIZE_T_SIZE);
    ElementsAt(data, 12, v, kind);
  }

  lemma VectorRoundTrip(v: seq<Element>, kind: Kind)
    requires IsVector(v, kind) && |EncodeVector(v)| < TWO_32
    ensures ReadVector(EncodeVector(v), Cursor(0, false), kind) == (Value(v), Cursor(|EncodeVector(v)|, false))
  {
    SelfDelimiting(v, kind, []);
    assert EncodeVector(v) + [] == EncodeVector(v);
  }

  // No encoding is a proper prefix of another, and different vectors differ.
  lemma EncodingPrefixFree(v: seq<Element>, w: seq<Element>, kind: Kind)
    requires IsVector(v, kind) && IsVector(w, kind) && |EncodeVector(w)| < TWO_32
    requires EncodeVector(v) <= EncodeVector(w)
    ensures v == w
  {
    hide ReadVector, EncodeVector;
    var rest := EncodeVector(w)[|EncodeVector(v)|..];
    assert EncodeVector(v) + rest == EncodeVector(w);
    SelfDelimiting(v, kind, rest);
    VectorRoundTrip(w, kind);
  }

  // What the reader refuses in a buffer of fewer than 2^32 bytes: everything once it is bad,
  // a scalar whose length does not fit or is not the expected one, and a string that is
  // longer than the rest of the buffer. Only the last leaves the reader good.
  lemma Refusals(data: Str, pos: nat, width: nat)
    requires |data| < TWO_32 && pos <= |data| && width < TWO_32
    ensures ReadArithmetic(data, Cursor(pos, true), width) == (Nothing, Cursor(pos, true))
    ensures pos + 4 > |data| && pos + 4 < TWO_32 ==>
              ReadArithmetic(data, Cursor(pos, false), width) == (Nothing, Cursor(pos, true))
    ensures pos + 4 <= |data| && FromBytes(data[pos..pos + 4]) != width ==>
              ReadArithmetic(data, Cursor(pos, false), width) == (Nothing, Cursor(pos + 4, true))
    ensures pos + 4 <= |data| < pos + 4 + width && FromBytes(data[pos..pos + 4]) == width ==>
              ReadArithmetic(data, Cursor(pos, false), width) == (Overread, Cursor(pos + 4, false))
    ensures var (r, c) := ReadArithmetic(data, Cursor(pos, false), 8);
            r.Value? && r.value < TWO_32 && c.pos + r.value < TWO_32 && c.pos + r.value > |data| ==>
              ReadString(data, Cursor(pos, false)) == (Nothing, c) && !c.bad
  {
    hide FromBytes;
    RemainingSizeExact(data, pos, if pos + 4 < TWO_32 then 4 else 0);
    var (r, c) := ReadArithmetic(data, Cursor(pos, false), 8);
    if r.Value? && c.pos + r.value < TWO_32 {
      RemainingSizeExact(data, c.pos, r.value);
    }
  }

  // ----- lengths -----

  lemma FieldLengths(n: int, s: Str)
    requires IsInt32(n) && |s| < TWO_32
    ensures |EncodeInt32(n)| == 8 && |EncodeString(s)| == 12 + |s|
  {
    Widths();
    BytesRoundTrip(INT32_SIZE, LEN_SIZE);
    BytesRoundTrip(SIZE_T_SIZE, LEN_SIZE);
    BytesRoundTrip(ToUnsigned(n), INT32_SIZE);
    BytesRoundTrip(|s|, SIZE_T_SIZE);
  }

  function TextLength(e: Element): nat {
    match e
    case SwitchElement(i) => |i.bundleName| + |i.uid|
    case AccessElement(i) => |i.bundleName| + |i.uid| + |i.time|
  }

  // A struct takes 40 or 52 bytes beside its strings.
  lemma ElementLength(e: Element)
    requires InRange(e) && TextLength(e) < TWO_32
    ensures |EncodeElement(e)| == (if e.SwitchElement? then 40 else 52) + TextLength(e)
  {
    hide EncodeInt32, EncodeString;
    match e {
      case SwitchElement(i) =>
        FieldLengths(i.userId, i.bundleName);
        FieldLengths(i.status, i.uid);
      case AccessElement(i) =>
        FieldLengths(i.userId, i.bundleName);
        FieldLengths(i.count, i.uid);
        FieldLengths(i.count, i.time);
    }
  }

  function SumOfLengths(v: seq<Element>): nat
    requires forall i :: 0 <= i < |v| ==> InRange(v[i])
  {
    if v == [] then 0 else |EncodeElement(v[0])| + SumOfLengths(v[1..])
  }

  // A vector takes 12 bytes beside its elements; so even the empty one is not empty.
  lemma {:induction false} ElementsLength(v: seq<Element>)
    requires forall i :: 0 <= i < |v| ==> InRange(v[i])
    ensures |EncodeElements(v)| == SumOfLengths(v)
  {
    if v != [] {
      ElementsLength(v[1..]);
    }
  }

  lemma VectorLength(v: seq<Element>)
    requires forall i :: 0 <= i < |v| ==> InRange(v[i])
    ensures |EncodeVector(v)| == 12 + SumOfLengths(v)
  {
    ToBytesLength(SIZE_T_SIZE, LEN_SIZE);
    ToBytesLength(|v|, SIZE_T_SIZE);
    ElementsLength(v);
  }

  // ----- the layout on the wire -----

  lemma DivideBy256(n: nat, p: nat)
    requires p > 0
    ensures (n / 256) / p == n / (256 * p)
  {
    var q, r := n / (256 * p), n % (256 * p);
    assert n == 256 * (q * p) + r;
    assert n / 256 == q * p + r / 256;
    QuotientUnique(n / 256, p, q, r / 256);
  }

  // The k-th byte has the weight 256^k.
  lemma {:induction false} ByteAt(n: nat, width: nat, k: nat)
    requires k < width
    ensures |ToBytes(n, width)| == width
    ensures ToBytes(n, width)[k] == n / Pow256(k) % 256
  {
    ToBytesLength(n, width);
    if k > 0 {
      ByteAt(n / 256, width - 1, k - 1);
      DivideBy256(n, Pow256(k - 1));
    }
  }

  lemma FourBytes(u: nat)
    ensures ToBytes(u, 4) == [u % 256, u / 256 % 256, u / 65536 % 256, u / 16777216 % 256]
  {
    assert u / 256 / 256 == u / 65536 && u / 256 / 256 / 256 == u / 16777216;
    assert ToBytes(u / 16777216, 1) == [u / 16777216 % 256] + ToBytes(u / 16777216 / 256, 0);
    assert ToBytes(u / 65536, 2) == [u / 65536 % 256] + ToBytes(u / 16777216, 1);
    assert ToBytes(u / 256, 3) == [u / 256 % 256] + ToBytes(u / 65536, 2);
  }

  lemma SmallBytes(n: nat)
    requires n < 256
    ensures ToBytes(n, 4) == [n, 0, 0, 0]
  {
    FourBytes(n);
  }

  // A 32-bit integer: its length 4, then its two's complement, least byte first.
  lemma Int32Layout(n: int)
    requires IsInt32(n)
    ensures var u := n % 0x1_0000_0000;
            EncodeInt32(n) == [4, 0, 0, 0] + [u % 256, u / 256 % 256, u / 65536 % 256, u / 16777216 % 256]
  {
    hide ToBytes;
    SmallBytes(4);
    FourBytes(n % 0x1_0000_0000);
  }

  // A string: the length 8 of its size, the size, then its bytes.
  lemma StringLayout(s: Str)
    requires |s| < TWO_32
    ensures |EncodeString(s)| == 12 + |s|
    ensures EncodeString(s)[..4] == [8, 0, 0, 0] && EncodeString(s)[12..] == s
    ensures forall k :: 0 <= k < 8 ==> EncodeString(s)[4 + k] == |s| / Pow256(k) % 256
  {
    FieldLengths(0, s);
    ToBytesLength(8, 4);
    ToBytesLength(|s|, 8);
    SmallBytes(8);
    forall k | 0 <= k < 8 ensures EncodeString(s)[4 + k] == |s| / Pow256(k) % 256 {
      ByteAt(|s|, 8, k);
    }
  }

  // The fields of a struct follow each other in the order of their declaration.
  lemma FieldOrder(e: Element)
    requires InRange(e)
    ensures match e
            case SwitchElement(AncoSwitchStatusInfo(userId, bundleName, uid, status)) =>
              EncodeElement(e) == EncodeInt32(userId) + EncodeString(bundleName) + EncodeString(uid)
                                  + EncodeInt32(status)
            case AccessElement(AccessRecordInfo(userId, bundleName, uid, time, count)) =>
              EncodeElement(e) == EncodeInt32(userId) + EncodeString(bundleName) + EncodeString(uid)
                                  + EncodeString(time) + EncodeInt32(count)
  {
  }

  // A vector: the length 8 of its size, the size, then its elements in order.
  lemma VectorLayout(v: seq<Element>)
    requires forall i :: 0 <= i < |v| ==> InRange(v[i])
    ensures |EncodeVector(v)| == 12 + |EncodeElements(v)|
    ensures EncodeVector(v)[..4] == [8, 0, 0, 0] && EncodeVector(v)[12..] == EncodeElements(v)
    ensures forall k :: 0 <= k < 8 ==> EncodeVector(v)[4 + k] == |v| / Pow256(k) % 256
  {
    ToBytesLength(8, 4);
    ToBytesLength(|v|, 8);
    SmallBytes(8);
    forall k | 0 <= k < 8 ensures EncodeVector(v)[4 + k] == |v| / Pow256(k) % 256 {
      ByteAt(|v|, 8, k);
    }
  }

  lemma {:induction false} ElementsConcat(v: seq<Element>, w: seq<Element>)
    requires forall i :: 0 <= i < |v| ==> InRange(v[i])
    requires forall i :: 0 <= i < |w| ==> InRange(w[i])
    ensures EncodeElements(v + w) == EncodeElements(v) + EncodeElements(w)
  {
    if v == [] {
      assert v + w == w;
    } else {
      assert (v + w)[1..] == v[1..] + w;
      ElementsConcat(v[1..], w);
    }
  }
}
