// The writing and the reading object, and the call that sends a vector from one to the other.

module Transporter {
  import opened Options
  import opened Text
  import opened AccessRecords
  import opened RdbManager
  import opened Serialization

  // The stream of IpcSerializationTransporter fails for good at the first write that
  // does not fit in its room.
  class IpcSerializationTransporter {
    const room: nat
    var ss: Str
    var failed: bool

    constructor (room: nat)
      ensures this.room == room && ss == [] && !failed
    {
      this.room := room;
      ss, failed := [], false;
    }

    // Whether the stream can take these bytes.
    predicate Takes(bytes: Str)
      reads this
    {
      !failed && |ss| + |bytes| <= room
    }

    method Write(bytes: Str)
      modifies this
      ensures failed <==> !old(Takes(bytes))
      ensures !failed ==> ss == old(ss) + bytes
    {
      if Takes(bytes) {
        ss := ss + bytes;
      } else {
        failed := true;
      }
    }

    method FlatArithmetic(n: nat, width: nat) returns (ok: bool)
      modifies this
      ensures ok <==> old(Takes(EncodeArithmetic(n, width)))
      ensures if ok then !failed && ss == old(ss) + EncodeArithmetic(n, width) else failed
    {
      Write(ToBytes(width, LEN_SIZE));
      if !failed {
        Write(ToBytes(n, width));
      }
      return !failed;
    }

    method FlatInt32(n: int) returns (ok: bool)
      requires IsInt32(n)
      modifies this
      ensures ok <==> old(Takes(EncodeInt32(n)))
      ensures if ok then !failed && ss == old(ss) + EncodeInt32(n) else failed
    {
      ok := FlatArithmetic(ToUnsigned(n), INT32_SIZE);
    }

    method FlatString(s: Str) returns (ok: bool)
      modifies this
      ensures ok <==> old(Takes(EncodeString(s)))
      ensures if ok then !failed && ss == old(ss) + EncodeString(s) else failed
    {
      ok := FlatArithmetic(|s|, SIZE_T_SIZE);
      if !ok {
        return;
      }
      Write(s);
      return !failed;
    }

    method FlatElement(e: Element) returns (ok: bool)
      requires InRange(e)
      modifies this
      ensures ok <==> old(Takes(EncodeElement(e)))
      ensures if ok then !failed && ss == old(ss) + EncodeElement(e) else failed
    {
      hide EncodeInt32, EncodeString;
      match e {
        case SwitchElement(i) =>
          ok := FlatInt32(i.userId);
          if !ok { return; }
          ok := FlatString(i.bundleName);
          if !ok { return; }
          ok := FlatString(i.uid);
          if !ok { return; }
          ok := FlatInt32(i.status);
        case AccessElement(i) =>
          ok := FlatInt32(i.userId);
          if !ok { return; }
          ok := FlatString(i.bundleName);
          if !ok { return; }
          ok := FlatString(i.uid);
          if !ok { return; }
          ok := FlatString(i.time);
          if !ok { return; }
          ok := FlatInt32(i.count);
      }
    }

    method FlatVector(v: seq<Element>) returns (ok: bool)
      requires forall i :: 0 <= i < |v| ==> InRange(v[i])
      modifies this
      ensures ok <==> old(Takes(EncodeVector(v)))
      ensures if ok then !failed && ss == old(ss) + EncodeVector(v) else failed
    {
      hide EncodeElement, EncodeArithmetic;
      ok := FlatArithmetic(|v|, SIZE_T_SIZE);
      if !ok {
        return;
      }
      var i := 0;
      while i < |v|
        invariant 0 <= i <= |v|
        invariant !failed && old(ss) + EncodeVector(v) == ss + EncodeElements(v[i..])
        invariant |ss| <= room
      {
        assert v[i..][0] == v[i] && v[i..][1..] == v[i + 1..];
        ok := FlatElement(v[i]);
        if !ok {
          return;
        }
        i := i + 1;
      }
      assert v[i..] == [];
      return true;
    }

    // The encoding, or nothing when the stream cannot take all of it.
    method Serialize(v: seq<Element>) returns (result: Option<Str>)
      requires forall i :: 0 <= i < |v| ==> InRange(v[i])
      modifies this
      ensures result == if old(Takes(EncodeVector(v))) then Some(old(ss) + EncodeVector(v)) else None
    {
      var ok := FlatVector(v);
      return if ok then Some(ss) else None;
    }
  }

  function Prepend(t: seq<Element>, r: (ReadResult<seq<Element>>, Cursor)): (ReadResult<seq<Element>>, Cursor) {
    match r.0
    case Value(rest) => (Value(t + rest), r.1)
    case Nothing => r
    case Overread => r
  }

  lemma PrependEmpty(r: (ReadResult<seq<Element>>, Cursor))
    ensures Prepend([], r) == r
  {
    if r.0.Value? {
      assert [] + r.0.value == r.0.value;
    }
  }

  lemma PrependStep(t: seq<Element>, e: Element, r: (ReadResult<seq<Element>>, Cursor))
    ensures Prepend(t + [e], r) == Prepend(t, Prepend([e], r))
  {
    if r.0.Value? {
      assert (t + [e]) + r.0.value == t + ([e] + r.0.value);
    }
  }

  class Reader {
    const data: Str
    var cursor: nat
    var isBad: bool

    constructor (data: Str)
      ensures this.data == data && State() == Cursor(0, false)
    {
      this.data := data;
      cursor, isBad := 0, false;
    }

    function State(): Cursor
      reads this
    {
      Cursor(cursor, isBad)
    }

    method ReadArithmetic(width: nat) returns (r: ReadResult<nat>)
      modifies this
      ensures (r, State()) == Serialization.ReadArithmetic(data, old(State()), width)
    {
      hide FromBytes, CheckRemainingSize, SizeOf;
      if isBad {
        return Nothing;
      }
      if !CheckRemainingSize(SizeOf(data), cursor, LEN_SIZE) {
        isBad := true;
        return Nothing;
      }
      if cursor + LEN_SIZE > |data| {
        return Overread;
      }
      var len := FromBytes(data[cursor..cursor + LEN_SIZE]);
      cursor := cursor + LEN_SIZE;
      if len != width {
        isBad := true;
        return Nothing;
      }
      if cursor + width > |data| {
        return Overread;
      }
      r := Value(FromBytes(data[cursor..cursor + width]));
      cursor := cursor + width;
    }

    method ReadInt32() returns (r: ReadResult<int>)
      modifies this
      ensures (r, State()) == Serialization.ReadInt32(data, old(State()))
    {
      hide Serialization.ReadArithmetic;
      var n := ReadArithmetic(INT32_SIZE);
      match n {
        case Value(value) => return Value(ToSigned(value));
        case Nothing => return Nothing;
        case Overread => return Overread;
      }
    }

    method ReadString() returns (r: ReadResult<Str>)
      modifies this
      ensures (r, State()) == Serialization.ReadString(data, old(State()))
    {
      hide Serialization.ReadArithmetic, CheckRemainingSize, SizeOf;
      var lenOpt := ReadArithmetic(SIZE_T_SIZE);
      match lenOpt {
        case Nothing =>
          isBad := true;
          return Nothing;
        case Overread =>
          return Overread;
        case Value(len) =>
          if !CheckRemainingSize(SizeOf(data), cursor, len) {
            return Nothing;
          }
          if cursor + len > |data| {
            return Overread;
          }
          r := Value(data[cursor..cursor + len]);
          cursor := cursor + len;
      }
    }

    method ReadSwitch() returns (r: ReadResult<AncoSwitchStatusInfo>)
      modifies this
      ensures (r, State()) == Serialization.ReadSwitch(data, old(State()))
    {
      hide Serialization.ReadInt32, Serialization.ReadString;
      var userId := ReadInt32();
      if !userId.Value? { return if userId.Nothing? then Nothing else Overread; }
      var bundleName := ReadString();
      if !bundleName.Value? { return if bundleName.Nothing? then Nothing else Overread; }
      var uid := ReadString();
      if !uid.Value? { return if uid.Nothing? then Nothing else Overread; }
      var status := ReadInt32();
      if !status.Value? { return if status.Nothing? then Nothing else Overread; }
      return Value(AncoSwitchStatusInfo(userId.value, bundleName.value, uid.value, status.value));
    }

    method ReadAccess() returns (r: ReadResult<AccessRecordInfo>)
      modifies this
      ensures (r, State()) == Serialization.ReadAccess(data, old(State()))
    {
      hide Serialization.ReadInt32, Serialization.ReadString;
      var userId := ReadInt32();
      if !userId.Value? { return if userId.Nothing? then Nothing else Overread; }
      var bundleName := ReadString();
      if !bundleName.Value? { return if bundleName.Nothing? then Nothing else Overread; }
      var uid := ReadString();
      if !uid.Value? { return if uid.Nothing? then Nothing else Overread; }
      var time := ReadString();
      if !time.Value? { return if time.Nothing? then Nothing else Overread; }
      var count := ReadInt32();
      if !count.Value? { return if count.Nothing? then Nothing else Overread; }
      return Value(AccessRecordInfo(userId.value, bundleName.value, uid.value, time.value, count.value));
    }

    method ReadElement(kind: Kind) returns (r: ReadResult<Element>)
      modifies this
      ensures (r, State()) == Serialization.ReadElement(data, old(State()), kind)
    {
      hide Serialization.ReadSwitch, Serialization.ReadAccess;
      match kind {
        case SwitchKind =>
          var i := ReadSwitch();
          return match i
            case Value(info) => Value(SwitchElement(info))
            case Nothing => Nothing
            case Overread => Overread;
        case AccessKind =>
          var i := ReadAccess();
          return match i
            case Value(info) => Value(AccessElement(info))
            case Nothing => Nothing
            case Overread => Overread;
      }
    }

    // ReadCommonContainer: the loop appends each element it reads.
    method ReadVector(kind: Kind) returns (r: ReadResult<seq<Element>>)
      modifies this
      ensures (r, State()) == Serialization.ReadVector(data, old(State()), kind)
    {
      hide Serialization.ReadArithmetic, Serialization.ReadElement;
      var n := ReadArithmetic(SIZE_T_SIZE);
      if !n.Value? { return if n.Nothing? then Nothing else Overread; }
      ghost var start := State();
      var t: seq<Element> := [];
      PrependEmpty(ReadElements(data, start, kind, n.value));
      var i := 0;
      while i < n.value
        invariant 0 <= i <= n.value
        invariant ReadElements(data, start, kind, n.value)
               == Prepend(t, ReadElements(data, State(), kind, n.value - i))
      {
        var value := ReadElement(kind);
        if !value.Value? { return if value.Nothing? then Nothing else Overread; }
        PrependStep(t, value.value, ReadElements(data, State(), kind, n.value - i - 1));
        t := t + [value.value];
        i := i + 1;
      }
      assert t + [] == t;
      return Value(t);
    }
  }

  // Reader::Build refuses an empty buffer; the size it gets is cut to 32 bits.
  method Build(data: Str) returns (reader: Reader?)
    ensures reader == null <==> SizeOf(data) == 0
    ensures reader != null ==> fresh(reader) && reader.data == data && reader.State() == Cursor(0, false)
  {
    reader := null;
    if SizeOf(data) == 0 {
      return;
    }
    reader := new Reader(data);
  }

  // The service encodes a vector into the reply and the client decodes it; a failure on
  // either side leaves the client with an empty vector.
  method Send(v: seq<Element>, kind: Kind, room: nat) returns (received: seq<Element>)
    requires IsVector(v, kind)
    ensures |EncodeVector(v)| <= room && |EncodeVector(v)| < TWO_32 ==> received == v
    ensures |EncodeVector(v)| > room ==> received == []
  {
    hide Serialization.ReadVector, EncodeVector;
    var transporter := new IpcSerializationTransporter(room);
    var flat := transporter.Serialize(v);
    if flat.None? {
      return [];
    }
    assert flat.value == EncodeVector(v);
    var reader := Build(flat.value);
    if |flat.value| < TWO_32 {
      VectorRoundTrip(v, kind);
      VectorLength(v);
    }
    if reader == null {
      return [];
    }
    var infos := reader.ReadVector(kind);
    return if infos.Value? then infos.value else [];
  }
}
