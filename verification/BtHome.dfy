/**
 BTHome v2 service data: a byte of device info, then objects, each an id and a little-endian
 value whose size the id fixes.
 */
module BtHome {
  import opened Wrappers

  // --------------------------------------------------------------------------- the objects

  type uint16 = n: int | 0 <= n < 0x1_0000
  type uint24 = n: int | 0 <= n < 0x100_0000
  type int16 = n: int | -0x8000 <= n < 0x8000

  /** What an object says.  Temperature and humidity are hundredths, rotation is tenths.  Any
      other id takes one byte, whatever its size. */
  datatype Object =
    | PacketId(n: byte)
    | Battery(percent: byte)
    | Temperature(centi: int16)
    | Humidity(centipercent: uint16)
    | Illuminance(lux: uint24)
    | Motion(level: byte)
    | Window(level: byte)
    | Button(event: byte)
    | Rotation(tenths: int16)
    | Unlisted(id: byte, filler: byte)

  predicate Listed(id: byte) {
    || id == 0x00 || id == 0x01 || id == 0x02 || id == 0x03 || id == 0x05
    || id == 0x21 || id == 0x2D || id == 0x3A || id == 0x3F
  }

  predicate Proper(o: Object) {
    o.Unlisted? ==> !Listed(o.id)
  }

  predicate AllProper(os: seq<Object>) {
    forall o <- os :: Proper(o)
  }

  function LittleEndian(n: uint16): seq<byte> {
    [n % 0x100, n / 0x100]
  }

  function Unsigned(n: int16): uint16 {
    if n < 0 then n + 0x1_0000 else n
  }

  function ObjectBytes(o: Object): seq<byte> {
    match o
    case PacketId(n) => [0x00, n]
    case Battery(p) => [0x01, p]
    case Temperature(c) => [0x02] + LittleEndian(Unsigned(c))
    case Humidity(c) => [0x03] + LittleEndian(c)
    case Illuminance(l) => [0x05, l % 0x100] + LittleEndian(l / 0x100)
    case Motion(l) => [0x21, l]
    case Window(l) => [0x2D, l]
    case Button(e) => [0x3A, e]
    case Rotation(t) => [0x3F] + LittleEndian(Unsigned(t))
    case Unlisted(id, filler) => [id, filler]
  }

  function Bytes(os: seq<Object>): seq<byte> {
    if os == [] then [] else ObjectBytes(os[0]) + Bytes(os[1..])
  }

  // ---------------------------------------------------------------------------- the parser

  datatype Reading = Reading(
    packetId: byte,
    battery: Option<byte>, temperature: Option<int>, humidity: Option<int>, illuminance: Option<int>,
    motion: Option<bool>, windowOpen: Option<bool>, button: Option<byte>, rotation: Option<int>)

  const NOTHING_READ: Reading := Reading(0, None, None, None, None, None, None, None, None)

  /** The value's size; an id that is not listed takes one byte. */
  function SizeOf(id: byte): (size: nat)
    ensures 1 <= size <= 3
  {
    if id == 0x02 || id == 0x03 || id == 0x3F then 2 else if id == 0x05 then 3 else 1
  }

  function Word(lo: byte, hi: byte): uint16 {
    lo as int + hi as int * 0x100
  }

  function SignedWord(lo: byte, hi: byte): int16 {
    var w := Word(lo, hi);
    if w < 0x8000 then w else w - 0x1_0000
  }

  /** Store one object's value. */
  function Store(r: Reading, id: byte, value: seq<byte>): Reading
    requires |value| == SizeOf(id)
  {
    if id == 0x00 then r.(packetId := value[0])
    else if id == 0x01 then r.(battery := Some(value[0]))
    else if id == 0x02 then r.(temperature := Some(SignedWord(value[0], value[1])))
    else if id == 0x03 then r.(humidity := Some(Word(value[0], value[1])))
    else if id == 0x05 then
      r.(illuminance := Some(value[0] as int + value[1] as int * 0x100 + value[2] as int * 0x1_0000))
    else if id == 0x21 then r.(motion := Some(value[0] != 0))
    else if id == 0x2D then r.(windowOpen := Some(value[0] != 0))
    else if id == 0x3A then r.(button := Some(value[0]))
    else if id == 0x3F then r.(rotation := Some(SignedWord(value[0], value[1])))
    else r
  }

  function Scan(r: Reading, data: seq<byte>): Reading
    decreases |data|
  {
    if data == [] then r
    else
      var size := SizeOf(data[0]);
      if |data| < 1 + size then r else Scan(Store(r, data[0], data[1..1 + size]), data[1 + size..])
  }

  function Parse(data: seq<byte>): Option<Reading> {
    if data == [] || data[0] % 2 != 0 then None else Some(Scan(NOTHING_READ, data[1..]))
  }

  /** Reading one whole object at position i. */
  lemma ScanAt(r: Reading, data: seq<byte>, i: nat)
    requires i < |data| && i + 1 + SizeOf(data[i]) <= |data|
    ensures
      var next := i + 1 + SizeOf(data[i]);
      Scan(r, data[i..]) == Scan(Store(r, data[i], data[i + 1..next]), data[next..])
  {
    var size := SizeOf(data[i]);
    assert data[i..][1..1 + size] == data[i + 1..i + 1 + size];
    assert data[i..][1 + size..] == data[i + 1 + size..];
  }

  lemma ScanStops(r: Reading, data: seq<byte>, i: nat)
    requires i <= |data| && (i < |data| ==> i + 1 + SizeOf(data[i]) > |data|)
    ensures Scan(r, data[i..]) == r
  {
  }

  method ParseBTHomeData(data: seq<byte>) returns (parsed: Option<Reading>)
    ensures parsed == Parse(data)
  {
    if |data| < 1 {
      return None;
    }
    if data[0] % 2 != 0 {
      return None;
    }
    var result := NOTHING_READ;
    var offset := 1;
    while offset < |data|
      invariant 1 <= offset <= |data|
      invariant Scan(result, data[offset..]) == Scan(NOTHING_READ, data[1..])
    {
      var objectId := data[offset];
      var size := SizeOf(objectId);
      if offset + 1 + size - 1 >= |data| {
        break;
      }
      ScanAt(result, data, offset);
      result := Store(result, objectId, data[offset + 1..offset + 1 + size]);
      offset := offset + 1 + size;
    }
    ScanStops(result, data, offset);
    return Some(result);
  }

  // --------------------------------------------------------------------------- its meaning

  /** The last value that some object yields. */
  function LastOf<T>(os: seq<Object>, pick: Object -> Option<T>): Option<T> {
    if os == [] then None
    else if pick(os[|os| - 1]).Some? then pick(os[|os| - 1])
    else LastOf(os[..|os| - 1], pick)
  }

  /** Each kind's last value; the packet id is zero when there is none. */
  function Summary(os: seq<Object>): Reading {
    Reading(
      (var p: Option<byte> := LastOf(os, (o: Object) => if o.PacketId? then Some(o.n) else None);
       if p.Some? then p.value else 0),
      LastOf(os, (o: Object) => if o.Battery? then Some(o.percent) else None),
      LastOf(os, (o: Object) => if o.Temperature? then Some(o.centi) else None),
      LastOf(os, (o: Object) => if o.Humidity? then Some(o.centipercent) else None),
      LastOf(os, (o: Object) => if o.Illuminance? then Some(o.lux) else None),
      LastOf(os, (o: Object) => if o.Motion? then Some(o.level != 0) else None),
      LastOf(os, (o: Object) => if o.Window? then Some(o.level != 0) else None),
      LastOf(os, (o: Object) => if o.Button? then Some(o.event) else None),
      LastOf(os, (o: Object) => if o.Rotation? then Some(o.tenths) else None))
  }

  /** Too short to hold the object its first byte announces. */
  predicate Truncated(tail: seq<byte>) {
    tail == [] || |tail| < 1 + SizeOf(tail[0])
  }

  /** The reading after one more object. */
  function Heard(r: Reading, o: Object): Reading {
    match o
    case PacketId(n) => r.(packetId := n)
    case Battery(p) => r.(battery := Some(p))
    case Temperature(c) => r.(temperature := Some(c))
    case Humidity(c) => r.(humidity := Some(c))
    case Illuminance(l) => r.(illuminance := Some(l))
    case Motion(l) => r.(motion := Some(l != 0))
    case Window(l) => r.(windowOpen := Some(l != 0))
    case Button(e) => r.(button := Some(e))
    case Rotation(t) => r.(rotation := Some(t))
    case Unlisted(_, _) => r
  }

  function HeardAll(r: Reading, os: seq<Object>): Reading {
    if os == [] then r else Heard(HeardAll(r, os[..|os| - 1]), os[|os| - 1])
  }

  lemma {:induction false} HeardIsSummary(os: seq<Object>)
    ensures HeardAll(NOTHING_READ, os) == Summary(os)
  {
    if os != [] {
      HeardIsSummary(os[..|os| - 1]);
    }
  }

  /** An object's bytes are its id and as many value bytes as the table says, and storing
      them yields its value. */
  lemma ObjectIsStored(r: Reading, o: Object)
    requires Proper(o)
    ensures var b := ObjectBytes(o); |b| == 1 + SizeOf(b[0]) && Store(r, b[0], b[1..]) == Heard(r, o)
  {
  }

  lemma {:induction false} HeardAllFirst(r: Reading, os: seq<Object>)
    requires os != []
    ensures HeardAll(r, os) == HeardAll(Heard(r, os[0]), os[1..])
    decreases |os|
  {
    if |os| > 1 {
      var n := |os| - 1;
      HeardAllFirst(r, os[..n]);
      assert os[..n][1..] == os[1..][..n - 1];
    }
  }

  lemma BytesFirst(os: seq<Object>, tail: seq<byte>)
    requires os != []
    ensures Bytes(os) + tail == ObjectBytes(os[0]) + (Bytes(os[1..]) + tail)
  {
  }

  lemma ScanFirst(r: Reading, b: seq<byte>, rest: seq<byte>)
    requires b != [] && |b| == 1 + SizeOf(b[0])
    ensures Scan(r, b + rest) == Scan(Store(r, b[0], b[1..]), rest)
  {
    assert (b + rest)[1..|b|] == b[1..];
    assert (b + rest)[|b|..] == rest;
  }

  lemma {:induction false} ScanReadsObjects(r: Reading, os: seq<Object>, tail: seq<byte>)
    requires AllProper(os) && Truncated(tail)
    ensures Scan(r, Bytes(os) + tail) == HeardAll(r, os)
    decreases |os|
  {
    if os == [] {
      assert Bytes(os) + tail == tail;
    } else {
      var b, rest := ObjectBytes(os[0]), Bytes(os[1..]) + tail;
      ObjectIsStored(r, os[0]);
      BytesFirst(os, tail);
      ScanFirst(r, b, rest);
      ScanReadsObjects(Heard(r, os[0]), os[1..], tail);
      HeardAllFirst(r, os);
    }
  }

  /** Parsing the bytes of any objects yields each kind's last value, and a cut-off object after
      them changes nothing. */
  lemma ParseReadsLastValues(info: byte, os: seq<Object>, tail: seq<byte>)
    requires AllProper(os) && Truncated(tail)
    ensures Parse([info] + Bytes(os) + tail) == if info % 2 == 0 then Some(Summary(os)) else None
  {
    var data := [info] + Bytes(os) + tail;
    assert data[1..] == Bytes(os) + tail;
    ScanReadsObjects(NOTHING_READ, os, tail);
    HeardIsSummary(os);
  }

  // --------------------------------------------------------- every input is some objects

  function ReadObject(b: seq<byte>): Object
    requires b != [] && |b| == 1 + SizeOf(b[0])
  {
    if b[0] == 0x00 then PacketId(b[1])
    else if b[0] == 0x01 then Battery(b[1])
    else if b[0] == 0x02 then Temperature(SignedWord(b[1], b[2]))
    else if b[0] == 0x03 then Humidity(Word(b[1], b[2]))
    else if b[0] == 0x05 then Illuminance(b[1] as int + Word(b[2], b[3]) * 0x100)
    else if b[0] == 0x21 then Motion(b[1])
    else if b[0] == 0x2D then Window(b[1])
    else if b[0] == 0x3A then Button(b[1])
    else if b[0] == 0x3F then Rotation(SignedWord(b[1], b[2]))
    else Unlisted(b[0], b[1])
  }

  /** The objects in some bytes, and what is left over. */
  function Split(data: seq<byte>): (seq<Object>, seq<byte>) {
    if Truncated(data) then ([], data)
    else
      var n := 1 + SizeOf(data[0]);
      var (os, tail) := Split(data[n..]);
      ([ReadObject(data[..n])] + os, tail)
  }

  lemma WordBytes(lo: byte, hi: byte)
    ensures LittleEndian(Word(lo, hi)) == [lo, hi]
    ensures Unsigned(SignedWord(lo, hi)) == Word(lo, hi)
  {
  }

  lemma ReadObjectInverts(b: seq<byte>)
    requires b != [] && |b| == 1 + SizeOf(b[0])
    ensures Proper(ReadObject(b)) && ObjectBytes(ReadObject(b)) == b
  {
    if b[0] == 0x05 {
      WordBytes(b[2], b[3]);
      assert b == [b[0], b[1]] + [b[2], b[3]];
    } else if SizeOf(b[0]) == 2 {
      WordBytes(b[1], b[2]);
      assert b == [b[0]] + [b[1], b[2]];
      if b[0] == 0x02 {
        assert ReadObject(b).Temperature?;
      } else if b[0] == 0x03 {
        assert ReadObject(b).Humidity?;
      }
    } else {
      assert b == [b[0], b[1]];
    }
  }

  lemma ReadBack(o: Object)
    requires Proper(o)
    ensures |ObjectBytes(o)| == 1 + SizeOf(ObjectBytes(o)[0]) && ReadObject(ObjectBytes(o)) == o
  {
    ObjectIsStored(NOTHING_READ, o);
  }

  /** Any bytes are the serialisation of some objects and a cut-off one. */
  lemma {:induction false} SplitCovers(data: seq<byte>)
    ensures
      var (os, tail) := Split(data);
      AllProper(os) && Truncated(tail) && Bytes(os) + tail == data
    decreases |data|
  {
    if !Truncated(data) {
      var n := 1 + SizeOf(data[0]);
      var (os, tail) := Split(data[n..]);
      SplitCovers(data[n..]);
      OneObjectMore(data[..n], os, tail);
      assert data == data[..n] + data[n..];
    }
  }

  lemma OneObjectMore(head: seq<byte>, os: seq<Object>, tail: seq<byte>)
    requires head != [] && |head| == 1 + SizeOf(head[0]) && AllProper(os)
    ensures
      var more := [ReadObject(head)] + os;
      AllProper(more) && Bytes(more) + tail == head + (Bytes(os) + tail)
  {
    ReadObjectInverts(head);
    BytesOfMore(ReadObject(head), os, head);
  }

  lemma BytesOfMore(o: Object, os: seq<Object>, head: seq<byte>)
    requires ObjectBytes(o) == head
    ensures Bytes([o] + os) == head + Bytes(os)
  {
    assert ([o] + os)[1..] == os;
  }

  lemma SplitFirst(b: seq<byte>, rest: seq<byte>)
    requires b != [] && |b| == 1 + SizeOf(b[0])
    ensures Split(b + rest) == ([ReadObject(b)] + Split(rest).0, Split(rest).1)
  {
    assert (b + rest)[0] == b[0];
    assert (b + rest)[..|b|] == b;
    assert (b + rest)[|b|..] == rest;
  }

  /** And of only one such sequence. */
  lemma {:induction false} SplitIsUnique(os: seq<Object>, tail: seq<byte>)
    requires AllProper(os) && Truncated(tail)
    ensures Split(Bytes(os) + tail) == (os, tail)
    decreases |os|
  {
    if os == [] {
      assert Bytes(os) + tail == tail;
    } else {
      var b, rest := ObjectBytes(os[0]), Bytes(os[1..]) + tail;
      ReadBack(os[0]);
      BytesFirst(os, tail);
      SplitFirst(b, rest);
      SplitIsUnique(os[1..], tail);
      assert os == [os[0]] + os[1..];
    }
  }

  /** The parser fails exactly on no data and on encrypted data; on all other data it yields
      each kind's last value in the one sequence of objects the data serialises. */
  lemma ParseIsSummary(data: seq<byte>)
    ensures Parse(data).None? <==> data == [] || data[0] % 2 == 1
    ensures Parse(data).Some? ==> Parse(data).value == Summary(Split(data[1..]).0)
  {
    if data != [] {
      var (os, tail) := Split(data[1..]);
      SplitCovers(data[1..]);
      ScanReadsObjects(NOTHING_READ, os, tail);
      HeardIsSummary(os);
    }
  }

  /** The wire format of each kind: its id, then its value with the low byte first. */
  lemma WireFormat()
    ensures ObjectBytes(PacketId(0x42)) == [0x00, 0x42] && ObjectBytes(Battery(100)) == [0x01, 0x64]
    ensures ObjectBytes(Temperature(1000)) == [0x02, 0xE8, 0x03]
    ensures ObjectBytes(Temperature(-1000)) == [0x02, 0x18, 0xFC]
    ensures ObjectBytes(Humidity(5000)) == [0x03, 0x88, 0x13]
    ensures ObjectBytes(Illuminance(0x030201)) == [0x05, 0x01, 0x02, 0x03]
    ensures ObjectBytes(Motion(1)) == [0x21, 0x01] && ObjectBytes(Window(1)) == [0x2D, 0x01]
    ensures ObjectBytes(Button(1)) == [0x3A, 0x01]
    ensures ObjectBytes(Rotation(900)) == [0x3F, 0x84, 0x03] && ObjectBytes(Rotation(-900)) == [0x3F, 0x7C, 0xFC]
  {
  }
}
