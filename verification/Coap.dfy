/**
 Finding the payload of a CoAP message, as three packages do it: the transport scans the
 options as in section 3.1 of RFC 7252, discovery skips them with byte-wide arithmetic, and
 the Gen1 listener looks for the first 0xFF byte.
 */
module Coap {
  import opened Wrappers

  const MARKER: byte := 0xFF

  datatype ScanError =
    | TooShort | UnsupportedVersion | InvalidTokenLength | NoOptionsOrPayload
    | TruncatedDelta | TruncatedLength | NoPayload

  // ------------------------------------------------------------------ the message format

  /** An option as laid out on the wire: two four-bit fields, their extension bytes, and the
      value.  Field value 15 is reserved, but the scanner lets it through. */
  datatype RawOption = RawOption(
    delta: nat, deltaExt: seq<byte>, length: nat, lengthExt: seq<byte>, value: seq<byte>)

  function ExtSize(field: nat): nat {
    if field == 13 then 1 else if field == 14 then 2 else 0
  }

  /** The number an option field stands for. */
  function FieldValue(field: nat, ext: seq<byte>): nat
    requires |ext| == ExtSize(field)
  {
    if field == 13 then ext[0] as int + 13 else if field == 14 then ext[0] as int * 256 + ext[1] as int + 269 else field
  }

  predicate WellFormed(o: RawOption) {
    && o.delta <= 15 && o.length <= 15 && !(o.delta == 15 && o.length == 15)
    && |o.deltaExt| == ExtSize(o.delta) && |o.lengthExt| == ExtSize(o.length)
    && |o.value| == FieldValue(o.length, o.lengthExt)
  }

  function OptionBytes(o: RawOption): seq<byte>
    requires WellFormed(o)
  {
    [o.delta * 16 + o.length] + o.deltaExt + o.lengthExt + o.value
  }

  predicate AllWellFormed(os: seq<RawOption>) {
    forall o <- os :: WellFormed(o)
  }

  function OptionsBytes(os: seq<RawOption>): seq<byte>
    requires AllWellFormed(os)
  {
    if os == [] then [] else OptionBytes(os[0]) + OptionsBytes(os[1..])
  }

  datatype Message = Message(
    kind: nat, code: byte, id: nat, token: seq<byte>, options: seq<RawOption>, payload: seq<byte>)

  predicate ValidMessage(m: Message) {
    m.kind < 4 && m.id < 0x1_0000 && |m.token| <= 8 && AllWellFormed(m.options) && m.payload != []
  }

  function Header(m: Message): (h: seq<byte>)
    requires ValidMessage(m)
    ensures |h| == 4 + |m.token|
  {
    [0x40 + m.kind * 16 + |m.token|, m.code, m.id / 256, m.id % 256] + m.token
  }

  function Encode(m: Message): seq<byte>
    requires ValidMessage(m)
  {
    Header(m) + OptionsBytes(m.options) + [MARKER] + m.payload
  }

  function PayloadStart(m: Message): nat
    requires ValidMessage(m)
  {
    |Header(m)| + |OptionsBytes(m.options)| + 1
  }

  // ----------------------------------------------------------------- the transport's scan

  /** Past the extension of a delta field. */
  function PastDelta(data: seq<byte>, o: nat, delta: nat): Result<nat, ScanError> {
    if o + ExtSize(delta) > |data| then Err(TruncatedDelta) else Ok(o + ExtSize(delta))
  }

  /** The length of a value, and where the value starts. */
  function ReadLength(data: seq<byte>, p: nat, length: nat): Result<(nat, nat), ScanError> {
    var q := p + ExtSize(length);
    if length == 13 || length == 14 then
      if q > |data| then Err(TruncatedLength) else Ok((FieldValue(length, data[p..q]), q))
    else Ok((length, p))
  }

  /** Where the option starting at `offset` ends, possibly past the end of the data. */
  function OptionEnd(data: seq<byte>, offset: nat): (r: Result<nat, ScanError>)
    requires offset < |data|
    ensures r.Ok? ==> r.value > offset
  {
    var delta, length := data[offset] / 16, data[offset] % 16;
    match PastDelta(data, offset + 1, delta)
    case Err(e) => Err(e)
    case Ok(p) =>
      match ReadLength(data, p, length)
      case Err(e) => Err(e)
      case Ok((n, q)) => Ok(q + n)
  }

  /** Where the scan from `offset` stops: just past the marker, or at or past the end. */
  function ScanEnd(data: seq<byte>, offset: nat): Result<nat, ScanError>
    decreases |data| - offset
  {
    if offset >= |data| then Ok(offset)
    else if data[offset] == MARKER then Ok(offset + 1)
    else
      match OptionEnd(data, offset)
      case Err(e) => Err(e)
      case Ok(next) => ScanEnd(data, next)
  }

  /** The offset of the payload. */
  function Parse(data: seq<byte>): Result<nat, ScanError> {
    if |data| < 4 then Err(TooShort)
    else if data[0] / 64 != 1 then Err(UnsupportedVersion)
    else if data[0] % 16 > 8 then Err(InvalidTokenLength)
    else if 4 + data[0] % 16 >= |data| then Err(NoOptionsOrPayload)
    else
      match ScanEnd(data, 4 + data[0] % 16)
      case Err(e) => Err(e)
      case Ok(offset) => if offset >= |data| then Err(NoPayload) else Ok(offset)
  }

  method ParseCoapMessage(data: seq<byte>) returns (r: Result<nat, ScanError>)
    ensures r == Parse(data)
  {
    if |data| < 4 {
      return Err(TooShort);
    }
    var header := data[0];
    var version := (header / 64) % 4;
    if version != 1 {
      return Err(UnsupportedVersion);
    }
    var tkl := header % 16;
    if tkl > 8 {
      return Err(InvalidTokenLength);
    }
    var offset := 4 + tkl;
    if offset >= |data| {
      return Err(NoOptionsOrPayload);
    }
    ghost var end := ScanEnd(data, offset);
    while offset < |data|
      invariant ScanEnd(data, offset) == end
      decreases |data| - offset
    {
      if data[offset] == MARKER {
        offset := offset + 1;
        break;
      }
      var next := SkipOption(data, offset);
      if next.Err? {
        return Err(next.error);
      }
      offset := next.value;
    }
    if offset >= |data| {
      return Err(NoPayload);
    }
    r := Ok(offset);
  }

  /** The body of the scanning loop, up to and including the value. */
  method SkipOption(data: seq<byte>, start: nat) returns (r: Result<nat, ScanError>)
    requires start < |data|
    ensures r == OptionEnd(data, start)
  {
    var delta: nat, length: nat := data[start] / 16, data[start] % 16;
    var offset := start + 1;
    match delta {
      case 13 =>
        if offset >= |data| {
          return Err(TruncatedDelta);
        }
        offset := offset + 1;
      case 14 =>
        if offset + 1 >= |data| {
          return Err(TruncatedDelta);
        }
        offset := offset + 2;
      case _ =>
    }
    assert PastDelta(data, start + 1, delta) == Ok(offset);
    match length {
      case 13 =>
        if offset >= |data| {
          return Err(TruncatedLength);
        }
        length := data[offset] as int + 13;
        offset := offset + 1;
      case 14 =>
        if offset + 1 >= |data| {
          return Err(TruncatedLength);
        }
        length := data[offset] as int * 256 + data[offset + 1] as int + 269;
        offset := offset + 2;
      case _ =>
    }
    r := Ok(offset + length);
  }

  /** `bytes` stand in the data at `offset`. */
  predicate StandsAt(data: seq<byte>, offset: nat, bytes: seq<byte>) {
    offset + |bytes| <= |data| && data[offset..offset + |bytes|] == bytes
  }

  lemma StandsSplit(data: seq<byte>, offset: nat, x: seq<byte>, y: seq<byte>)
    requires StandsAt(data, offset, x + y)
    ensures StandsAt(data, offset, x) && StandsAt(data, offset + |x|, y)
  {
    var all := data[offset..offset + |x + y|];
    assert data[offset..offset + |x|] == all[..|x|];
    assert data[offset + |x|..offset + |x| + |y|] == all[|x|..];
  }

  /** The fields of an option that stands at `offset`. */
  lemma OptionFields(data: seq<byte>, offset: nat, o: RawOption)
    requires WellFormed(o) && StandsAt(data, offset, OptionBytes(o))
    ensures data[offset] == o.delta * 16 + o.length
    ensures data[offset] != MARKER
    ensures
      var p := offset + 1 + ExtSize(o.delta);
      data[p..p + ExtSize(o.length)] == o.lengthExt
  {
    var first: byte := o.delta * 16 + o.length;
    assert OptionBytes(o) == [first] + (o.deltaExt + (o.lengthExt + o.value));
    StandsSplit(data, offset, [first], o.deltaExt + (o.lengthExt + o.value));
    StandsSplit(data, offset + 1, o.deltaExt, o.lengthExt + o.value);
    StandsSplit(data, offset + 1 + |o.deltaExt|, o.lengthExt, o.value);
    assert data[offset..offset + 1][0] == first;
  }

  /** One well-formed option is scanned to its end. */
  lemma OptionScanned(data: seq<byte>, offset: nat, o: RawOption)
    requires WellFormed(o) && StandsAt(data, offset, OptionBytes(o))
    ensures OptionEnd(data, offset) == Ok(offset + |OptionBytes(o)|)
  {
    OptionFields(data, offset, o);
  }

  /** Options stand from `offset` to `end`, and the marker follows. */
  ghost predicate Laid(data: seq<byte>, offset: nat, os: seq<RawOption>, end: nat) {
    && AllWellFormed(os)
    && end == offset + |OptionsBytes(os)|
    && StandsAt(data, offset, OptionsBytes(os))
    && StandsAt(data, end, [MARKER])
  }

  lemma LaidFirst(data: seq<byte>, offset: nat, os: seq<RawOption>, end: nat)
    requires Laid(data, offset, os, end) && os != []
    ensures
      var next := offset + |OptionBytes(os[0])|;
      && WellFormed(os[0]) && StandsAt(data, offset, OptionBytes(os[0]))
      && Laid(data, next, os[1..], end) && next <= end < |data|
  {
    StandsSplit(data, offset, OptionBytes(os[0]), OptionsBytes(os[1..]));
  }

  lemma LaidNone(data: seq<byte>, offset: nat, end: nat)
    requires Laid(data, offset, [], end)
    ensures offset == end < |data| && data[offset] == MARKER
  {
    assert data[offset..offset + 1][0] == MARKER;
  }

  /** Options followed by the marker: the scan stops right behind the marker. */
  lemma {:induction false} OptionsScanned(data: seq<byte>, offset: nat, os: seq<RawOption>, end: nat)
    requires Laid(data, offset, os, end)
    ensures ScanEnd(data, offset) == Ok(end + 1)
    decreases |os|
  {
    if os == [] {
      LaidNone(data, offset, end);
    } else {
      var next := offset + |OptionBytes(os[0])|;
      LaidFirst(data, offset, os, end);
      OptionFields(data, offset, os[0]);
      OptionScanned(data, offset, os[0]);
      OptionsScanned(data, next, os[1..], end);
    }
  }

  /** How an encoded message is laid out. */
  lemma EncodedLayout(m: Message)
    requires ValidMessage(m)
    ensures |Encode(m)| == PayloadStart(m) + |m.payload|
    ensures Encode(m)[0] / 64 == 1 && Encode(m)[0] % 16 == |m.token|
    ensures StandsAt(Encode(m), 4 + |m.token|, OptionsBytes(m.options))
    ensures StandsAt(Encode(m), PayloadStart(m) - 1, [MARKER])
    ensures Encode(m)[4..PayloadStart(m) - 1] == m.token + OptionsBytes(m.options)
    ensures Encode(m)[PayloadStart(m)..] == m.payload
  {
    var data, os := Encode(m), OptionsBytes(m.options);
    assert data == Header(m) + (os + ([MARKER] + m.payload));
    assert data[0] as int == 0x40 + m.kind * 16 + |m.token|;
    assert data[|Header(m)|..] == os + ([MARKER] + m.payload);
  }

  lemma ParsedAt(data: seq<byte>, tkl: nat, os: seq<RawOption>, end: nat)
    requires |data| > 0 && data[0] / 64 == 1 && data[0] % 16 == tkl <= 8
    requires Laid(data, 4 + tkl, os, end) && end + 1 < |data|
    ensures Parse(data) == Ok(end + 1)
  {
    OptionsScanned(data, 4 + tkl, os, end);
    assert 4 + tkl <= end;
  }

  /** The scan stops exactly at the payload's first byte. */
  lemma EncodedIsParsed(m: Message)
    requires ValidMessage(m)
    ensures Parse(Encode(m)) == Ok(PayloadStart(m))
    ensures Encode(m)[PayloadStart(m)..] == m.payload
  {
    EncodedLayout(m);
    ParsedAt(Encode(m), |m.token|, m.options, PayloadStart(m) - 1);
  }

  /** Conversely, a scan that stops inside the data has read options and a marker. */
  lemma {:induction false} ScanExplained(data: seq<byte>, offset: nat, end: nat) returns (os: seq<RawOption>)
    requires offset <= |data| && ScanEnd(data, offset) == Ok(end) && end < |data|
    ensures AllWellFormed(os) && offset + |OptionsBytes(os)| + 1 == end
    ensures data[offset..end] == OptionsBytes(os) + [MARKER]
    decreases |data| - offset
  {
    if data[offset] == MARKER {
      os := [];
    } else {
      var next := OptionEnd(data, offset).value;
      ScanGrows(data, next, end);
      var o := OptionAt(data, offset);
      var rest := ScanExplained(data, next, end);
      os := [o] + rest;
      PrependOption(o, rest);
      Slices(data, offset, next, end);
      assert (OptionBytes(o) + OptionsBytes(rest)) + [MARKER] == OptionBytes(o) + (OptionsBytes(rest) + [MARKER]);
    }
  }

  lemma PrependOption(o: RawOption, rest: seq<RawOption>)
    requires WellFormed(o) && AllWellFormed(rest)
    ensures AllWellFormed([o] + rest) && OptionsBytes([o] + rest) == OptionBytes(o) + OptionsBytes(rest)
  {
    assert ([o] + rest)[1..] == rest;
  }

  lemma Slices(data: seq<byte>, i: nat, j: nat, k: nat)
    requires i <= j <= k <= |data|
    ensures data[i..k] == data[i..j] + data[j..k]
  {
  }

  lemma {:induction false} ScanGrows(data: seq<byte>, offset: nat, end: nat)
    requires ScanEnd(data, offset) == Ok(end)
    ensures offset <= end
    decreases |data| - offset
  {
    if offset < |data| && data[offset] != MARKER {
      ScanGrows(data, OptionEnd(data, offset).value, end);
    }
  }

  lemma CutOption(data: seq<byte>, offset: nat, p: nat, q: nat, end: nat)
    requires offset < p <= q <= end <= |data|
    ensures data[offset..end] == [data[offset]] + data[offset + 1..p] + data[p..q] + data[q..end]
  {
  }

  lemma OptionAt(data: seq<byte>, offset: nat) returns (o: RawOption)
    requires offset < |data| && data[offset] != MARKER
    requires OptionEnd(data, offset).Ok? && OptionEnd(data, offset).value <= |data|
    ensures WellFormed(o) && OptionBytes(o) == data[offset..OptionEnd(data, offset).value]
  {
    var delta, length := data[offset] / 16, data[offset] % 16;
    var p := offset + 1 + ExtSize(delta);
    var q := p + ExtSize(length);
    var end := OptionEnd(data, offset).value;
    o := RawOption(delta, data[offset + 1..p], length, data[p..q], data[q..end]);
    CutOption(data, offset, p, q, end);
    assert delta * 16 + length == data[offset];
  }

  /** The scanner accepts exactly the encodings of messages, and finds their payload. */
  lemma AcceptsExactlyMessages(data: seq<byte>, start: nat)
    ensures Parse(data) == Ok(start) <==>
            exists m :: ValidMessage(m) && Encode(m) == data && PayloadStart(m) == start
  {
    if Parse(data) == Ok(start) {
      var m := MessageOf(data, start);
    }
    if m :| ValidMessage(m) && Encode(m) == data && PayloadStart(m) == start {
      EncodedIsParsed(m);
    }
  }

  lemma TwoBytes(hi: byte, lo: byte)
    ensures (hi as int * 256 + lo as int) / 256 == hi && (hi as int * 256 + lo as int) % 256 == lo
  {
  }

  lemma CutMessage(data: seq<byte>, i: nat, options: seq<byte>, start: nat)
    requires i <= start <= |data| && data[i..start] == options + [MARKER]
    ensures data == data[..i] + options + [MARKER] + data[start..]
  {
    assert data == data[..i] + (options + [MARKER]) + data[start..];
  }

  lemma MessageOf(data: seq<byte>, start: nat) returns (m: Message)
    requires Parse(data) == Ok(start)
    ensures ValidMessage(m) && Encode(m) == data && PayloadStart(m) == start
  {
    var tkl := data[0] % 16;
    ScanGrows(data, 4 + tkl, start);
    var os := ScanExplained(data, 4 + tkl, start);
    m := Message(data[0] / 16 - 4, data[1], data[2] as int * 256 + data[3] as int, data[4..4 + tkl], os, data[start..]);
    HeaderOf(data, m);
    CutMessage(data, 4 + tkl, OptionsBytes(os), start);
  }

  lemma HeaderOf(data: seq<byte>, m: Message)
    requires |data| >= 4 && data[0] / 64 == 1 && data[0] % 16 == |m.token| && 4 + |m.token| <= |data|
    requires ValidMessage(m) && m.kind == data[0] / 16 - 4 && m.code == data[1]
    requires m.id == data[2] as int * 256 + data[3] as int && m.token == data[4..4 + |m.token|]
    ensures Header(m) == data[..4 + |m.token|]
  {
    assert data[0] as int == 0x40 + m.kind * 16 + |m.token|;
    TwoBytes(data[2], data[3]);
  }

  // ------------------------------------------------------------- options of the standard

  /** The shortest field for a number, as section 3.1 of RFC 7252 prescribes. */
  function FieldFor(n: nat): nat {
    if n < 13 then n else if n < 269 then 13 else 14
  }

  function ExtFor(n: nat): (ext: seq<byte>)
    requires n <= 65804
    ensures |ext| == ExtSize(FieldFor(n)) && FieldValue(FieldFor(n), ext) == n
  {
    if n < 13 then [] else if n < 269 then [n - 13] else [(n - 269) / 256, (n - 269) % 256]
  }

  /** An option of the standard: a delta and a value. */
  function StandardOption(delta: nat, value: seq<byte>): (o: RawOption)
    requires delta <= 65804 && |value| <= 65804
    ensures WellFormed(o)
  {
    RawOption(FieldFor(delta), ExtFor(delta), FieldFor(|value|), ExtFor(|value|), value)
  }

  /** Every option without the reserved field value is an option of the standard. */
  lemma UnreservedIsStandard(o: RawOption)
    requires WellFormed(o) && o.delta < 15 && o.length < 15
    ensures o == StandardOption(FieldValue(o.delta, o.deltaExt), o.value)
  {
  }

  // ------------------------------------------------------------------ discovery's skipper

  /** One round of the skipper: the length is a byte, so adding 13 wraps; a two-byte length is
      skipped but not read. */
  function SkipOne(data: seq<byte>, offset: nat): (next: nat)
    requires offset < |data|
    ensures next > offset
  {
    if data[offset] == 0 then offset + 1
    else
      var delta, length := data[offset] / 16, data[offset] % 16;
      var p := if delta == 13 then offset + 2 else if delta == 14 then offset + 3 else offset + 1;
      if length == 13 then p + 1 + (if p + 1 < |data| then (data[p] as int + 13) % 256 else 13)
      else if length == 14 then p + 2 + 14
      else p + length
  }

  function SkipEnd(data: seq<byte>, offset: nat): nat
    decreases |data| - offset
  {
    if offset < |data| && data[offset] != MARKER then SkipEnd(data, SkipOne(data, offset)) else offset
  }

  method SkipCoapOptions(data: seq<byte>, start: nat) returns (offset: nat)
    ensures offset == SkipEnd(data, start)
  {
    offset := start;
    while offset < |data| && data[offset] != MARKER
      invariant SkipEnd(data, offset) == SkipEnd(data, start)
      decreases |data| - offset
    {
      offset := SkipRound(data, offset);
    }
  }

  /** The body of the skipping loop. */
  method SkipRound(data: seq<byte>, start: nat) returns (offset: nat)
    requires start < |data|
    ensures offset == SkipOne(data, start)
  {
    offset := start;
    if data[offset] == 0 {
      return offset + 1;
    }
    var delta: nat, length: nat := data[offset] / 16, data[offset] % 16;
    match delta {
      case 13 => offset := offset + 2;
      case 14 => offset := offset + 3;
      case _ => offset := offset + 1;
    }
    match length {
      case 13 =>
        offset := offset + 1;
        if offset < |data| {
          length := (data[offset - 1] as int + 13) % 256;
        }
      case 14 => offset := offset + 2;
      case _ =>
    }
    offset := offset + length;
  }

  /** The payload offset discovery uses; it checks no token length. */
  function DiscoveryPayload(data: seq<byte>): (r: Option<nat>)
    ensures r.Some? ==> r.value < |data|
  {
    if |data| < 4 || data[0] / 64 != 1 || |data| < 4 + data[0] % 16 then None
    else
      var end := SkipEnd(data, 4 + data[0] % 16);
      var offset := if end < |data| && data[end] == MARKER then end + 1 else end;
      if offset >= |data| then None else Some(offset)
  }

  /** The skipper passes an option exactly where it ends if and only if its value has at most
      255 bytes. */
  lemma SkipsExactlyIffShort(data: seq<byte>, offset: nat, o: RawOption)
    requires WellFormed(o) && StandsAt(data, offset, OptionBytes(o)) && offset + |OptionBytes(o)| < |data|
    ensures SkipOne(data, offset) == offset + |OptionBytes(o)| <==> |o.value| <= 255
  {
    OptionFields(data, offset, o);
    var p, n := offset + 1 + ExtSize(o.delta), |o.value|;
    assert |OptionBytes(o)| == p - offset + ExtSize(o.length) + n;
    SkipOneAt(data, offset, o.delta, o.length);
    if o.length == 13 {
      assert data[p] == o.lengthExt[0] by {
        assert data[p..p + 1][0] == data[p];
      }
      WrapsIff(n);
    }
  }

  lemma SkipOneAt(data: seq<byte>, offset: nat, delta: nat, length: nat)
    requires offset < |data| && data[offset] == delta * 16 + length && delta <= 15 && length <= 15
    ensures
      var p := offset + 1 + ExtSize(delta);
      SkipOne(data, offset) ==
      if length == 13 then p + 1 + (if p + 1 < |data| then (data[p] as int + 13) % 256 else 13)
      else if length == 14 then p + 2 + 14
      else p + length
  {
    assert data[offset] / 16 == delta && data[offset] % 16 == length;
  }

  lemma WrapsIff(n: nat)
    ensures n % 256 == n <==> n <= 255
  {
  }

  predicate AllShort(os: seq<RawOption>) {
    forall o <- os :: |o.value| <= 255
  }

  lemma {:induction false} ShortOptionsSkipped(data: seq<byte>, offset: nat, os: seq<RawOption>, end: nat)
    requires Laid(data, offset, os, end) && AllShort(os)
    ensures SkipEnd(data, offset) == end
    decreases |os|
  {
    if os == [] {
      LaidNone(data, offset, end);
    } else {
      LaidFirst(data, offset, os, end);
      ShortOptionSkipped(data, offset, os[0]);
      ShortOptionsSkipped(data, offset + |OptionBytes(os[0])|, os[1..], end);
    }
  }

  lemma ShortOptionSkipped(data: seq<byte>, offset: nat, o: RawOption)
    requires WellFormed(o) && StandsAt(data, offset, OptionBytes(o)) && |o.value| <= 255
    requires offset + |OptionBytes(o)| < |data|
    ensures SkipEnd(data, offset) == SkipEnd(data, offset + |OptionBytes(o)|)
  {
    OptionFields(data, offset, o);
    SkipsExactlyIffShort(data, offset, o);
  }

  /** With values of at most 255 bytes discovery and the transport find the same payload. */
  lemma DiscoveryAgreesOnShort(m: Message)
    requires ValidMessage(m) && AllShort(m.options)
    ensures DiscoveryPayload(Encode(m)) == Some(PayloadStart(m))
    ensures Parse(Encode(m)) == Ok(PayloadStart(m))
  {
    EncodedIsParsed(m);
    EncodedLayout(m);
    DiscoveryFindsPayload(Encode(m), |m.token|, m.options, PayloadStart(m) - 1);
  }

  lemma DiscoveryFindsPayload(data: seq<byte>, tkl: nat, os: seq<RawOption>, end: nat)
    requires |data| > 0 && data[0] / 64 == 1 && data[0] % 16 == tkl <= 8
    requires Laid(data, 4 + tkl, os, end) && AllShort(os) && end + 1 < |data|
    ensures DiscoveryPayload(data) == Some(end + 1)
  {
    ShortOptionsSkipped(data, 4 + tkl, os, end);
    DiscoveryStopsAt(data, tkl, end);
  }

  lemma DiscoveryStopsAt(data: seq<byte>, tkl: nat, end: nat)
    requires |data| > 0 && data[0] / 64 == 1 && data[0] % 16 == tkl
    requires 4 + tkl <= end && end + 1 < |data|
    requires SkipEnd(data, 4 + tkl) == end && StandsAt(data, end, [MARKER])
    ensures DiscoveryPayload(data) == Some(end + 1)
  {
    assert data[end..end + 1][0] == MARKER;
  }

  /** A 256-byte value that starts with 0xFF is taken for the payload. */
  lemma LongValueMistaken(value: seq<byte>, payload: seq<byte>)
    requires |value| == 256 && value[0] == MARKER && payload != []
    ensures
      var m := Message(0, 1, 0, [], [StandardOption(1, value)], payload);
      Parse(Encode(m)) == Ok(263) && DiscoveryPayload(Encode(m)) == Some(7)
  {
    var m := Message(0, 1, 0, [], [StandardOption(1, value)], payload);
    LongOptionBytes(value);
    EncodedIsParsed(m);
    assert Header(m) == [0x40, 1, 0, 0];
    assert Encode(m) == [0x40, 1, 0, 0, 29, 243] + value + [MARKER] + payload;
    SkipStopsInside(Encode(m));
  }

  lemma LongOptionBytes(value: seq<byte>)
    requires |value| == 256
    ensures AllWellFormed([StandardOption(1, value)])
    ensures OptionsBytes([StandardOption(1, value)]) == [29, 243] + value
  {
    var o := StandardOption(1, value);
    assert OptionBytes(o) == [29] + [] + [243] + value;
    assert OptionsBytes([o]) == OptionBytes(o) + OptionsBytes([]);
  }

  lemma SkipStopsInside(data: seq<byte>)
    requires |data| > 7 && data[0] == 0x40 && data[4] == 29 && data[5] == 243 && data[6] == MARKER
    ensures DiscoveryPayload(data) == Some(7)
  {
    SkipOneAt(data, 4, 1, 13);
    assert SkipEnd(data, 4) == SkipEnd(data, 6) == 6;
    DiscoveryStopsAt(data, 0, 6);
  }

  // --------------------------------------------------------------- the Gen1 listener

  /** The first position of the marker at or after i, or the length. */
  function FirstMarker(data: seq<byte>, i: nat): (k: nat)
    requires i <= |data|
    ensures i <= k <= |data|
    ensures k < |data| ==> data[k] == MARKER
    ensures forall j | i <= j < k :: data[j] != MARKER
    decreases |data| - i
  {
    if i == |data| || data[i] == MARKER then i else FirstMarker(data, i + 1)
  }

  method Gen1Payload(data: seq<byte>) returns (r: Result<nat, ScanError>)
    ensures r == if |data| < 4 then Err(TooShort)
                 else if FirstMarker(data, 4) + 1 >= |data| then Err(NoPayload)
                 else Ok(FirstMarker(data, 4) + 1)
  {
    if |data| < 4 {
      return Err(TooShort);
    }
    var payloadStart := -1;
    for i := 4 to |data|
      invariant payloadStart == -1
      invariant FirstMarker(data, 4) == FirstMarker(data, i)
    {
      if data[i] == MARKER {
        payloadStart := i + 1;
        break;
      }
    }
    if payloadStart == -1 || payloadStart >= |data| {
      return Err(NoPayload);
    }
    r := Ok(payloadStart);
  }

  /** The Gen1 search finds the payload if and only if no token or option byte is 0xFF. */
  lemma Gen1AgreesIffNoMarkerByte(m: Message)
    requires ValidMessage(m)
    ensures FirstMarker(Encode(m), 4) + 1 == PayloadStart(m) <==>
            MARKER !in m.token && MARKER !in OptionsBytes(m.options)
  {
    var data, end := Encode(m), PayloadStart(m) - 1;
    var middle := m.token + OptionsBytes(m.options);
    EncodedLayout(m);
    assert data[end..end + 1][0] == MARKER;
    var k := FirstMarker(data, 4);
    if k < end {
      assert middle[k - 4] == MARKER;
    } else {
      assert MARKER !in middle;
      assert forall b <- m.token :: b in middle;
      assert forall b <- OptionsBytes(m.options) :: b in middle;
    }
  }

  /** A token byte 0xFF is taken for the marker. */
  lemma Gen1TakesToken(payload: seq<byte>)
    requires payload != []
    ensures
      var m := Message(0, 1, 0, [MARKER], [], payload);
      FirstMarker(Encode(m), 4) + 1 == 5 && PayloadStart(m) == 6
  {
    var m := Message(0, 1, 0, [MARKER], [], payload);
    assert Encode(m)[4] == MARKER;
  }

  /** The three length forms on the wire, and the header's fields. */
  lemma WireFormat(value: seq<byte>)
    requires |value| == 300
    ensures OptionBytes(StandardOption(11, [7])) == [0xB1, 7]
    ensures OptionBytes(StandardOption(60, [])) == [0xD0, 47]
    ensures OptionBytes(StandardOption(3332, value)) == [0xEE, 0x0B, 0xF7, 0x00, 0x1F] + value
    ensures Header(Message(1, 30, 0x1234, [5, 6], [], [0])) == [0x52, 30, 0x12, 0x34, 5, 6]
  {
    assert StandardOption(3332, value).deltaExt == [0x0B, 0xF7];
    assert StandardOption(3332, value).lengthExt == [0x00, 0x1F];
  }
}
