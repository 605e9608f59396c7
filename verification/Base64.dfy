/**
 The two hand-written base64 encoders and the decoder.  The standard alphabet and padding are
 those of section 4 of RFC 4648.
 */
module Base64 {
  import opened Wrappers

  const UPPER := "ABCDEFGHIJKLMNOPQRSTUVWXYZ"
  const LOWER := "abcdefghijklmnopqrstuvwxyz"
  const ALPHABET := UPPER + LOWER + "0123456789+/"
  const PAD := '='

  // ----------------------------------------------------------------------- the alphabet

  /** The alphabet by ranges. */
  function CharOf(i: nat): (c: char)
    requires i < 64
    ensures c != PAD && IndexOf(c) == Some(i)
  {
    if i < 26 then (i + 65) as char
    else if i < 52 then (i - 26 + 97) as char
    else if i < 62 then (i - 52 + 48) as char
    else if i == 62 then '+' else '/'
  }

  /** The decoder's lookup table: the position of a character in the alphabet. */
  function IndexOf(c: char): (r: Option<nat>)
    ensures r.Some? ==> r.value < 64
  {
    if 'A' <= c <= 'Z' then Some(c as int - 65)
    else if 'a' <= c <= 'z' then Some(c as int - 97 + 26)
    else if '0' <= c <= '9' then Some(c as int - 48 + 52)
    else if c == '+' then Some(62)
    else if c == '/' then Some(63)
    else None
  }

  lemma Alphabet(i: nat)
    requires i < 64
    ensures |ALPHABET| == 64 && ALPHABET[i] == CharOf(i)
  {
    if i < 26 {
      assert UPPER[i] as int == i + 65;
    } else if i < 52 {
      assert LOWER[i - 26] as int == i - 26 + 97;
    } else {
      assert "0123456789+/"[i - 52] == CharOf(i);
    }
  }

  /** The lookup table inverts the alphabet and knows no other character. */
  lemma IndexOfIsInverse(c: char)
    ensures IndexOf(c).Some? ==> ALPHABET[IndexOf(c).value] == c
    ensures c in ALPHABET ==> IndexOf(c).Some?
  {
    if IndexOf(c).Some? {
      Alphabet(IndexOf(c).value);
    }
    if c in ALPHABET {
      var i :| 0 <= i < |ALPHABET| && ALPHABET[i] == c;
      Alphabet(i);
    }
  }

  // ------------------------------------------------------------------------ the encoding

  /** The i-th sextet of a 24-bit group, most significant first. */
  function Sextet(n: nat, i: nat): (s: nat)
    requires n < 0x100_0000 && i < 4
    ensures s < 64
  {
    if i == 0 then n / 0x40000 else if i == 1 then n / 0x1000 % 64 else if i == 2 then n / 0x40 % 64 else n % 64
  }

  function Char(n: nat, i: nat): char
    requires n < 0x100_0000 && i < 4
  {
    CharOf(Sextet(n, i))
  }

  function Group(a: byte, b: byte, c: byte): (n: nat)
    ensures n < 0x100_0000
  {
    a as int * 0x10000 + b as int * 0x100 + c as int
  }

  /** The four characters of a whole group. */
  function Chars(n: nat): (s: string)
    requires n < 0x100_0000
    ensures |s| == 4
  {
    [Char(n, 0), Char(n, 1), Char(n, 2), Char(n, 3)]
  }

  /** Up to three bytes as a group, the missing ones zero. */
  function GroupOf(chunk: seq<byte>): (n: nat)
    requires 1 <= |chunk| <= 3
    ensures n < 0x100_0000
  {
    Group(chunk[0], if |chunk| > 1 then chunk[1] else 0, if |chunk| > 2 then chunk[2] else 0)
  }

  /** One character more than bytes, padded to four or left short. */
  function EncodeGroup(chunk: seq<byte>, padded: bool): (s: string)
    requires 1 <= |chunk| <= 3
    ensures |s| == if padded then 4 else |chunk| + 1
  {
    Chars(GroupOf(chunk))[..|chunk| + 1] + seq(if padded then 3 - |chunk| else 0, _ => PAD)
  }

  function EncodeWith(data: seq<byte>, padded: bool): string {
    if data == [] then ""
    else
      var k := Min(3, |data|);
      EncodeGroup(data[..k], padded) + EncodeWith(data[k..], padded)
  }

  function Encode(data: seq<byte>): string {
    EncodeWith(data, true)
  }

  function RestOf(data: seq<byte>, i: nat): string {
    if i <= |data| then Encode(data[i..]) else ""
  }

  lemma EncodeNext(data: seq<byte>, i: nat, result: string, group: string)
    requires i < |data| && group == EncodeGroup(data[i..Min(i + 3, |data|)], true)
    ensures (result + group) + RestOf(data, i + 3) == result + RestOf(data, i)
  {
    var rest, next := data[i..], Min(i + 3, |data|);
    assert rest[..next - i] == data[i..next] && rest[next - i..] == data[next..];
    assert RestOf(data, i) == group + RestOf(data, next);
    assert RestOf(data, i + 3) == RestOf(data, next);
  }

  function Min(a: nat, b: nat): nat { if a < b then a else b }

  /** The LoRa package's encoder. */
  method EncodeLora(data: seq<byte>) returns (result: string)
    ensures result == Encode(data)
  {
    result := "";
    var i := 0;
    while i < |data|
      invariant 0 <= i && result + RestOf(data, i) == Encode(data)
    {
      var group := GroupLora(data[i..Min(i + 3, |data|)]);
      EncodeNext(data, i, result, group);
      result := result + group;
      i := i + 3;
    }
  }

  /** The characters appended in one round. */
  method GroupLora(chunk: seq<byte>) returns (group: string)
    requires 1 <= |chunk| <= 3
    ensures group == EncodeGroup(chunk, true)
  {
    var b: byte, c: byte := if |chunk| > 1 then chunk[1] else 0, if |chunk| > 2 then chunk[2] else 0;
    var n := Group(chunk[0], b, c);
    assert n / 0x40000 % 64 == Sextet(n, 0);
    var c0 := Letter(n / 0x40000 % 64);
    var c1 := Letter(n / 0x1000 % 64);
    var c2 := Letter(n / 0x40 % 64);
    var c3 := Letter(n % 64);
    match |chunk| {
      case 1 => group := [c0, c1, PAD, PAD];
      case 2 => group := [c0, c1, c2, PAD];
      case _ => group := [c0, c1, c2, c3];
    }
    PaddedGroup(chunk);
  }

  /** The transport package's encoder, which does not mask the top sextet. */
  method EncodeTransport(data: seq<byte>) returns (result: string)
    ensures result == Encode(data)
  {
    result := "";
    var i := 0;
    while i < |data|
      invariant 0 <= i && result + RestOf(data, i) == Encode(data)
    {
      var group := GroupTransport(data[i..Min(i + 3, |data|)]);
      EncodeNext(data, i, result, group);
      result := result + group;
      i := i + 3;
    }
  }

  /** The characters appended in one round. */
  method GroupTransport(chunk: seq<byte>) returns (group: string)
    requires 1 <= |chunk| <= 3
    ensures group == EncodeGroup(chunk, true)
  {
    var b: byte, c: byte := if |chunk| > 1 then chunk[1] else 0, if |chunk| > 2 then chunk[2] else 0;
    var n := Group(chunk[0], b, c);
    var c0 := Letter(n / 0x40000);
    var c1 := Letter(n / 0x1000 % 64);
    var c2 := Letter(n / 0x40 % 64);
    var c3 := Letter(n % 64);
    match |chunk| {
      case 1 => group := [c0, c1, PAD, PAD];
      case 2 => group := [c0, c1, c2, PAD];
      case _ => group := [c0, c1, c2, c3];
    }
    PaddedGroup(chunk);
  }

  method Letter(i: nat) returns (c: char)
    requires i < 64
    ensures c == CharOf(i)
  {
    Alphabet(i);
    c := ALPHABET[i];
  }

  lemma PaddedGroup(chunk: seq<byte>)
    requires 1 <= |chunk| <= 3
    ensures
      var n := GroupOf(chunk);
      EncodeGroup(chunk, true) == [Char(n, 0), Char(n, 1),
                                   if |chunk| > 1 then Char(n, 2) else PAD,
                                   if |chunk| > 2 then Char(n, 3) else PAD]
  {
  }

  lemma OneGroupMore(n: nat)
    requires n > 0
    ensures (n + 2) / 3 * 4 == (n - Min(3, n) + 2) / 3 * 4 + 4
  {
    if n < 3 {
      assert (n + 2) / 3 == 1;
    } else {
      assert (n + 2) / 3 == (n - 3 + 2) / 3 + 1;
    }
  }

  lemma {:induction false} EncodedLength(data: seq<byte>)
    ensures |Encode(data)| == (|data| + 2) / 3 * 4
  {
    if data != [] {
      EncodedLength(data[Min(3, |data|)..]);
      OneGroupMore(|data|);
    }
  }

  // ------------------------------------------------------------------------ the decoding

  /** A run-time panic of `make` on a negative length is an outcome of its own. */
  datatype DecodeError = InvalidCharacter | NegativeLength

  /** The bits read so far and how many characters gave them. */
  datatype Bits = Bits(n: nat, valid: nat)

  /** Reading up to four characters of one block; padding is skipped wherever it stands. */
  function ReadBlock(block: string): (r: Result<Bits, DecodeError>)
    requires |block| <= 4
    ensures r.Ok? ==> r.value.valid <= |block| && r.value.n < Power64(r.value.valid)
  {
    if block == "" then Ok(Bits(0, 0))
    else
      var k := |block| - 1;
      match ReadBlock(block[..k])
      case Err(e) => Err(e)
      case Ok(bits) =>
        if block[k] == PAD then Ok(bits)
        else
          match IndexOf(block[k])
          case None => Err(InvalidCharacter)
          case Some(i) => Ok(Bits(bits.n * 64 + i, bits.valid + 1))
  }

  function Power64(k: nat): (p: nat)
    requires k <= 4
    ensures 1 <= p <= 0x100_0000
  {
    if k == 0 then 1 else if k == 1 then 64 else if k == 2 then 0x1000 else if k == 3 then 0x40000 else 0x100_0000
  }

  /** The bits moved up to 24, six for each character that is missing. */
  function ShiftedUp(bits: Bits): nat {
    if bits.valid >= 4 then bits.n
    else if bits.valid == 3 then bits.n * 0x40
    else if bits.valid == 2 then bits.n * 0x1000
    else if bits.valid == 1 then bits.n * 0x40000
    else bits.n * 0x100_0000
  }

  /** The bytes of a block, the bits shifted up to 24 first. */
  function BlockBytes(bits: Bits): (bytes: seq<byte>)
    requires bits.valid <= 4 && bits.n < Power64(bits.valid)
    ensures |bytes| == if bits.valid < 2 then 0 else bits.valid - 1
  {
    var n := ShiftedUp(bits);
    if bits.valid < 2 then []
    else if bits.valid == 2 then [n / 0x10000 % 0x100]
    else if bits.valid == 3 then [n / 0x10000 % 0x100, n / 0x100 % 0x100]
    else [n / 0x10000 % 0x100, n / 0x100 % 0x100, n % 0x100]
  }

  /** As many bytes of a block as the buffer has room for. */
  function Taken(bits: Bits, room: nat): (bytes: seq<byte>)
    requires bits.valid <= 4 && bits.n < Power64(bits.valid)
    ensures |bytes| <= room
  {
    BlockBytes(bits)[..Min(|BlockBytes(bits)|, room)]
  }

  /** Decoding block by block into a buffer with `room` bytes left. */
  function DecodeBlocks(s: string, room: nat): Result<seq<byte>, DecodeError> {
    if s == "" then Ok([])
    else
      var k := Min(4, |s|);
      var bits := ReadBlock(s[..k]);
      if bits.Err? then Err(bits.error)
      else
        var taken := Taken(bits.value, room);
        Prepend(taken, DecodeBlocks(s[k..], room - |taken|))
  }

  function Padding(s: string): nat {
    if s == "" || s[|s| - 1] != PAD then 0
    else if |s| > 1 && s[|s| - 2] == PAD then 2 else 1
  }

  function OutputLength(s: string): int {
    |s| * 3 / 4 - Padding(s)
  }

  function Decode(s: string): Result<seq<byte>, DecodeError> {
    if s == "" then Ok([])
    else if OutputLength(s) < 0 then Err(NegativeLength)
    else DecodeBlocks(s, OutputLength(s))
  }

  method DecodeBase64(s: string) returns (r: Result<seq<byte>, DecodeError>)
    ensures r == Decode(s)
  {
    if s == "" {
      return Ok([]);
    }
    var padding := 0;
    if s[|s| - 1] == PAD {
      padding := padding + 1;
      if |s| > 1 && s[|s| - 2] == PAD {
        padding := padding + 1;
      }
    }
    var outputLen := |s| * 3 / 4 - padding;
    if outputLen < 0 {
      return Err(NegativeLength);
    }
    r := FillBuffer(s, outputLen);
  }

  /** The loop over the blocks, filling a buffer of the computed length. */
  method FillBuffer(s: string, outputLen: nat) returns (r: Result<seq<byte>, DecodeError>)
    ensures r == DecodeBlocks(s, outputLen)
  {
    var result := new byte[outputLen];
    var i, j := 0, 0;
    ghost var whole := DecodeBlocks(s, outputLen);
    NothingDone(s, outputLen, whole);
    assert result[..0] == [];
    while i < |s|
      invariant 0 <= j <= outputLen && DecodesTo(s, i, outputLen - j, result[..j], whole)
      decreases |s| - i
    {
      var error;
      error, j := NextBlock(s, i, result, j, whole);
      if error.Some? {
        return Err(error.value);
      }
      i := i + 4;
    }
    AllDone(s, i, outputLen - j, result[..j], whole);
    r := Ok(result[..j]);
  }

  /** The body of the loop: read a block and store its bytes. */
  method NextBlock(s: string, i: nat, result: array<byte>, start: nat, ghost whole: Result<seq<byte>, DecodeError>)
    returns (error: Option<DecodeError>, j: nat)
    requires i < |s| && start <= result.Length && DecodesTo(s, i, result.Length - start, result[..start], whole)
    modifies result
    ensures error.Some? ==> whole == Err(error.value)
    ensures error.None? ==> j <= result.Length && DecodesTo(s, i + 4, result.Length - j, result[..j], whole)
  {
    BlockStep(s, i, result.Length - start, result[..start], whole);
    var bits := ReadBlockLoop(s[i..Min(i + 4, |s|)]);
    if bits.Err? {
      return Some(bits.error), start;
    }
    j := StoreBlock(result, start, bits.value);
    error := None;
  }

  lemma NothingDone(s: string, room: nat, whole: Result<seq<byte>, DecodeError>)
    requires whole == DecodeBlocks(s, room)
    ensures DecodesTo(s, 0, room, [], whole)
  {
    assert s[0..] == s;
    PrependNothing(whole);
  }

  lemma AllDone(s: string, i: nat, room: nat, done: seq<byte>, whole: Result<seq<byte>, DecodeError>)
    requires i >= |s| && DecodesTo(s, i, room, done, whole)
    ensures whole == Ok(done)
  {
    PrependNothing(Ok(done));
  }

  /** The bytes done and what is left of the string from i on make the whole. */
  ghost predicate DecodesTo(s: string, i: nat, room: nat, done: seq<byte>, whole: Result<seq<byte>, DecodeError>) {
    Prepend(done, DecodeBlocks(s[Min(i, |s|)..], room)) == whole
  }

  lemma BlockStep(s: string, i: nat, room: nat, done: seq<byte>, whole: Result<seq<byte>, DecodeError>)
    requires i < |s| && DecodesTo(s, i, room, done, whole)
    ensures
      var bits := ReadBlock(s[i..Min(i + 4, |s|)]);
      if bits.Err? then whole == Err(bits.error)
      else DecodesTo(s, i + 4, room - |Taken(bits.value, room)|, done + Taken(bits.value, room), whole)
  {
    BlockSlices(s, i);
    FirstBlock(s[i..], s[i..Min(i + 4, |s|)], s[Min(i + 4, |s|)..], room, done);
  }

  lemma BlockSlices(s: string, i: nat)
    requires i < |s|
    ensures s[i..] == s[i..Min(i + 4, |s|)] + s[Min(i + 4, |s|)..]
    ensures |s[i..Min(i + 4, |s|)]| == Min(4, |s[i..]|)
  {
  }

  lemma FirstBlock(s: string, block: string, rest: string, room: nat, done: seq<byte>)
    requires s == block + rest && block != "" && |block| == Min(4, |s|)
    ensures
      var bits := ReadBlock(block);
      Prepend(done, DecodeBlocks(s, room)) ==
      if bits.Err? then Err(bits.error)
      else
        var taken := Taken(bits.value, room);
        Prepend(done + taken, DecodeBlocks(rest, room - |taken|))
  {
    var bits := ReadBlock(block);
    assert s[..|block|] == block && s[|block|..] == rest;
    if bits.Ok? {
      var taken := Taken(bits.value, room);
      PrependAgain(done, taken, DecodeBlocks(rest, room - |taken|));
    }
  }

  /** Storing the bytes of a block, each only while the buffer has room. */
  method StoreBlock(result: array<byte>, start: nat, bits: Bits) returns (j: nat)
    requires bits.valid <= 4 && bits.n < Power64(bits.valid) && start <= result.Length
    modifies result
    ensures start <= j <= result.Length && j == start + |Taken(bits, result.Length - start)|
    ensures result[..j] == old(result[..start]) + Taken(bits, result.Length - start)
  {
    var n := ShiftedUp(bits);
    j := start;
    if bits.valid >= 2 && j < result.Length {
      result[j] := n / 0x10000 % 0x100;
      j := j + 1;
    }
    if bits.valid >= 3 && j < result.Length {
      result[j] := n / 0x100 % 0x100;
      j := j + 1;
    }
    if bits.valid >= 4 && j < result.Length {
      result[j] := n % 0x100;
      j := j + 1;
    }
  }

  lemma PrependAgain(a: seq<byte>, b: seq<byte>, r: Result<seq<byte>, DecodeError>)
    ensures Prepend(a, Prepend(b, r)) == Prepend(a + b, r)
  {
    assert r.Ok? ==> a + (b + r.value) == a + b + r.value;
  }

  function Prepend(front: seq<byte>, r: Result<seq<byte>, DecodeError>): Result<seq<byte>, DecodeError> {
    if r.Err? then r else Ok(front + r.value)
  }

  lemma PrependNothing(r: Result<seq<byte>, DecodeError>)
    ensures Prepend([], r) == r
    ensures r.Ok? ==> Prepend(r.value, Ok([])) == r
  {
    assert r.Ok? ==> [] + r.value == r.value && r.value + [] == r.value;
  }

  /** The inner loop over the characters of a block. */
  method ReadBlockLoop(block: string) returns (r: Result<Bits, DecodeError>)
    requires |block| <= 4
    ensures r == ReadBlock(block)
  {
    var n: nat, valid: nat := 0, 0;
    for k := 0 to |block|
      invariant ReadBlock(block[..k]) == Ok(Bits(n, valid))
    {
      assert block[..k + 1][..k] == block[..k];
      var c := block[k];
      if c == PAD {
        continue;
      }
      var idx := IndexOf(c);
      if idx.None? {
        InvalidPrefix(block, k);
        return Err(InvalidCharacter);
      }
      n, valid := n * 64 + idx.value, valid + 1;
    }
    assert block[..|block|] == block;
    r := Ok(Bits(n, valid));
  }

  lemma {:induction false} InvalidPrefix(block: string, k: nat)
    requires k < |block| <= 4 && ReadBlock(block[..k + 1]) == Err(InvalidCharacter)
    ensures ReadBlock(block) == Err(InvalidCharacter)
  {
    if k + 1 == |block| {
      assert block[..k + 1] == block;
    } else {
      var init := block[..|block| - 1];
      assert init[..k + 1] == block[..k + 1];
      InvalidPrefix(init, k);
    }
  }

  /** `make` panics on exactly two inputs. */
  lemma NegativeLengthIffBarePadding(s: string)
    ensures Decode(s) == Err(NegativeLength) <==> s == "=" || s == "=="
  {
    if s != "" && OutputLength(s) >= 0 {
      NeverNegative(s, OutputLength(s));
    }
  }

  lemma {:induction false} NeverNegative(s: string, room: nat)
    ensures DecodeBlocks(s, room) != Err(NegativeLength)
  {
    if s != "" {
      var k := Min(4, |s|);
      BlockNeverNegative(s[..k]);
      if ReadBlock(s[..k]).Ok? {
        NeverNegative(s[k..], room - |Taken(ReadBlock(s[..k]).value, room)|);
      }
    }
  }

  lemma {:induction false} BlockNeverNegative(block: string)
    requires |block| <= 4
    ensures ReadBlock(block) != Err(NegativeLength)
  {
    if block != "" {
      BlockNeverNegative(block[..|block| - 1]);
    }
  }

  // ------------------------------------------------------------------------ what is refused

  predicate Readable(c: char) {
    c == PAD || IndexOf(c).Some?
  }

  predicate Clean(s: string) {
    forall i | 0 <= i < |s| :: Readable(s[i])
  }

  lemma {:induction false} BlockRefusedIff(block: string)
    requires |block| <= 4
    ensures ReadBlock(block).Ok? <==> Clean(block)
  {
    if block != "" {
      BlockRefusedIff(block[..|block| - 1]);
      CleanParts(block, |block| - 1);
    }
  }

  lemma CleanParts(s: string, k: nat)
    requires k <= |s|
    ensures Clean(s) <==> Clean(s[..k]) && Clean(s[k..])
  {
    if Clean(s[..k]) && Clean(s[k..]) {
      forall i | 0 <= i < |s| ensures Readable(s[i]) {
        assert if i < k then s[..k][i] == s[i] else s[k..][i - k] == s[i];
      }
    }
  }

  lemma {:induction false} BlocksRefusedIff(s: string, room: nat)
    ensures DecodeBlocks(s, room).Ok? <==> Clean(s)
  {
    if s != "" {
      var k := Min(4, |s|);
      var bits := ReadBlock(s[..k]);
      BlockRefusedIff(s[..k]);
      CleanParts(s, k);
      if bits.Ok? {
        BlocksRefusedIff(s[k..], room - |Taken(bits.value, room)|);
      }
    }
  }

  /** Every character is padding or of the alphabet. */
  predicate OfAlphabet(s: string) {
    forall i | 0 <= i < |s| :: s[i] == PAD || s[i] in ALPHABET
  }

  lemma CleanIsOfAlphabet(s: string)
    ensures Clean(s) <==> OfAlphabet(s)
  {
    forall i | 0 <= i < |s| ensures Readable(s[i]) <==> s[i] == PAD || s[i] in ALPHABET {
      IndexOfIsInverse(s[i]);
    }
  }

  /** Apart from the two inputs on which it panics, the decoder refuses exactly the strings with a
      character that is neither padding nor of the alphabet. */
  lemma RefusesIffForeign(s: string)
    ensures Decode(s).Ok? <==> OfAlphabet(s) && s != "=" && s != "=="
    ensures !OfAlphabet(s) ==> Decode(s) == Err(InvalidCharacter)
  {
    CleanIsOfAlphabet(s);
    NegativeLengthIffBarePadding(s);
    if s != "" && OutputLength(s) >= 0 {
      BlocksRefusedIff(s, OutputLength(s));
      OneOtherError(DecodeBlocks(s, OutputLength(s)));
    }
  }

  lemma OneOtherError(r: Result<seq<byte>, DecodeError>)
    requires r != Err(NegativeLength)
    ensures r.Err? ==> r == Err(InvalidCharacter)
  {
    if r.Err? {
      match r.error
      case InvalidCharacter =>
      case NegativeLength =>
    }
  }

  // ---------------------------------------------------------------------- the round trip

  /** The first k of a group's sextets as a number. */
  function HighSextets(n: nat, k: nat): nat
    requires n < 0x100_0000 && k <= 4
  {
    if k == 4 then n
    else if k == 3 then n / 0x40
    else if k == 2 then n / 0x1000
    else if k == 1 then n / 0x40000
    else 0
  }

  /** Reading k characters of a group gives its first k sextets; padding adds nothing. */
  lemma ReadGroup(n: nat, k: nat, pads: nat)
    requires n < 0x100_0000 && 2 <= k <= 4 && k + pads <= 4
    ensures ReadBlock(Chars(n)[..k] + seq(pads, _ => PAD)) == Ok(Bits(HighSextets(n, k), k))
  {
    ReadSextets(n, k);
    SkipPads(Chars(n)[..k], pads);
  }

  lemma {:induction false} ReadSextets(n: nat, k: nat)
    requires n < 0x100_0000 && k <= 4
    ensures ReadBlock(Chars(n)[..k]) == Ok(Bits(HighSextets(n, k), k))
  {
    if k > 0 {
      ReadSextets(n, k - 1);
      assert Chars(n)[..k][..k - 1] == Chars(n)[..k - 1];
      ReadOneMore(Chars(n)[..k], HighSextets(n, k - 1), k - 1, Sextet(n, k - 1));
      NextSextet(n, k);
    }
  }

  lemma ReadOneMore(block: string, n: nat, valid: nat, i: nat)
    requires 0 < |block| <= 4 && i < 64 && block[|block| - 1] == CharOf(i)
    requires ReadBlock(block[..|block| - 1]) == Ok(Bits(n, valid))
    ensures ReadBlock(block) == Ok(Bits(n * 64 + i, valid + 1))
  {
  }

  lemma NextSextet(n: nat, k: nat)
    requires n < 0x100_0000 && 1 <= k <= 4
    ensures HighSextets(n, k) == HighSextets(n, k - 1) * 64 + Sextet(n, k - 1)
  {
  }

  lemma {:induction false} SkipPads(block: string, pads: nat)
    requires |block| + pads <= 4
    ensures ReadBlock(block + seq(pads, _ => PAD)) == ReadBlock(block)
  {
    var padded := block + seq(pads, _ => PAD);
    if pads == 0 {
      assert padded == block;
    } else {
      assert padded[..|padded| - 1] == block + seq(pads - 1, _ => PAD);
      SkipPads(block, pads - 1);
    }
  }

  /** The bytes of a group come back, as many as characters were read less one. */
  lemma GroupBytes(a: byte, b: byte, c: byte, k: nat)
    requires 2 <= k <= 4 && (k < 4 ==> c == 0) && (k < 3 ==> b == 0)
    ensures
      var bits := Bits(HighSextets(Group(a, b, c), k), k);
      bits.n < Power64(k) && BlockBytes(bits) == [a, b, c][..k - 1]
  {
    var n := Group(a, b, c);
    BytesOfGroup(a, b, c);
    HighIsWhole(a, b, c, k);
    assert ShiftedUp(Bits(HighSextets(n, k), k)) == n;
  }

  lemma HighIsWhole(a: byte, b: byte, c: byte, k: nat)
    requires 2 <= k <= 4 && (k < 4 ==> c == 0) && (k < 3 ==> b == 0)
    ensures HighSextets(Group(a, b, c), k) < Power64(k)
    ensures ShiftedUp(Bits(HighSextets(Group(a, b, c), k), k)) == Group(a, b, c)
  {
    if k == 2 {
      assert Group(a, b, c) / 0x1000 == a as int * 0x10;
    } else if k == 3 {
      assert Group(a, b, c) / 0x40 == a as int * 0x400 + b as int * 4;
    }
  }

  lemma BytesOfGroup(a: byte, b: byte, c: byte)
    ensures
      var n := Group(a, b, c);
      n / 0x10000 == a && n / 0x10000 % 0x100 == a && n / 0x100 % 0x100 == b && n % 0x100 == c
  {
    assert Group(a, b, c) / 0x100 == a as int * 0x100 + b as int;
  }

  lemma DecodeOneGroup(chunk: seq<byte>, padded: bool)
    requires 1 <= |chunk| <= 3
    ensures
      var s := EncodeGroup(chunk, padded);
      ReadBlock(s).Ok? && BlockBytes(ReadBlock(s).value) == chunk
  {
    var b: byte, c: byte := if |chunk| > 1 then chunk[1] else 0, if |chunk| > 2 then chunk[2] else 0;
    var k := |chunk| + 1;
    ReadGroup(GroupOf(chunk), k, if padded then 4 - k else 0);
    GroupBytes(chunk[0], b, c, k);
    assert [chunk[0], b, c][..k - 1] == chunk;
  }

  lemma PaddingOfGroup(chunk: seq<byte>, padded: bool)
    requires 1 <= |chunk| <= 3
    ensures Padding(EncodeGroup(chunk, padded)) == if padded then 3 - |chunk| else 0
  {
    var s, n := EncodeGroup(chunk, padded), GroupOf(chunk);
    assert s[|chunk|] == Char(n, |chunk|);
    assert s[|chunk| - 1] == Char(n, |chunk| - 1);
  }

  lemma PaddingOfTail(head: string, tail: string)
    requires |tail| >= 2
    ensures Padding(head + tail) == Padding(tail)
  {
  }

  lemma {:induction false} LengthRestored(data: seq<byte>, padded: bool)
    requires data != []
    ensures |EncodeWith(data, padded)| >= 2 && OutputLength(EncodeWith(data, padded)) == |data|
  {
    var k := Min(3, |data|);
    var first, rest := EncodeGroup(data[..k], padded), EncodeWith(data[k..], padded);
    if |data| <= 3 {
      PaddingOfGroup(data[..k], padded);
      assert data[k..] == [] && first + rest == first;
    } else {
      LengthRestored(data[k..], padded);
      PaddingOfTail(first, rest);
      assert (|rest| + 4) * 3 / 4 == |rest| * 3 / 4 + 3;
    }
  }

  ghost predicate Decodes(s: string, data: seq<byte>) {
    DecodeBlocks(s, |data|) == Ok(data)
  }

  lemma FirstGroup(data: seq<byte>, padded: bool)
    requires data != []
    ensures
      var k := Min(3, |data|);
      var first, rest := EncodeGroup(data[..k], padded), EncodeWith(data[k..], padded);
      EncodeWith(data, padded) == first + rest && |first| == Min(4, |first + rest|)
  {
    assert |data| < 3 ==> data[|data|..] == [];
  }

  lemma DecodesOneGroupMore(data: seq<byte>, padded: bool)
    requires data != [] && Decodes(EncodeWith(data[Min(3, |data|)..], padded), data[Min(3, |data|)..])
    ensures Decodes(EncodeWith(data, padded), data)
  {
    var k := Min(3, |data|);
    var head, tail := data[..k], data[k..];
    var first, rest := EncodeGroup(head, padded), EncodeWith(tail, padded);
    FirstGroup(data, padded);
    DecodeOneGroup(head, padded);
    DecodeJoined(first, rest, head, tail);
    assert data == head + tail;
  }

  lemma {:induction false} DecodesEncoded(data: seq<byte>, padded: bool)
    ensures Decodes(EncodeWith(data, padded), data)
  {
    if data != [] {
      DecodesEncoded(data[Min(3, |data|)..], padded);
      DecodesOneGroupMore(data, padded);
    }
  }

  lemma DecodeJoined(first: string, rest: string, head: seq<byte>, tail: seq<byte>)
    requires first != "" && |first| == Min(4, |first + rest|)
    requires ReadBlock(first).Ok? && BlockBytes(ReadBlock(first).value) == head
    requires Decodes(rest, tail)
    ensures Decodes(first + rest, head + tail)
  {
    var s := first + rest;
    assert s[..|first|] == first && s[|first|..] == rest;
    assert head[..|head|] == head;
  }

  /** Decoding undoes encoding for every byte string, and the padding is optional. */
  lemma RoundTrip(data: seq<byte>)
    ensures Decode(Encode(data)) == Ok(data)
    ensures Decode(EncodeWith(data, false)) == Ok(data)
  {
    DecodesEncoded(data, true);
    DecodesEncoded(data, false);
    if data != [] {
      LengthRestored(data, true);
      LengthRestored(data, false);
    }
  }

  /** So no two byte strings share an encoding. */
  lemma EncodeInjective(a: seq<byte>, b: seq<byte>)
    requires Encode(a) == Encode(b)
    ensures a == b
  {
    RoundTrip(a);
    RoundTrip(b);
  }

  lemma SextetsOf(a: byte, b: byte, c: byte)
    ensures
      var n := Group(a, b, c);
      && Sextet(n, 0) == a / 4
      && Sextet(n, 1) == a % 4 * 16 + b / 16
      && Sextet(n, 2) == b % 16 * 4 + c / 64
      && Sextet(n, 3) == c % 64
  {
    var n, x, y: nat := Group(a, b, c), a / 4, a % 4;
    var z, t, v, w: nat := b / 16, b % 16, c / 64, c % 64;
    var s1, s2 := y * 16 + z, t * 4 + v;
    assert n == x * 0x40000 + s1 * 0x1000 + s2 * 0x40 + w;
    assert n / 0x40 == x * 0x1000 + s1 * 0x40 + s2;
    assert n / 0x1000 == x * 0x40 + s1;
  }

  lemma CharsOf(a: byte, b: byte, c: byte)
    ensures Chars(Group(a, b, c)) ==
            [Letter64(a / 4), Letter64(a % 4 * 16 + b / 16), Letter64(b % 16 * 4 + c / 64), Letter64(c % 64)]
  {
    SextetsOf(a, b, c);
    forall i | 0 <= i < 64 ensures Letter64(i) == CharOf(i) {
      Alphabet(i);
    }
  }

  function Letter64(i: nat): char
    requires i < 64
  {
    Alphabet(i);
    ALPHABET[i]
  }

  lemma EncodeAlone(chunk: seq<byte>)
    requires 1 <= |chunk| <= 3
    ensures Encode(chunk) == EncodeGroup(chunk, true)
  {
    var k := Min(3, |chunk|);
    FirstGroup(chunk, true);
    assert chunk[..k] == chunk;
    assert chunk[k..] == [];
    assert EncodeWith([], true) == "";
  }

  /** The encoding of section 4 of RFC 4648, three bytes at a time from the front. */
  lemma StandardEncoding(a: byte, b: byte, c: byte, rest: seq<byte>)
    ensures Encode([]) == ""
    ensures Encode([a]) == [Letter64(a / 4), Letter64(a % 4 * 16), PAD, PAD]
    ensures Encode([a, b]) == [Letter64(a / 4), Letter64(a % 4 * 16 + b / 16), Letter64(b % 16 * 4), PAD]
    ensures Encode([a, b, c] + rest) ==
            [Letter64(a / 4), Letter64(a % 4 * 16 + b / 16), Letter64(b % 16 * 4 + c / 64), Letter64(c % 64)]
            + Encode(rest)
  {
    OneByte(a);
    TwoBytes(a, b);
    WholeGroupFirst([a, b, c], rest);
    CharsOf(a, b, c);
  }

  lemma OneByte(a: byte)
    ensures Encode([a]) == [Letter64(a / 4), Letter64(a % 4 * 16), PAD, PAD]
  {
    EncodeAlone([a]);
    PaddedGroup([a]);
    CharsOf(a, 0, 0);
  }

  lemma TwoBytes(a: byte, b: byte)
    ensures Encode([a, b]) == [Letter64(a / 4), Letter64(a % 4 * 16 + b / 16), Letter64(b % 16 * 4), PAD]
  {
    EncodeAlone([a, b]);
    PaddedGroup([a, b]);
    CharsOf(a, b, 0);
  }

  lemma WholeGroupFirst(chunk: seq<byte>, rest: seq<byte>)
    requires |chunk| == 3
    ensures Encode(chunk + rest) == Chars(Group(chunk[0], chunk[1], chunk[2])) + Encode(rest)
  {
    assert (chunk + rest)[..3] == chunk && (chunk + rest)[3..] == rest;
    FirstGroup(chunk + rest, true);
    PaddedGroup(chunk);
  }
}
