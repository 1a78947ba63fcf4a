/** `set_large_address_aware` in tasks/largeaddress.py: find the PE header of
    a Windows executable and set the IMAGE_FILE_LARGE_ADDRESS_AWARE bit of its
    Characteristics word, in place. Integers are read and written with
    `struct` formats "i" and "h": little-endian, signed, 4 and 2 bytes. */
module PeHeader {
  import opened Wrappers
  import opened Files

  const LargeAddressAware: int := 0x0020
  const PeHeaderOffset: int := 60
  const CharacteristicsOffset: int := 18

  datatype PeError =
    | NoMzHeader               // first two bytes are not "MZ" (`sys.exit(1)`)
    | ShortRead(offset: int)   // `struct.error`: fewer bytes than the format needs
    | NegativeSeek(offset: int) // `f.seek` of a negative PE header location
    | BadPeSignature(offset: int) // no "PE\0\0" at the header location (`sys.exit(1)`)

  /** `struct.unpack("i", ...)`. */
  function UnpackInt32(b0: byte, b1: byte, b2: byte, b3: byte): (v: int)
    ensures -0x8000_0000 <= v < 0x8000_0000
  {
    var u := b0 + 0x100 * b1 + 0x1_0000 * b2 + 0x100_0000 * b3;
    if u >= 0x8000_0000 then u - 0x1_0000_0000 else u
  }

  /** `struct.unpack("h", ...)`. */
  function UnpackInt16(b0: byte, b1: byte): (v: int)
    ensures -0x8000 <= v < 0x8000
  {
    var u := b0 + 0x100 * b1;
    if u >= 0x8000 then u - 0x1_0000 else u
  }

  /** `struct.pack("h", v)`: low byte first. */
  function PackInt16(v: int): (bytes: (byte, byte))
    requires -0x8000 <= v < 0x8000
  {
    var u := v % 0x1_0000;
    (u % 0x100, u / 0x100)
  }

  /** `bits & 0x20 == 0x20` on a two's-complement integer. */
  predicate HasFlag(bits: int)
  {
    (bits / LargeAddressAware) % 2 == 1
  }

  /** `bits | 0x20` on a two's-complement integer. */
  function SetFlag(bits: int): (r: int)
    requires -0x8000 <= bits < 0x8000
    ensures -0x8000 <= r < 0x8000
    ensures HasFlag(r)
  {
    if HasFlag(bits) then bits
    else
      FlagClearBelowMax(bits);
      bits + LargeAddressAware
  }

  lemma FlagClearBelowMax(bits: int)
    requires bits < 0x8000 && !HasFlag(bits)
    ensures bits + LargeAddressAware < 0x8000
    ensures HasFlag(bits + LargeAddressAware)
  {
    var q := bits / 32;
    assert bits == 32 * q + bits % 32;
    assert (bits + 32) / 32 == q + 1;
  }

  /** Where the Characteristics word lives, or why the header is rejected. */
  function CharacteristicsAt(s: seq<byte>): (r: Result<nat, PeError>)
    ensures r.Success? ==> r.value + 2 <= |s|
  {
    if |s| < 2 || s[0] != 'M' as byte || s[1] != 'Z' as byte then Failure(NoMzHeader)
    else if |s| < PeHeaderOffset + 4 then Failure(ShortRead(PeHeaderOffset))
    else
      var loc := UnpackInt32(s[60], s[61], s[62], s[63]);
      if loc < 0 then Failure(NegativeSeek(loc))
      else if loc + 4 > |s| || s[loc..loc + 4] != ['P' as byte, 'E' as byte, 0, 0] then Failure(BadPeSignature(loc))
      else if loc + 4 + CharacteristicsOffset + 2 > |s| then Failure(ShortRead(loc + 4 + CharacteristicsOffset))
      else Success(loc + 4 + CharacteristicsOffset)
  }

  /** The returned value: whether the bit was already set. */
  function LaaOutcome(s: seq<byte>): Result<bool, PeError>
  {
    var c :- CharacteristicsAt(s);
    Success(HasFlag(UnpackInt16(s[c], s[c + 1])))
  }

  /** The file contents afterwards. */
  function LaaPatched(s: seq<byte>): seq<byte>
  {
    match CharacteristicsAt(s)
    case Failure(_) => s
    case Success(c) =>
      var bits := UnpackInt16(s[c], s[c + 1]);
      if HasFlag(bits) then s
      else
        var bytes := PackInt16(SetFlag(bits));
        s[c := bytes.0][c + 1 := bytes.1]
  }

  method SetLargeAddressAware(image: array<byte>) returns (r: Result<bool, PeError>)
    modifies image
    ensures r == LaaOutcome(old(image[..]))
    ensures image[..] == LaaPatched(old(image[..]))
  {
    if image.Length < 2 || image[0] != 'M' as byte || image[1] != 'Z' as byte {
      return Failure(NoMzHeader);
    }
    if image.Length < PeHeaderOffset + 4 {
      return Failure(ShortRead(PeHeaderOffset));
    }
    var loc := UnpackInt32(image[60], image[61], image[62], image[63]);
    if loc < 0 {
      return Failure(NegativeSeek(loc));
    }
    if loc + 4 > image.Length || image[loc..loc + 4] != ['P' as byte, 'E' as byte, 0, 0] {
      return Failure(BadPeSignature(loc));
    }
    var c := loc + 4 + CharacteristicsOffset;
    if c + 2 > image.Length {
      return Failure(ShortRead(c));
    }
    var bits := UnpackInt16(image[c], image[c + 1]);
    if HasFlag(bits) {
      return Success(true);
    }
    var bytes := PackInt16(SetFlag(bits));
    image[c] := bytes.0;
    image[c + 1] := bytes.1;
    r := Success(false);
  }

  // ---------------------------------------------------------------------
  // properties

  /** `struct` round trips for the 16-bit word. */
  lemma Int16RoundTrip(b0: byte, b1: byte, v: int)
    requires -0x8000 <= v < 0x8000
    ensures PackInt16(UnpackInt16(b0, b1)) == (b0, b1)
    ensures UnpackInt16(PackInt16(v).0, PackInt16(v).1) == v
  {
  }

  /** Setting the flag on a little-endian word adds 32 to its low byte and
      leaves its high byte alone; the flag is bit 5 of the low byte. */
  lemma SetFlagOnBytes(b0: byte, b1: byte)
    ensures HasFlag(UnpackInt16(b0, b1)) <==> (b0 / 32) % 2 == 1
    ensures !HasFlag(UnpackInt16(b0, b1)) ==> b0 + 32 < 0x100 && PackInt16(SetFlag(UnpackInt16(b0, b1))) == (b0 + 32, b1)
  {
    var u := b0 + 0x100 * b1;
    var v := UnpackInt16(b0, b1);
    assert u / 32 == b0 / 32 + 8 * b1 by {
      assert u == 32 * (b0 / 32 + 8 * b1) + b0 % 32;
    }
    assert (v / 32) % 2 == (b0 / 32) % 2 by {
      if u >= 0x8000 {
        assert v == u - 0x1_0000;
        assert v / 32 == u / 32 - 0x800;
      }
    }
    if !HasFlag(v) {
      assert b0 + 32 < 0x100;
      assert SetFlag(v) == v + 32;
      assert (v + 32) % 0x1_0000 == u + 32;
      assert u + 32 == (b0 + 32) + 0x100 * b1;
    }
  }

  /** Errors leave the file untouched. */
  lemma ErrorsChangeNothing(s: seq<byte>)
    requires LaaOutcome(s).Failure?
    ensures LaaPatched(s) == s
  {
  }

  /** The patch only ever adds 32 to the low byte of the Characteristics
      word, and only when the bit was clear; every other byte is kept. */
  lemma PatchTouchesOnlyTheFlag(s: seq<byte>)
    ensures |LaaPatched(s)| == |s|
    ensures CharacteristicsAt(s).Success? && LaaOutcome(s) == Success(false) ==>
      var c := CharacteristicsAt(s).value;
      s[c] < 0x100 - 32 && LaaPatched(s) == s[c := s[c] + 32]
    ensures LaaOutcome(s) != Success(false) ==> LaaPatched(s) == s
  {
    match CharacteristicsAt(s) {
      case Failure(_) =>
      case Success(c) =>
        var bits := UnpackInt16(s[c], s[c + 1]);
        SetFlagOnBytes(s[c], s[c + 1]);
        if !HasFlag(bits) {
          var t := s[c := s[c] + 32];
          assert t[c + 1 := s[c + 1]] == t;
          assert LaaPatched(s) == t[c + 1 := s[c + 1]];
        }
    }
  }

  /** The PE header starts after the 64-byte DOS header, as in every real
      executable: then the patched word cannot overlap the header pointer. */
  predicate HeaderAfterDosStub(s: seq<byte>)
  {
    |s| >= 64 && UnpackInt32(s[60], s[61], s[62], s[63]) >= 64
  }

  /** Patching twice is patching once, and the second call reports the bit
      as already set. */
  lemma PatchIdempotent(s: seq<byte>)
    requires HeaderAfterDosStub(s)
    ensures LaaPatched(LaaPatched(s)) == LaaPatched(s)
    ensures LaaOutcome(s).Success? ==> LaaOutcome(LaaPatched(s)) == Success(true)
  {
    PatchTouchesOnlyTheFlag(s);
    if LaaOutcome(s) == Success(false) {
      var c := CharacteristicsAt(s).value;
      var t := LaaPatched(s);
      var loc := UnpackInt32(s[60], s[61], s[62], s[63]);
      assert t[0] == s[0] && t[1] == s[1];
      assert t[60] == s[60] && t[61] == s[61] && t[62] == s[62] && t[63] == s[63];
      assert t[loc..loc + 4] == s[loc..loc + 4];
      assert CharacteristicsAt(t) == CharacteristicsAt(s);
      SetFlagOnBytes(s[c], s[c + 1]);
      SetFlagOnBytes(t[c], t[c + 1]);
      assert (t[c] / 32) % 2 == 1 by {
        assert t[c] == s[c] + 32;
        assert (s[c] + 32) / 32 == s[c] / 32 + 1;
      }
    }
  }
}
