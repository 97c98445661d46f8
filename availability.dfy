/**
 * The weekly availability mask: 336 half-hour flags (7 days of 48 slots, day 0 = Monday,
 * slot 0 = 00:00-00:30), packed eight to a byte and carried on a profile as base64 text.
 * Flag `i` is bit `i % 8` (least significant first) of byte `i / 8`.
 *
 * Also the schedule similarity: the Jaccard index of two decoded masks.
 */
module Availability {
  import opened Wrappers
  import opened Base64

  /** Flags in a week: 7 days of 48 half-hour slots. */
  const WeekSlots: nat := 336

  /** One decoded flag. */
  type Bit = x: int | 0 <= x <= 1

  /** `(byte >> j) & 1`: bit `j` of a byte. */
  function BitOfByte(b: bv8, j: nat): Bit
    requires j < 8
  {
    ((b >> j) & 1) as int
  }

  /** Whether flag `m` is set among the first `i` flags: JavaScript truthiness of `bits[m]`. */
  function FlagBit(bits: seq<int>, i: nat, m: nat): Bit {
    if m < i && m < |bits| && bits[m] != 0 then 1 else 0
  }

  /** The flag at position `m` as a byte holding 0 or 1. */
  function Flag(bits: seq<int>, m: nat): bv8 {
    if FlagBit(bits, |bits|, m) == 1 then 1 else 0
  }

  /** Byte `k` of the packed mask: flags 8k .. 8k+7, the first in the least significant bit. */
  function PackByte(bits: seq<int>, k: nat): bv8 {
    Flag(bits, 8 * k) | (Flag(bits, 8 * k + 1) << 1) | (Flag(bits, 8 * k + 2) << 2)
    | (Flag(bits, 8 * k + 3) << 3) | (Flag(bits, 8 * k + 4) << 4) | (Flag(bits, 8 * k + 5) << 5)
    | (Flag(bits, 8 * k + 6) << 6) | (Flag(bits, 8 * k + 7) << 7)
  }

  /** The `Uint8Array` of `Math.ceil(bits.length / 8)` bytes that the encoder fills. */
  function PackBits(bits: seq<int>): (bytes: seq<bv8>)
    ensures |bytes| == (|bits| + 7) / 8
  {
    seq((|bits| + 7) / 8, k requires 0 <= k => PackByte(bits, k))
  }

  /** Flag `i` as the decoder reads it: `bytes[i / 8] || 0`, then bit `i % 8`. */
  function ByteBit(bytes: seq<bv8>, i: nat): Bit {
    if i / 8 < |bytes| then BitOfByte(bytes[i / 8], i % 8) else 0
  }

  /** The `length` flags the decoder reads from some bytes. */
  function UnpackBits(bytes: seq<bv8>, length: nat): (bits: seq<Bit>)
    ensures |bits| == length
  {
    seq(length, i requires 0 <= i => ByteBit(bytes, i))
  }

  /** `base64ToBits(b64, length)`: `atob`, then `UnpackBits`; fails where `atob` throws. */
  function DecodeBits(b64: string, length: nat): Result<seq<Bit>, DecodeError> {
    match Atob(b64)
    case Ok(bytes) => Ok(UnpackBits(bytes, length))
    case Err(e) => Err(e)
  }

  /** The bit-level facts about a byte assembled from eight 0/1 flags. */
  lemma BitsOfFlags(f0: bv8, f1: bv8, f2: bv8, f3: bv8, f4: bv8, f5: bv8, f6: bv8, f7: bv8)
    requires f0 <= 1 && f1 <= 1 && f2 <= 1 && f3 <= 1 && f4 <= 1 && f5 <= 1 && f6 <= 1 && f7 <= 1
    ensures var b := f0 | (f1 << 1) | (f2 << 2) | (f3 << 3) | (f4 << 4) | (f5 << 5) | (f6 << 6) | (f7 << 7);
      && BitOfByte(b, 0) == f0 as int && BitOfByte(b, 1) == f1 as int
      && BitOfByte(b, 2) == f2 as int && BitOfByte(b, 3) == f3 as int
      && BitOfByte(b, 4) == f4 as int && BitOfByte(b, 5) == f5 as int
      && BitOfByte(b, 6) == f6 as int && BitOfByte(b, 7) == f7 as int
  {
  }

  /** Setting bit `j` of a byte changes that bit to 1 and no other bit. */
  lemma SetBit(b: bv8, j: nat, j': nat)
    requires j < 8 && j' < 8
    ensures BitOfByte(b | (1 << j), j') == if j' == j then 1 else BitOfByte(b, j')
  {
  }

  /** Two bytes whose eight bits agree are equal. */
  lemma ByteExtensionality(a: bv8, b: bv8)
    requires forall j :: 0 <= j < 8 ==> BitOfByte(a, j) == BitOfByte(b, j)
    ensures a == b
  {
    assert BitOfByte(a, 0) == BitOfByte(b, 0) && BitOfByte(a, 1) == BitOfByte(b, 1);
    assert BitOfByte(a, 2) == BitOfByte(b, 2) && BitOfByte(a, 3) == BitOfByte(b, 3);
    assert BitOfByte(a, 4) == BitOfByte(b, 4) && BitOfByte(a, 5) == BitOfByte(b, 5);
    assert BitOfByte(a, 6) == BitOfByte(b, 6) && BitOfByte(a, 7) == BitOfByte(b, 7);
  }

  /** The eight bits of packed byte `k` are flags `8k` to `8k + 7` of the input. */
  lemma PackByteBits(bits: seq<int>, k: nat)
    ensures var b := PackByte(bits, k);
      && BitOfByte(b, 0) == FlagBit(bits, |bits|, 8 * k) && BitOfByte(b, 1) == FlagBit(bits, |bits|, 8 * k + 1)
      && BitOfByte(b, 2) == FlagBit(bits, |bits|, 8 * k + 2) && BitOfByte(b, 3) == FlagBit(bits, |bits|, 8 * k + 3)
      && BitOfByte(b, 4) == FlagBit(bits, |bits|, 8 * k + 4) && BitOfByte(b, 5) == FlagBit(bits, |bits|, 8 * k + 5)
      && BitOfByte(b, 6) == FlagBit(bits, |bits|, 8 * k + 6) && BitOfByte(b, 7) == FlagBit(bits, |bits|, 8 * k + 7)
  {
    BitsOfFlags(Flag(bits, 8 * k), Flag(bits, 8 * k + 1), Flag(bits, 8 * k + 2), Flag(bits, 8 * k + 3),
                Flag(bits, 8 * k + 4), Flag(bits, 8 * k + 5), Flag(bits, 8 * k + 6), Flag(bits, 8 * k + 7));
  }

  /** Bit `j` of packed byte `k` is flag `8k + j` of the input. */
  lemma PackByteBit(bits: seq<int>, k: nat, j: nat)
    requires j < 8
    ensures BitOfByte(PackByte(bits, k), j) == FlagBit(bits, |bits|, 8 * k + j)
  {
    PackByteBits(bits, k);
    if j == 0 {
    } else if j == 1 {
    } else if j == 2 {
    } else if j == 3 {
    } else if j == 4 {
    } else if j == 5 {
    } else if j == 6 {
    } else {
      assert j == 7;
    }
  }

  /** Reading back position `i` of a packed mask gives flag `i`, and 0 past the end of the input. */
  lemma UnpackPackAt(bits: seq<int>, length: nat, i: nat)
    requires i < length
    ensures UnpackBits(PackBits(bits), length)[i] == FlagBit(bits, |bits|, i)
  {
    var bytes := PackBits(bits);
    if i / 8 < |bytes| {
      PackByteBit(bits, i / 8, i % 8);
    } else {
      assert i >= |bits|;
    }
  }

  /** Unpacking a packed mask gives its flags back, then zeros up to `length`. */
  lemma UnpackPack(bits: seq<Bit>, length: nat)
    requires |bits| <= length
    ensures UnpackBits(PackBits(bits), length) == bits + seq(length - |bits|, _ => 0)
  {
    var r := UnpackBits(PackBits(bits), length);
    var z := bits + seq(length - |bits|, _ => 0);
    forall i | 0 <= i < length ensures r[i] == z[i] {
      UnpackPackAt(bits, length, i);
    }
  }

  /**
   * `bitsToBase64`: ORs each truthy flag into a zeroed byte array, then applies `btoa`.
   * The result is the base64 text of the packed bytes.
   */
  method BitsToBase64(bits: seq<int>) returns (b64: string)
    ensures b64 == Btoa(PackBits(bits))
  {
    var bytes := new bv8[(|bits| + 7) / 8](_ => 0);
    var i := 0;
    while i < |bits|
      invariant 0 <= i <= |bits|
      invariant Packed(bits, i, bytes[..])
    {
      var k0, j0 := i / 8, i % 8;
      ghost var before := bytes[..];
      if bits[i] != 0 {
        bytes[k0] := bytes[k0] | (1 << j0);
      }
      PackStep(bits, i, before, bytes[..]);
      i := i + 1;
    }
    PackedBytes(bits, bytes[..]);
    b64 := Btoa(bytes[..]);
  }

  /** Whether each bit of `bytes` is the matching flag among the first `i`. */
  predicate Packed(bits: seq<int>, i: nat, bytes: seq<bv8>) {
    forall k, j :: 0 <= k < |bytes| && 0 <= j < 8 ==> BitOfByte(bytes[k], j) == FlagBit(bits, i, 8 * k + j)
  }

  /** One step of the packing loop: ORing in flag `i` when it is truthy packs one more flag. */
  lemma PackStep(bits: seq<int>, i: nat, before: seq<bv8>, after: seq<bv8>)
    requires i < |bits| && |before| == (|bits| + 7) / 8 && Packed(bits, i, before)
    requires after == if bits[i] != 0 then before[i / 8 := before[i / 8] | (1 << (i % 8))] else before
    ensures Packed(bits, i + 1, after)
  {
    var k0, j0 := i / 8, i % 8;
    forall k, j | 0 <= k < |after| && 0 <= j < 8
      ensures BitOfByte(after[k], j) == FlagBit(bits, i + 1, 8 * k + j)
    {
      Position(i, k, j);
      if k == k0 && bits[i] != 0 {
        SetBit(before[k0], j0, j);
      }
    }
  }

  /** Flag `8k + j` is flag `i` exactly when `k` and `j` are the byte and bit of `i`. */
  lemma Position(i: nat, k: nat, j: nat)
    requires j < 8
    ensures 8 * k + j == i <==> k == i / 8 && j == i % 8
  {
  }

  /** Bytes whose bits are all the flags, in order, are the packed mask. */
  lemma PackedBytes(bits: seq<int>, bytes: seq<bv8>)
    requires |bytes| == (|bits| + 7) / 8
    requires Packed(bits, |bits|, bytes)
    ensures bytes == PackBits(bits)
  {
    forall k | 0 <= k < |bytes| ensures bytes[k] == PackByte(bits, k) {
      forall j | 0 <= j < 8 ensures BitOfByte(bytes[k], j) == BitOfByte(PackByte(bits, k), j) {
        PackByteBit(bits, k, j);
      }
      ByteExtensionality(bytes[k], PackByte(bits, k));
    }
  }

  /**
   * `base64ToBits(b64, length)`: decodes with `atob` (which may throw) and pushes `length`
   * flags, reading a byte past the end of the decoded data as 0.
   */
  method Base64ToBits(b64: string, length: nat) returns (r: Result<seq<Bit>, DecodeError>)
    ensures r.Ok? ==> |r.value| == length
    ensures r == DecodeBits(b64, length)
  {
    var bin := Atob(b64);
    if bin.Err? {
      return Err(bin.error);
    }
    var bits := ReadBits(bin.value, length);
    return Ok(bits);
  }

  /** The loop of `base64ToBits`: flag `i` is bit `i % 8` of byte `i / 8`, or 0 past the end. */
  method ReadBits(bytes: seq<bv8>, length: nat) returns (bits: seq<Bit>)
    ensures bits == UnpackBits(bytes, length)
  {
    bits := [];
    for i := 0 to length
      invariant |bits| == i
      invariant forall m :: 0 <= m < i ==> bits[m] == ByteBit(bytes, m)
    {
      var byte: bv8 := if i / 8 < |bytes| then bytes[i / 8] else 0;
      bits := bits + [BitOfByte(byte, i % 8)];
    }
  }

  /** A decoded mask has exactly `length` flags, each the matching bit of the decoded bytes,
      and a flag whose byte lies past the end of the decoded data reads as 0. */
  lemma DecodeBitsAt(b64: string, length: nat, i: nat)
    requires DecodeBits(b64, length).Ok? && i < length
    ensures Atob(b64).Ok? && |DecodeBits(b64, length).value| == length
    ensures i / 8 >= |Atob(b64).value| ==> DecodeBits(b64, length).value[i] == 0
    ensures i / 8 < |Atob(b64).value| ==>
      DecodeBits(b64, length).value[i] == BitOfByte(Atob(b64).value[i / 8], i % 8)
  {
    var bytes := Atob(b64).value;
    assert DecodeBits(b64, length).value == UnpackBits(bytes, length);
    UnpackBitsAt(bytes, length, i);
  }

  /** Flag `i` of the unpacked bytes. */
  lemma UnpackBitsAt(bytes: seq<bv8>, length: nat, i: nat)
    requires i < length
    ensures i / 8 >= |bytes| ==> UnpackBits(bytes, length)[i] == 0
    ensures i / 8 < |bytes| ==> UnpackBits(bytes, length)[i] == BitOfByte(bytes[i / 8], i % 8)
  {
  }

  /** Decoding what was encoded gives the original flags, for a mask of any length. */
  lemma DecodeEncode(bits: seq<Bit>)
    ensures DecodeBits(Btoa(PackBits(bits)), |bits|) == Ok(bits)
  {
    AtobBtoa(PackBits(bits));
    UnpackPack(bits, |bits|);
    assert bits + seq(0, _ => 0) == bits;
  }

  /** The round trip for the 336-flag weekly mask, decoded with the default length. */
  lemma WeekMaskRoundTrip(bits: seq<Bit>)
    requires |bits| == WeekSlots
    ensures DecodeBits(Btoa(PackBits(bits)), WeekSlots) == Ok(bits)
  {
    DecodeEncode(bits);
  }

  // ---------------------------------------------------------------------------------------
  // Schedule similarity

  /** `ai & bi` on two flags. */
  function And(x: Bit, y: Bit): Bit {
    if x == 1 && y == 1 then 1 else 0
  }

  /** `ai | bi` on two flags. */
  function Or(x: Bit, y: Bit): Bit {
    if x == 1 || y == 1 then 1 else 0
  }

  /** The number of positions set in both masks. */
  function InterCount(a: seq<Bit>, b: seq<Bit>): nat
    requires |a| == |b|
  {
    if |a| == 0 then 0
    else InterCount(a[..|a| - 1], b[..|b| - 1]) + And(a[|a| - 1], b[|b| - 1])
  }

  /** The number of positions set in at least one mask. */
  function UnionCount(a: seq<Bit>, b: seq<Bit>): nat
    requires |a| == |b|
  {
    if |a| == 0 then 0
    else UnionCount(a[..|a| - 1], b[..|b| - 1]) + Or(a[|a| - 1], b[|b| - 1])
  }

  /** Whether no flag of a mask is set. */
  predicate AllZero(a: seq<Bit>) {
    forall i :: 0 <= i < |a| ==> a[i] == 0
  }

  /** The Jaccard index of two masks: intersection over union, 0 when the union is empty. */
  function Jaccard(a: seq<Bit>, b: seq<Bit>): real
    requires |a| == |b|
  {
    var u := UnionCount(a, b);
    if u == 0 then 0.0 else InterCount(a, b) as real / u as real
  }

  /** `jaccardFromMasks`: decodes both masks at the default length, then takes their index. */
  function MaskSimilarity(aB64: string, bB64: string): Result<real, DecodeError> {
    match DecodeBits(aB64, WeekSlots)
    case Err(e) => Err(e)
    case Ok(a) =>
      match DecodeBits(bB64, WeekSlots)
      case Err(e) => Err(e)
      case Ok(b) => Ok(Jaccard(a, b))
  }

  /** `jaccardFromMasks`: decodes both masks, then counts intersection and union in one loop. */
  method JaccardFromMasks(aB64: string, bB64: string) returns (r: Result<real, DecodeError>)
    ensures r == MaskSimilarity(aB64, bB64)
  {
    var da := Base64ToBits(aB64, WeekSlots);
    if da.Err? {
      return Err(da.error);
    }
    var db := Base64ToBits(bB64, WeekSlots);
    if db.Err? {
      return Err(db.error);
    }
    var inter, uni := CountMasks(da.value, db.value);
    r := Ok(if uni == 0 then 0.0 else inter as real / uni as real);
  }

  /** The loop of `jaccardFromMasks`: intersection and union counts, position by position. */
  method CountMasks(a: seq<Bit>, b: seq<Bit>) returns (inter: nat, uni: nat)
    requires |a| == |b|
    ensures inter == InterCount(a, b) && uni == UnionCount(a, b)
  {
    inter, uni := 0, 0;
    for i := 0 to |a|
      invariant inter == InterCount(a[..i], b[..i])
      invariant uni == UnionCount(a[..i], b[..i])
    {
      assert a[..i + 1][..i] == a[..i] && b[..i + 1][..i] == b[..i];
      inter := inter + And(a[i], b[i]);
      uni := uni + Or(a[i], b[i]);
    }
    assert a[..|a|] == a && b[..|b|] == b;
  }

  /** Intersection and union counts are symmetric, and the intersection never exceeds the union. */
  lemma {:induction false} CountFacts(a: seq<Bit>, b: seq<Bit>)
    requires |a| == |b|
    ensures InterCount(a, b) == InterCount(b, a)
    ensures UnionCount(a, b) == UnionCount(b, a)
    ensures InterCount(a, b) <= UnionCount(a, b)
  {
    if |a| > 0 {
      CountFacts(a[..|a| - 1], b[..|b| - 1]);
    }
  }

  /** The union is empty exactly when both masks are all zero. */
  lemma {:induction false} UnionEmpty(a: seq<Bit>, b: seq<Bit>)
    requires |a| == |b|
    ensures UnionCount(a, b) == 0 <==> AllZero(a) && AllZero(b)
  {
    if |a| > 0 {
      var a', b' := a[..|a| - 1], b[..|b| - 1];
      UnionEmpty(a', b');
      if AllZero(a) && AllZero(b) {
        assert AllZero(a') && AllZero(b');
      }
      if UnionCount(a, b) == 0 {
        forall i | 0 <= i < |a| ensures a[i] == 0 && b[i] == 0 {
          if i < |a| - 1 { assert a[i] == a'[i] && b[i] == b'[i]; }
        }
      }
    }
  }

  /** A mask meets itself everywhere it is set: intersection equals union. */
  lemma {:induction false} SelfCounts(a: seq<Bit>)
    ensures InterCount(a, a) == UnionCount(a, a)
  {
    if |a| > 0 {
      SelfCounts(a[..|a| - 1]);
    }
  }

  /** Similarity is symmetric and lies in [0, 1]. */
  lemma JaccardSymmetricBounded(a: seq<Bit>, b: seq<Bit>)
    requires |a| == |b|
    ensures Jaccard(a, b) == Jaccard(b, a)
    ensures 0.0 <= Jaccard(a, b) <= 1.0
  {
    CountFacts(a, b);
  }

  /** Similarity is 0 exactly when the union is empty or the masks share no set flag; in
      particular it is 0 for two all-zero masks. */
  lemma JaccardZero(a: seq<Bit>, b: seq<Bit>)
    requires |a| == |b|
    ensures AllZero(a) && AllZero(b) ==> Jaccard(a, b) == 0.0
    ensures Jaccard(a, b) == 0.0 <==> InterCount(a, b) == 0
  {
    UnionEmpty(a, b);
    CountFacts(a, b);
  }

  /** A mask with at least one flag set is fully similar to itself. */
  lemma JaccardSelf(a: seq<Bit>)
    requires !AllZero(a)
    ensures Jaccard(a, a) == 1.0
  {
    SelfCounts(a);
    UnionEmpty(a, a);
    var u := UnionCount(a, a);
    assert u != 0;
    assert InterCount(a, a) as real / u as real == u as real / u as real == 1.0;
  }

  /** Mask similarity is symmetric, fails exactly when a mask does not decode, and lies in [0, 1]. */
  lemma MaskSimilarityFacts(aB64: string, bB64: string)
    ensures MaskSimilarity(aB64, bB64).Ok? <==> DecodeBits(aB64, WeekSlots).Ok? && DecodeBits(bB64, WeekSlots).Ok?
    ensures MaskSimilarity(aB64, bB64).Ok? ==>
      MaskSimilarity(bB64, aB64) == MaskSimilarity(aB64, bB64) && 0.0 <= MaskSimilarity(aB64, bB64).value <= 1.0
  {
    if MaskSimilarity(aB64, bB64).Ok? {
      JaccardSymmetricBounded(DecodeBits(aB64, WeekSlots).value, DecodeBits(bB64, WeekSlots).value);
    }
  }
}
