/** utils/uuidv4.go: random UUIDs of version 4 (sections 4.1.1, 4.1.3 and 4.4 of RFC 4122). */
module Uuid {
  import opened Wrappers
  import opened Hex

  /** Sixteen bytes, the buffer `rand.Read` fills. */
  type Block = b: seq<byte> | |b| == 16 witness seq(16, _ => 0 as byte)

  const RandomFailure := AppError(500, "Failed to create random bytes.")

  /** `b & 0x0f | 0x40`: keep the low nibble, set the version nibble to 4. */
  function VersionByte(b: byte): (r: byte)
    ensures r as int / 16 == 4 && r as int % 16 == b as int % 16
  {
    (b as int % 16 + 64) as byte
  }

  /** `b & 0x3f | 0x80`: keep the low six bits, set the two top bits to 10. */
  function VariantByte(b: byte): (r: byte)
    ensures r as int / 64 == 2 && r as int % 64 == b as int % 64
  {
    (b as int % 64 + 128) as byte
  }

  /** Version nibble 4 in byte 6 and variant bits 10 in byte 8; every other byte is kept. */
  function Stamp(b: Block): (r: Block)
    ensures forall i :: 0 <= i < 16 && i != 6 && i != 8 ==> r[i] == b[i]
  {
    b[6 := VersionByte(b[6])][8 := VariantByte(b[8])]
  }

  /** `%x-%x-%x-%x-%x` over the byte groups 4, 2, 2, 2 and 6. */
  function Format(b: Block): string
  {
    Encode(b[..4]) + "-" + Encode(b[4..6]) + "-" + Encode(b[6..8]) + "-" + Encode(b[8..10]) + "-" + Encode(b[10..])
  }

  predicate IsDashPosition(i: int)
  {
    i == 8 || i == 13 || i == 18 || i == 23
  }

  /** 36 characters: lowercase hex digit groups of 8, 4, 4, 4 and 12, separated by dashes. */
  lemma FormatShape(b: Block)
    ensures |Format(b)| == 36
    ensures forall i :: 0 <= i < 36 ==> if IsDashPosition(i) then Format(b)[i] == '-' else IsLowerHexDigit(Format(b)[i])
  {
    var s := Format(b);
    var g0, g1, g2, g3, g4 := Encode(b[..4]), Encode(b[4..6]), Encode(b[6..8]), Encode(b[8..10]), Encode(b[10..]);
    EncodeDigits(b[..4]);
    EncodeDigits(b[4..6]);
    EncodeDigits(b[6..8]);
    EncodeDigits(b[8..10]);
    EncodeDigits(b[10..]);
    assert s == g0 + "-" + g1 + "-" + g2 + "-" + g3 + "-" + g4;
    forall i | 0 <= i < 36
      ensures if IsDashPosition(i) then s[i] == '-' else IsLowerHexDigit(s[i])
    {
      if i < 8 { assert s[i] == g0[i]; }
      else if 8 < i < 13 { assert s[i] == g1[i - 9]; }
      else if 13 < i < 18 { assert s[i] == g2[i - 14]; }
      else if 18 < i < 23 { assert s[i] == g3[i - 19]; }
      else if 23 < i { assert s[i] == g4[i - 24]; }
    }
  }

  /** The version digit (index 14) is '4' and the variant digit (index 19) is one of 8, 9, a, b. */
  lemma VersionAndVariantDigits(b: Block)
    ensures Format(Stamp(b))[14] == '4'
    ensures Format(Stamp(b))[19] in {'8', '9', 'a', 'b'}
  {
    var r := Stamp(b);
    var s := Format(r);
    assert s[14] == Encode(r[6..8])[0];
    assert s[19] == Encode(r[8..10])[0];
    EncodeAt(r[6..8], 0);
    EncodeAt(r[8..10], 0);
    var v := r[8] as int / 16;
    assert 8 <= v < 12;
  }

  /** What one call of GenerateUUIDv4 returns for one read of the random source. */
  function FromRandom(read: Option<Block>): (r: Result<string>)
    ensures r.Err? <==> read.None?
    ensures r.Err? ==> r.error == RandomFailure
  {
    match read
    case None => Err(RandomFailure)
    case Some(b) => Ok(Format(Stamp(b)))
  }

  /**
   * The identifiers a random source yields: read number k of `source` is
   * the outcome of the k-th call of `rand.Read`, None when it fails.
   */
  function Draws(source: nat -> Option<Block>): (nat -> Result<string>)
  {
    (k: nat) => FromRandom(source(k))
  }

  /** Every failed draw fails with the random-source error. */
  lemma DrawFailures(source: nat -> Option<Block>)
    ensures forall k: nat :: Draws(source)(k).Err? ==> Draws(source)(k).error == RandomFailure
  {
    forall k: nat
      ensures Draws(source)(k).Err? ==> Draws(source)(k).error == RandomFailure
    {
      assert Draws(source)(k) == FromRandom(source(k));
    }
  }

  /** Every generated identifier is a well-formed version-4 UUID. */
  lemma GeneratedShape(read: Option<Block>)
    requires FromRandom(read).Ok?
    ensures var id := FromRandom(read).value;
      |id| == 36 && id[14] == '4' && id[19] in {'8', '9', 'a', 'b'}
      && forall i :: 0 <= i < 36 ==> if IsDashPosition(i) then id[i] == '-' else IsLowerHexDigit(id[i])
  {
    FormatShape(Stamp(read.value));
    VersionAndVariantDigits(read.value);
  }

  /**
   * GenerateUUIDv4, given the outcome of its `rand.Read` call: copy the
   * bytes, set the version and variant bits in place, format.
   */
  method GenerateUUIDv4(read: Option<Block>) returns (r: Result<string>)
    ensures r == FromRandom(read)
  {
    if read.None? {
      return Err(RandomFailure);
    }
    var block := read.value;
    var bytes := new byte[16](i => if 0 <= i < 16 then block[i] else 0);
    bytes[6] := VersionByte(bytes[6]);
    bytes[8] := VariantByte(bytes[8]);
    assert bytes[..] == Stamp(block);
    r := Ok(Format(bytes[..]));
  }
}
