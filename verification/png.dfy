/** Setting a texture's default maximum size from the dimensions in its PNG
    header (`IsPngData`, `GetPngSize`, `GetNearMaxSize`,
    `ValidateDefaultTextureMaxSize`).

    A PNG file starts with an 8-byte signature followed by the IHDR chunk:
    a 4-byte length, the type "IHDR", then the width and height as 4-byte
    big-endian integers at offsets 16 and 20, and the rest of the chunk up
    to offset 33. */
module Png {
  import opened Wrappers
  import opened CSharpInt

  newtype byte = x: int | 0 <= x < 256

  /** `PngHeaderData`. */
  const PngSignature: seq<byte> := [0x89, 0x50, 0x4E, 0x47, 0x0D, 0x0A, 0x1A, 0x0A]

  /** The shortest data `GetPngSize` reads: the signature and the whole
      IHDR chunk including its checksum. */
  const MinHeaderLength := 33

  const WidthOffset := 16
  const HeightOffset := 20

  /** The data starts with the PNG signature. */
  predicate HasPngSignature(data: Option<seq<byte>>)
  {
    data.Some? && |data.value| >= |PngSignature| && data.value[..|PngSignature|] == PngSignature
  }

  /** `IsPngData`: false for null or short data, otherwise a byte-by-byte
      comparison with the signature. */
  method IsPngData(data: Option<seq<byte>>) returns (r: bool)
    ensures r <==> HasPngSignature(data)
  {
    if data.None? || |data.value| < |PngSignature| {
      return false;
    }
    var bytes := data.value;
    var length := |PngSignature|;
    for i := 0 to length
      invariant bytes[..i] == PngSignature[..i]
    {
      if bytes[i] != PngSignature[i] {
        assert bytes[..length][i] != PngSignature[i];
        return false;
      }
      assert bytes[..i + 1] == bytes[..i] + [bytes[i]];
    }
    return true;
  }

  // ---------------------------------------------------------------------------
  // Reading the dimensions

  /** Unsigned big-endian value of a byte string. */
  function BigEndian(bs: seq<byte>): nat
  {
    if |bs| == 0 then 0 else 256 * BigEndian(bs[..|bs| - 1]) + bs[|bs| - 1] as int
  }

  lemma BigEndianOfFour(bs: seq<byte>)
    requires |bs| == 4
    ensures BigEndian(bs) == bs[0] as int * 0x100_0000 + bs[1] as int * 0x1_0000 + bs[2] as int * 256 + bs[3] as int
  {
    var p1, p2, p3 := bs[..1], bs[..2], bs[..3];
    assert p3[..2] == p2 && p2[..1] == p1 && p1[..0] == [];
    assert BigEndian(p1) == bs[0] as int;
    assert BigEndian(p2) == 256 * BigEndian(p1) + bs[1] as int;
    assert BigEndian(p3) == 256 * BigEndian(p2) + bs[2] as int;
    assert BigEndian(bs) == 256 * BigEndian(p3) + bs[3] as int;
  }

  /** A byte shifted left by 0, 8 or 16 bits stays inside an `int`. */
  lemma ShiftByteLow(b: int, n: nat, scale: int)
    requires 0 <= b < 256
    requires (n, scale) == (0, 1) || (n, scale) == (8, 256) || (n, scale) == (16, 0x1_0000)
    ensures ShiftLeft(b, n) == b * scale
  {
    ShiftTable();
    assert Pow2(n % 32) == scale;
    assert 0 <= b * scale <= 255 * 0x1_0000;
  }

  /** A byte shifted left by 24 bits lands in the sign bit when its own top
      bit is set. */
  lemma ShiftByteTop(b: int)
    requires 0 <= b < 256
    ensures ShiftLeft(b, 24) == if b < 0x80 then b * 0x100_0000 else b * 0x100_0000 - TwoTo32
  {
    ShiftTable();
    assert 24 % 32 == 24;
    var x := b * 0x100_0000;
    assert 0 <= x < TwoTo32;
    assert x % TwoTo32 == x;
  }

  lemma ShiftTable()
    ensures Pow2(0) == 1 && Pow2(8) == 256 && Pow2(16) == 0x1_0000 && Pow2(24) == 0x100_0000
  {
    assert Pow2(8) == 256;
    Pow2Add(8, 8);
    Pow2Add(16, 8);
  }

  /** `(b0 << 24) + (b1 << 16) + (b2 << 8) + (b3 << 0)` on C# `int`s: the
      4-byte big-endian value read as a signed 32-bit integer, negative when
      the top bit is set. */
  function ReadInt32BigEndian(data: seq<byte>, at: nat): (v: int)
    requires at + 4 <= |data|
    ensures IsInt32(v)
    ensures data[at] < 0x80 ==> v == BigEndian(data[at..at + 4])
    ensures data[at] >= 0x80 ==> v == BigEndian(data[at..at + 4]) - TwoTo32 && v < 0
  {
    var b0, b1, b2, b3 := data[at] as int, data[at + 1] as int, data[at + 2] as int, data[at + 3] as int;
    ShiftTable();
    BigEndianOfFour(data[at..at + 4]);
    ShiftByteLow(b1, 16, 0x1_0000);
    ShiftByteLow(b2, 8, 256);
    ShiftByteLow(b3, 0, 1);
    ShiftByteTop(b0);
    ShiftLeft(b0, 24) + ShiftLeft(b1, 16) + ShiftLeft(b2, 8) + ShiftLeft(b3, 0)
  }

  /** `GetPngSize`: (0, 0) for null data or data shorter than 33 bytes,
      otherwise the width and height fields of the IHDR chunk. */
  function GetPngSize(data: Option<seq<byte>>): (size: (int, int))
    ensures data.None? || |data.value| < MinHeaderLength ==> size == (0, 0)
    ensures data.Some? && |data.value| >= MinHeaderLength ==>
      && size.0 == ReadInt32BigEndian(data.value, WidthOffset)
      && size.1 == ReadInt32BigEndian(data.value, HeightOffset)
  {
    if data.None? || |data.value| < MinHeaderLength then (0, 0)
    else (ReadInt32BigEndian(data.value, WidthOffset), ReadInt32BigEndian(data.value, HeightOffset))
  }

  /** The four big-endian bytes of a value below 2^32. */
  function BigEndian32(v: nat): (bs: seq<byte>)
    requires v < TwoTo32
    ensures |bs| == 4
    ensures v < 0x8000_0000 ==> bs[0] < 0x80
  {
    var q1 := v / 256;
    var q2 := q1 / 256;
    var q3 := q2 / 256;
    [q3 as byte, (q2 % 256) as byte, (q1 % 256) as byte, (v % 256) as byte]
  }

  lemma BigEndian32RoundTrip(v: nat)
    requires v < TwoTo32
    ensures BigEndian(BigEndian32(v)) == v
  {
    BigEndianOfFour(BigEndian32(v));
  }

  /** The first 33 bytes of a PNG whose IHDR chunk holds the given
      dimensions, followed by `rest` (bit depth, colour type, compression,
      filter, interlace, checksum, and the rest of the file). */
  function PngHeader(width: nat, height: nat, rest: seq<byte>): (data: seq<byte>)
    requires width < TwoTo32 && height < TwoTo32
    ensures |data| == 24 + |rest|
    ensures HasPngSignature(Some(data))
  {
    var data := PngSignature + [0, 0, 0, 13] + [0x49, 0x48, 0x44, 0x52] + BigEndian32(width) + BigEndian32(height) + rest;
    assert data[..8] == PngSignature;
    data
  }

  /** For every well-formed header (dimensions below 2^31, as the PNG
      standard requires) `GetPngSize` reads back the dimensions written. */
  lemma GetPngSizeReadsHeader(width: nat, height: nat, rest: seq<byte>)
    requires width < 0x8000_0000 && height < 0x8000_0000
    requires |rest| >= 9
    ensures GetPngSize(Some(PngHeader(width, height, rest))) == (width, height)
  {
    var data := PngHeader(width, height, rest);
    assert data[WidthOffset..WidthOffset + 4] == BigEndian32(width);
    assert data[HeightOffset..HeightOffset + 4] == BigEndian32(height);
    BigEndian32RoundTrip(width);
    BigEndian32RoundTrip(height);
  }

  /** A width field with the top bit set reads as a negative width. */
  lemma TopBitGivesNegativeWidth(data: seq<byte>)
    requires |data| >= MinHeaderLength && data[WidthOffset] >= 0x80
    ensures GetPngSize(Some(data)).0 < 0
  {
    assert GetPngSize(Some(data)).0 == ReadInt32BigEndian(data, WidthOffset);
  }

  // ---------------------------------------------------------------------------
  // The default maximum size

  function Max(a: int, b: int): int
  {
    if a < b then b else a
  }

  /** `size` is what `GetNearMaxSize` picks for an image whose longer side
      is `m`: the smallest power of two from 2 to 2048 that is at least m,
      or 4096 when m exceeds 2048. */
  predicate NearMaxSizeOf(m: int, size: int)
  {
    if m > 2048 then size == 4096
    else exists i | 1 <= i <= 11 :: CoveringPower(m, i, size)
  }

  /** `size` is 2^i, at least m, and the next smaller power 2^(i-1) is
      below m unless i is 1 (every m up to 2 is covered by 2). */
  predicate CoveringPower(m: int, i: nat, size: int)
    requires i >= 1
  {
    size == Pow2(i) && m <= size && (i == 1 || Pow2(i - 1) < m)
  }

  lemma Pow2Table()
    ensures Pow2(1) == 2 && Pow2(11) == 2048 && Pow2(12) == 4096
  {
  }

  /** `GetNearMaxSize`: tries `1 << i` for i from 1 to 11 and returns the
      first that is at least the longer side, or 4096. */
  method GetNearMaxSize(w: int, h: int) returns (size: int)
    ensures NearMaxSizeOf(Max(w, h), size)
  {
    var tmpSize := w;
    if w < h {
      tmpSize := h;
    }
    for i := 1 to 12
      invariant i == 1 || tmpSize > Pow2(i - 1)
    {
      if tmpSize <= ShiftLeftOne(i) {
        Pow2AtMost(i, 11);
        Pow2Table();
        assert CoveringPower(tmpSize, i, Pow2(i));
        return ShiftLeftOne(i);
      }
    }
    Pow2Table();
    return 4096;
  }

  /** Two exponents that both cover `m` are the same exponent. */
  lemma CoveringPowerIsUnique(m: int, i1: nat, s1: int, i2: nat, s2: int)
    requires i1 >= 1 && i2 >= 1
    requires CoveringPower(m, i1, s1) && CoveringPower(m, i2, s2)
    ensures i1 == i2
  {
    if i1 < i2 {
      Pow2AtMost(i1, i2 - 1);
    } else if i2 < i1 {
      Pow2AtMost(i2, i1 - 1);
    }
  }

  /** A larger side is covered by an exponent that is at least as large. */
  lemma CoveringPowerIsMonotone(m1: int, i1: nat, s1: int, m2: int, i2: nat, s2: int)
    requires i1 >= 1 && i2 >= 1 && m1 <= m2
    requires CoveringPower(m1, i1, s1) && CoveringPower(m2, i2, s2)
    ensures s1 <= s2
  {
    if i2 < i1 {
      Pow2AtMost(i2, i1 - 1);
    } else {
      Pow2AtMost(i1, i2);
    }
  }

  /** The picked size is determined by the longer side. */
  lemma NearMaxSizeIsUnique(m: int, s1: int, s2: int)
    requires NearMaxSizeOf(m, s1) && NearMaxSizeOf(m, s2)
    ensures s1 == s2
  {
    if m <= 2048 {
      var i1 :| 1 <= i1 <= 11 && CoveringPower(m, i1, s1);
      var i2 :| 1 <= i2 <= 11 && CoveringPower(m, i2, s2);
      CoveringPowerIsUnique(m, i1, s1, i2, s2);
    }
  }

  /** A larger image never gets a smaller default maximum size. */
  lemma NearMaxSizeIsMonotone(m1: int, s1: int, m2: int, s2: int)
    requires m1 <= m2
    requires NearMaxSizeOf(m1, s1) && NearMaxSizeOf(m2, s2)
    ensures s1 <= s2
  {
    if m1 <= 2048 {
      var i1 :| 1 <= i1 <= 11 && CoveringPower(m1, i1, s1);
      if m2 > 2048 {
        Pow2AtMost(i1, 12);
        Pow2Table();
      } else {
        var i2 :| 1 <= i2 <= 11 && CoveringPower(m2, i2, s2);
        CoveringPowerIsMonotone(m1, i1, s1, m2, i2, s2);
      }
    }
  }

  /** What `ValidateDefaultTextureMaxSize` does to one asset. */
  datatype ValidateOutcome =
    | NoImporter        // not a texture: nothing happens
    | NotPng            // not a PNG: a warning is logged
    | KeepSize          // the default maximum size is already right
    | Resize(size: int) // the default maximum size is set and the asset reimported

  /** `ValidateDefaultTextureMaxSize` for an asset whose importer has the
      default maximum size `importerSize` (absent when the asset has no
      texture importer) and whose file holds `data`. */
  method ValidateDefaultTextureMaxSize(importerSize: Option<int>, data: seq<byte>) returns (o: ValidateOutcome)
    ensures o.NoImporter? <==> importerSize.None?
    ensures importerSize.Some? ==> (o.NotPng? <==> !HasPngSignature(Some(data)))
    ensures o.KeepSize? ==>
      var (w, h) := GetPngSize(Some(data));
      NearMaxSizeOf(Max(w, h), importerSize.value)
    ensures o.Resize? ==>
      var (w, h) := GetPngSize(Some(data));
      NearMaxSizeOf(Max(w, h), o.size) && o.size != importerSize.value
  {
    if importerSize.None? {
      return NoImporter;
    }
    var isPng := IsPngData(Some(data));
    if !isPng {
      return NotPng;
    }
    var (w, h) := GetPngSize(Some(data));
    var size := GetNearMaxSize(w, h);
    if importerSize.value != size {
      return Resize(size);
    }
    return KeepSize;
  }

  /** Data that starts with the signature but stops before the end of the
      IHDR chunk is measured as 0 by 0, so such a file is given the
      smallest default maximum size, 2. */
  lemma TruncatedPngGetsSmallestSize(data: seq<byte>, size: int)
    requires |data| < MinHeaderLength
    requires NearMaxSizeOf(Max(GetPngSize(Some(data)).0, GetPngSize(Some(data)).1), size)
    ensures size == 2
  {
    assert CoveringPower(0, 1, 2);
    NearMaxSizeIsUnique(0, size, 2);
  }

  /** Examples: an 800 by 600 image gets 1024, a 2048 by 10 one
      gets 2048, and a 5000 by 5000 one is capped at 4096. */
  lemma NearMaxSizeExamples()
    ensures NearMaxSizeOf(Max(800, 600), 1024)
    ensures NearMaxSizeOf(Max(2048, 10), 2048)
    ensures NearMaxSizeOf(Max(5000, 5000), 4096)
  {
    assert Pow2(9) == 512;
    assert CoveringPower(800, 10, 1024);
    assert CoveringPower(2048, 11, 2048);
  }
}
