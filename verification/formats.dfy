/** The two enumerations the rules carry: the kind of a size parameter
    (`EParameterFormat`) and Unity's `TextureImporterFormat`.

    A C# enum is an integer underneath, and the rule files are read by
    casting whatever integer they hold, so each enumeration here has one
    constructor per value the code names and one more for every other
    integer. */
module Formats {

  /** `EParameterFormat`: Pixel (0) or Division (1), or any other integer a
      hand-edited rule file may hold. */
  datatype ParamKind = Pixel | Division | OtherKind(code: int)

  function KindCode(k: ParamKind): int
  {
    match k
    case Pixel => 0
    case Division => 1
    case OtherKind(n) => n
  }

  /** The cast `(EParameterFormat)n`. */
  function KindFromCode(n: int): (k: ParamKind)
    ensures KindCode(k) == n
    ensures k.OtherKind? ==> n != 0 && n != 1
    ensures CanonicalKind(k)
  {
    if n == 0 then Pixel else if n == 1 then Division else OtherKind(n)
  }

  /** Each kind has one representation: an `OtherKind` never spells a named
      value. */
  predicate CanonicalKind(k: ParamKind)
  {
    k.OtherKind? ==> k.code != 0 && k.code != 1
  }

  lemma KindCodeRoundTrip(k: ParamKind)
    requires CanonicalKind(k)
    ensures KindFromCode(KindCode(k)) == k
  {
  }

  /** C# compares enum values by the integers underneath, so two kinds are
      the same value when their codes agree, whichever constructor spells
      them. */
  predicate SameKind(a: ParamKind, b: ParamKind)
  {
    KindCode(a) == KindCode(b)
  }

  /** For kinds in their one representation, being the same value is
      being equal. */
  lemma SameKindIsEquality(a: ParamKind, b: ParamKind)
    requires CanonicalKind(a) && CanonicalKind(b)
    ensures SameKind(a, b) <==> a == b
  {
  }

  /** The texture formats the code names, plus every other value of the
      engine's enumeration. */
  datatype TextureFormat =
    | AutomaticCompressed
    | DXT1 | DXT5 | DXT1Crunched | DXT5Crunched
    | RGB24 | Alpha8 | ARGB16 | ARGB32
    | ETC_RGB4 | ETC2_RGB4 | ETC2_RGB4_PUNCHTHROUGH_ALPHA | ETC2_RGBA8
    | PVRTC_RGB2 | PVRTC_RGB4 | PVRTC_RGBA2 | PVRTC_RGBA4
    | OtherFormat(code: int)

  /** The integer behind each named format, in the engine's numbering. */
  const NamedFormatCodes: set<int> :=
    {-1, 10, 12, 28, 29, 3, 1, 2, 5, 34, 45, 46, 47, 30, 32, 31, 33}

  /** The cast `(int)format` written to the format rule file. */
  function FormatCode(f: TextureFormat): int
  {
    match f
    case AutomaticCompressed => -1
    case DXT1 => 10
    case DXT5 => 12
    case DXT1Crunched => 28
    case DXT5Crunched => 29
    case RGB24 => 3
    case Alpha8 => 1
    case ARGB16 => 2
    case ARGB32 => 5
    case ETC_RGB4 => 34
    case ETC2_RGB4 => 45
    case ETC2_RGB4_PUNCHTHROUGH_ALPHA => 46
    case ETC2_RGBA8 => 47
    case PVRTC_RGB2 => 30
    case PVRTC_RGBA2 => 31
    case PVRTC_RGB4 => 32
    case PVRTC_RGBA4 => 33
    case OtherFormat(n) => n
  }

  /** The cast `(TextureImporterFormat)n` read back from the file. */
  function FormatFromCode(n: int): (f: TextureFormat)
    ensures FormatCode(f) == n
    ensures f.OtherFormat? <==> n !in NamedFormatCodes
    ensures CanonicalFormat(f)
  {
    match n
    case -1 => AutomaticCompressed
    case 10 => DXT1
    case 12 => DXT5
    case 28 => DXT1Crunched
    case 29 => DXT5Crunched
    case 3 => RGB24
    case 1 => Alpha8
    case 2 => ARGB16
    case 5 => ARGB32
    case 34 => ETC_RGB4
    case 45 => ETC2_RGB4
    case 46 => ETC2_RGB4_PUNCHTHROUGH_ALPHA
    case 47 => ETC2_RGBA8
    case 30 => PVRTC_RGB2
    case 31 => PVRTC_RGBA2
    case 32 => PVRTC_RGB4
    case 33 => PVRTC_RGBA4
    case _ => OtherFormat(n)
  }

  predicate CanonicalFormat(f: TextureFormat)
  {
    f.OtherFormat? ==> f.code !in NamedFormatCodes
  }

  /** Writing a format as its integer and casting it back gives the same
      format. */
  lemma FormatCodeRoundTrip(f: TextureFormat)
    requires CanonicalFormat(f)
    ensures FormatFromCode(FormatCode(f)) == f
  {
  }

  /** Two formats are the same C# value when their codes agree. */
  predicate SameFormat(a: TextureFormat, b: TextureFormat)
  {
    FormatCode(a) == FormatCode(b)
  }

  /** For formats in their one representation, being the same value is
      being equal. */
  lemma SameFormatIsEquality(a: TextureFormat, b: TextureFormat)
    requires CanonicalFormat(a) && CanonicalFormat(b)
    ensures SameFormat(a, b) <==> a == b
  {
    if SameFormat(a, b) {
      FormatCodeRoundTrip(a);
      FormatCodeRoundTrip(b);
    }
  }

  /** The engine's codes of the formats that take a quality. */
  const QualityFormatCodes: set<int> := {28, 29, 34, 45, 46, 47, 30, 32, 31, 33}

  /** `IsNeedQualityFormat`: the crunched, ETC and PVRTC formats, whose
      encoder takes a quality setting. The switch compares values, so a
      format spelled by its bare code answers as its named value does. */
  predicate IsNeedQualityFormat(f: TextureFormat): (b: bool)
    ensures b <==> FormatCode(f) in QualityFormatCodes
    ensures b ==> FormatCode(f) in NamedFormatCodes
  {
    FormatFromCode(FormatCode(f)) in {DXT1Crunched, DXT5Crunched, ETC_RGB4, ETC2_RGB4, ETC2_RGB4_PUNCHTHROUGH_ALPHA,
                                      ETC2_RGBA8, PVRTC_RGB2, PVRTC_RGB4, PVRTC_RGBA2, PVRTC_RGBA4}
  }
}
