/** The two kinds of rule (`TextureImportMaxSizeChangeRule` and
    `TextureImportFormatChangeRule`), the getters and setters behind the
    editor's popups for a size rule, and the swap that reorders a rule
    list. */
module Rules {
  import opened Formats
  import opened CSharpInt

  /** A size rule: paths matching `pathMatch` get either `parameter` pixels
      (Pixel) or their default size divided by `parameter` (Division). */
  datatype SizeRule = SizeRule(pathMatch: string, kind: ParamKind, parameter: int)

  /** A format rule: paths matching `pathMatch` get `format`, and `quality`
      when the format takes one. */
  datatype FormatRule = FormatRule(pathMatch: string, format: TextureFormat, quality: int)

  /** The rule that stands in for a size rule list that loads empty. */
  const DefaultSizeRule := SizeRule("**", Pixel, 128)

  /** The rule that stands in for a format rule list that loads empty. */
  const DefaultFormatRule := FormatRule("**", AutomaticCompressed, 80)

  /** The entries of the pixel popup (`MaxPixelSizeList`), as numbers. */
  const MaxPixelSizes: seq<int> := [16, 32, 64, 128, 256, 512, 1024, 2048]

  /** Index of the pixel popup shown when the parameter is not in the list. */
  const MaxPixelFallbackIndex := 4

  /** Parameter stored when the pixel popup reports an index outside the list. */
  const MaxPixelFallbackSize := 256

  /** Number of entries of the division popup (`DivParamSizeList`: 1.0, 0.5,
      0.25, 0.125, 0.0625); entry i stands for the divisor `1 << i`. */
  const DivParamCount := 5

  /** Index of the division popup shown when the parameter is none of the
      listed divisors. */
  const DivParamFallbackIndex := 1

  // ---------------------------------------------------------------------------
  // The kind popup

  /** The switch compares values: a kind spelled by its bare code 0 shows
      as Pixel, and everything but Pixel shows as Division. */
  function GetRulePopupIndex(r: SizeRule): (idx: int)
    ensures idx == 0 || idx == 1
    ensures idx == 0 <==> KindCode(r.kind) == 0
  {
    if SameKind(r.kind, Pixel) then 0
    else if SameKind(r.kind, Division) then 1
    else 1
  }

  /** Index 0 selects Pixel and 1 selects Division; any other index keeps the
      kind. Whenever the kind's value changes the parameter is reset to 0, so
      that a pixel count is never read as a divisor or the other way round. */
  function SetRulePopupIndex(r: SizeRule, idx: int): (r': SizeRule)
    ensures r'.pathMatch == r.pathMatch
    ensures idx == 0 ==> r'.kind == Pixel
    ensures idx == 1 ==> r'.kind == Division
    ensures idx != 0 && idx != 1 ==> r'.kind == r.kind
    ensures KindCode(r'.kind) != KindCode(r.kind) ==> r'.parameter == 0
    ensures KindCode(r'.kind) == KindCode(r.kind) ==> r'.parameter == r.parameter
  {
    var kind := if idx == 0 then Pixel else if idx == 1 then Division else r.kind;
    if !SameKind(kind, r.kind) then SizeRule(r.pathMatch, kind, 0) else r.(kind := kind)
  }

  /** Selecting an entry and reading the popup back shows that entry; showing
      the popup and storing what it shows leaves a rule unchanged exactly
      when its kind is one of the two named kinds, and keeps its parameter
      exactly when the kind's value is 0 or 1. */
  lemma RulePopupRoundTrip(r: SizeRule, idx: int)
    ensures idx == 0 || idx == 1 ==> GetRulePopupIndex(SetRulePopupIndex(r, idx)) == idx
    ensures SetRulePopupIndex(r, GetRulePopupIndex(r)) == r <==> !r.kind.OtherKind?
    ensures SetRulePopupIndex(r, GetRulePopupIndex(r)).parameter == r.parameter <==>
      KindCode(r.kind) == 0 || KindCode(r.kind) == 1 || r.parameter == 0
  {
  }

  // ---------------------------------------------------------------------------
  // The pixel popup

  /** Position of the first occurrence of `x` in `xs`, or `|xs|`. */
  function FirstIndexOf(xs: seq<int>, x: int): (i: nat)
    ensures i <= |xs|
    ensures i < |xs| ==> xs[i] == x
    ensures forall j | 0 <= j < i :: xs[j] != x
  {
    if |xs| == 0 then 0
    else if xs[0] == x then 0
    else 1 + FirstIndexOf(xs[1..], x)
  }

  function GetMaxPixelPopupIndex(r: SizeRule): (idx: int)
    ensures 0 <= idx < |MaxPixelSizes|
    ensures r.parameter in MaxPixelSizes ==> MaxPixelSizes[idx] == r.parameter
    ensures r.parameter !in MaxPixelSizes ==> idx == MaxPixelFallbackIndex
  {
    var i := FirstIndexOf(MaxPixelSizes, r.parameter);
    if i < |MaxPixelSizes| then i else MaxPixelFallbackIndex
  }

  function SetMaxPixelPopupIndex(r: SizeRule, idx: int): (r': SizeRule)
    ensures r'.pathMatch == r.pathMatch && r'.kind == r.kind
    ensures r'.parameter in MaxPixelSizes
    ensures 0 <= idx < |MaxPixelSizes| ==> r'.parameter == MaxPixelSizes[idx]
    ensures !(0 <= idx < |MaxPixelSizes|) ==> r'.parameter == MaxPixelFallbackSize
  {
    if idx < 0 || idx >= |MaxPixelSizes| then r.(parameter := MaxPixelFallbackSize)
    else r.(parameter := MaxPixelSizes[idx])
  }

  /** The pixel popup shows what was selected; storing what it shows keeps a
      listed size and replaces any other parameter (such as the 0 left by a
      kind change) with 256. */
  lemma MaxPixelPopupRoundTrip(r: SizeRule, idx: int)
    ensures 0 <= idx < |MaxPixelSizes| ==> GetMaxPixelPopupIndex(SetMaxPixelPopupIndex(r, idx)) == idx
    ensures SetMaxPixelPopupIndex(r, GetMaxPixelPopupIndex(r)) == r <==> r.parameter in MaxPixelSizes
    ensures r.parameter !in MaxPixelSizes ==> SetMaxPixelPopupIndex(r, GetMaxPixelPopupIndex(r)).parameter == 256
  {
    if 0 <= idx < |MaxPixelSizes| {
      MaxPixelSizesAscend();
      FirstIndexOfAscending(MaxPixelSizes, idx);
    }
  }

  /** Each listed size is larger than the one before it. */
  lemma MaxPixelSizesAscend()
    ensures forall i | 0 < i < |MaxPixelSizes| :: MaxPixelSizes[i - 1] < MaxPixelSizes[i]
  {
  }

  /** In a strictly ascending list every entry is first found at its own
      position. */
  lemma {:induction false} FirstIndexOfAscending(xs: seq<int>, i: nat)
    requires forall k | 0 < k < |xs| :: xs[k - 1] < xs[k]
    requires i < |xs|
    ensures FirstIndexOf(xs, xs[i]) == i
  {
    if i > 0 {
      assert xs[0] < xs[1];
      FirstIndexOfAscending(xs[1..], i - 1);
      AscendingFromFirst(xs, i);
    }
  }

  /** In a strictly ascending list the first entry is below every later one. */
  lemma {:induction false} AscendingFromFirst(xs: seq<int>, i: nat)
    requires forall k | 0 < k < |xs| :: xs[k - 1] < xs[k]
    requires 0 < i < |xs|
    ensures xs[0] < xs[i]
  {
    if i > 1 {
      AscendingFromFirst(xs, i - 1);
    }
  }

  // ---------------------------------------------------------------------------
  // The division popup

  /** First i in [from, 5) with `parameter == 1 << i`, or 5. */
  function DivIndexFrom(parameter: int, from: nat): (i: nat)
    requires from <= DivParamCount
    ensures from <= i <= DivParamCount
    ensures i < DivParamCount ==> parameter == Pow2(i)
    ensures forall j | from <= j < i :: parameter != Pow2(j)
    decreases DivParamCount - from
  {
    if from == DivParamCount then DivParamCount
    else if parameter == ShiftLeftOne(from) then from
    else DivIndexFrom(parameter, from + 1)
  }

  /** The divisors the division popup lists. */
  predicate IsListedDivisor(parameter: int)
  {
    exists i | 0 <= i < DivParamCount :: parameter == Pow2(i)
  }

  function GetDivParamPopupIndex(r: SizeRule): (idx: int)
    ensures 0 <= idx < DivParamCount
    ensures IsListedDivisor(r.parameter) ==> r.parameter == Pow2(idx)
    ensures !IsListedDivisor(r.parameter) ==> idx == DivParamFallbackIndex
  {
    var i := DivIndexFrom(r.parameter, 0);
    if i < DivParamCount then i else DivParamFallbackIndex
  }

  /** Stores the divisor `1 << idx`. */
  function SetDivParamPopupIndex(r: SizeRule, idx: int): (r': SizeRule)
    ensures r'.pathMatch == r.pathMatch && r'.kind == r.kind
    ensures 0 <= idx < DivParamCount ==> r'.parameter == Pow2(idx) && IsListedDivisor(r'.parameter)
    ensures r'.parameter != 0
  {
    r.(parameter := ShiftLeftOne(idx))
  }

  /** The division popup shows what was selected; storing what it shows keeps
      a listed divisor and replaces any other parameter with 2. */
  lemma DivParamPopupRoundTrip(r: SizeRule, idx: int)
    ensures 0 <= idx < DivParamCount ==> GetDivParamPopupIndex(SetDivParamPopupIndex(r, idx)) == idx
    ensures SetDivParamPopupIndex(r, GetDivParamPopupIndex(r)) == r <==> IsListedDivisor(r.parameter)
    ensures !IsListedDivisor(r.parameter) ==> SetDivParamPopupIndex(r, GetDivParamPopupIndex(r)).parameter == 2
  {
    if 0 <= idx < DivParamCount {
      var i := GetDivParamPopupIndex(SetDivParamPopupIndex(r, idx));
      assert Pow2(i) == Pow2(idx);
      if i < idx {
        Pow2Monotone(i, idx);
      } else if idx < i {
        Pow2Monotone(idx, i);
      }
    }
    var j := GetDivParamPopupIndex(r);
    if SetDivParamPopupIndex(r, j) == r {
      assert r.parameter == Pow2(j);
    }
  }

  // ---------------------------------------------------------------------------
  // Reordering

  /** `SwapSizeRule` / `SwapFormatRule`: exchanges two entries when both
      indices are in range and leaves the list alone otherwise. */
  function Swap<T>(rules: seq<T>, i: int, j: int): (r: seq<T>)
    ensures |r| == |rules|
    ensures !(0 <= i < |rules| && 0 <= j < |rules|) ==> r == rules
    ensures 0 <= i < |rules| && 0 <= j < |rules| ==>
      && r[i] == rules[j] && r[j] == rules[i]
      && forall k | 0 <= k < |rules| && k != i && k != j :: r[k] == rules[k]
  {
    if i < 0 || j < 0 || i >= |rules| || j >= |rules| then rules
    else rules[i := rules[j]][j := rules[i]]
  }

  /** Swapping the same two entries again restores the list, and a swap
      never adds, loses or duplicates a rule. */
  lemma SwapIsPermutation<T>(rules: seq<T>, i: int, j: int)
    ensures Swap(Swap(rules, i, j), i, j) == rules
    ensures multiset(Swap(rules, i, j)) == multiset(rules)
  {
    var r := Swap(rules, i, j);
    if 0 <= i < |rules| && 0 <= j < |rules| {
      assert r == rules[i := rules[j]][j := rules[i]];
      assert rules == r[i := r[j]][j := r[i]];
    }
  }
}
