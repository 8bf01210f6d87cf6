/** Turning the matched rules into a target platform setting and deciding
    whether an asset's importer must be changed (`GetTextureSizeFromRule`
    and the body of `ChangeImportSettings`).

    The asset database and the texture importer belong to the engine: an
    asset is modelled as its path and, when it has one, its importer's
    default maximum size and its current setting for the target platform.
    The pass returns the change requests it would send to the importer
    instead of performing them. */
module Apply {
  import opened Wrappers
  import opened CSharpInt
  import opened Formats
  import opened Rules
  import opened Resolution

  /** Size used when no size rule matches or the rule's parameter is 0. */
  const FallbackSize := 1024

  /** Format and quality used when no format rule matches. */
  const FallbackFormat := AutomaticCompressed
  const FallbackQuality := 50

  /** A platform-specific import setting: maximum size, format, quality. */
  datatype PlatformSetting = PlatformSetting(maxSize: int, format: TextureFormat, quality: int)

  /** What the pass reads from a texture importer: the default maximum size
      (`maxTextureSize`) and the current setting of the target platform. */
  datatype Importer = Importer(maxTextureSize: int, platform: PlatformSetting)

  /** A texture asset; `importer` is absent when the asset has no texture
      importer. */
  datatype Asset = Asset(path: string, importer: Option<Importer>)

  /** One call of `SetPlatformTextureSettings` followed by a reimport. For
      formats that take a quality the call passes the quality and
      `allowsAlphaSplit = false`; for the others it passes neither. */
  datatype Request = Request(path: string, maxSize: int, format: TextureFormat, quality: Option<int>,
                             allowsAlphaSplit: Option<bool>)

  /** `GetTextureSizeFromRule`: 1024 without a rule or with a 0 parameter
      (so a division by zero cannot happen), the parameter itself for a
      Pixel rule, and otherwise the default size divided by the parameter
      with C# truncating division. Any kind whose value is not Pixel's
      divides. */
  function GetTextureSizeFromRule(defaultSize: int, rule: Option<SizeRule>): (size: int)
    ensures rule.None? || rule.value.parameter == 0 ==> size == FallbackSize
    ensures rule.Some? && rule.value.parameter != 0 && KindCode(rule.value.kind) == 0 ==>
      size == rule.value.parameter
    ensures rule.Some? && rule.value.parameter != 0 && KindCode(rule.value.kind) != 0 ==>
      var p := rule.value.parameter;
      && Abs(defaultSize - size * p) < Abs(p)
      && (defaultSize - size * p == 0 || (defaultSize - size * p < 0 <==> defaultSize < 0))
  {
    if rule.None? || rule.value.parameter == 0 then FallbackSize
    else if SameKind(rule.value.kind, Pixel) then rule.value.parameter
    else TruncDiv(defaultSize, rule.value.parameter)
  }

  /** A Division rule whose divisor was picked from the division popup at
      entry i scales a non-negative default size down by 2^i, rounding
      down. */
  lemma DivisionRuleScalesDefault(defaultSize: int, r: SizeRule, i: int)
    requires r.kind == Division && defaultSize >= 0 && 0 <= i < DivParamCount
    ensures var size := GetTextureSizeFromRule(defaultSize, Some(SetDivParamPopupIndex(r, i)));
      size * Pow2(i) <= defaultSize < (size + 1) * Pow2(i)
  {
    var r' := SetDivParamPopupIndex(r, i);
    assert r'.kind == Division && r'.parameter == Pow2(i) && r'.parameter != 0;
    assert GetTextureSizeFromRule(defaultSize, Some(r')) == TruncDiv(defaultSize, Pow2(i));
    TruncDivOfNatural(defaultSize, Pow2(i));
  }

  /** Examples of the size computation. */
  lemma TextureSizeExamples(defaultSize: int, path: string)
    ensures GetTextureSizeFromRule(1024, Some(SizeRule(path, Division, 4))) == 256
    ensures GetTextureSizeFromRule(defaultSize, Some(SizeRule(path, Pixel, 512))) == 512
    ensures GetTextureSizeFromRule(defaultSize, None) == 1024
    ensures GetTextureSizeFromRule(defaultSize, Some(SizeRule(path, Division, 0))) == 1024
    ensures GetTextureSizeFromRule(1024, Some(SizeRule(path, OtherKind(0), 4))) == 4
  {
    TruncDivOfNatural(1024, 4);
  }

  /** The format and quality a matched format rule asks for: the rule's
      own format and quality, or AutomaticCompressed at quality 50 when no
      rule matched. */
  function TargetFormat(rule: Option<FormatRule>): (fq: (TextureFormat, int))
    ensures rule.None? ==> fq.0 == AutomaticCompressed && fq.1 == 50
    ensures rule.Some? ==> fq.0 == rule.value.format && fq.1 == rule.value.quality
  {
    match rule
    case None => (FallbackFormat, FallbackQuality)
    case Some(r) => (r.format, r.quality)
  }

  /** The setting the rules ask for at `path`, given the importer's default
      maximum size. */
  function TargetSetting(sizeRules: seq<SizeRule>, formatRules: Option<seq<Option<FormatRule>>>,
                         path: string, defaultSize: int): (t: PlatformSetting)
    ensures t.maxSize == GetTextureSizeFromRule(defaultSize, GetSizeRule(path, sizeRules))
    ensures GetFormatRule(path, formatRules).None? ==> t.format == AutomaticCompressed && t.quality == 50
    ensures GetFormatRule(path, formatRules).Some? ==>
      t.format == GetFormatRule(path, formatRules).value.format
      && t.quality == GetFormatRule(path, formatRules).value.quality
  {
    var size := GetTextureSizeFromRule(defaultSize, GetSizeRule(path, sizeRules));
    var (format, quality) := TargetFormat(GetFormatRule(path, formatRules));
    PlatformSetting(size, format, quality)
  }

  /** The test guarding the importer update: size or format differ, or the
      target format takes a quality and the qualities differ. Formats are
      compared as C# values, by their codes. */
  predicate NeedsChange(target: PlatformSetting, current: PlatformSetting): (b: bool)
    ensures !b ==> current.maxSize == target.maxSize && FormatCode(current.format) == FormatCode(target.format)
    ensures CanonicalFormat(target.format) && CanonicalFormat(current.format) ==>
      (b <==> || current.maxSize != target.maxSize
              || current.format != target.format
              || (IsNeedQualityFormat(target.format) && target.quality != current.quality))
  {
    SameFormatIsEqualityFor(target.format, current.format);
    || current.maxSize != target.maxSize
    || !SameFormat(current.format, target.format)
    || (IsNeedQualityFormat(target.format) && target.quality != current.quality)
  }

  lemma SameFormatIsEqualityFor(a: TextureFormat, b: TextureFormat)
    ensures CanonicalFormat(a) && CanonicalFormat(b) ==> (SameFormat(a, b) <==> a == b)
  {
    if CanonicalFormat(a) && CanonicalFormat(b) {
      SameFormatIsEquality(a, b);
    }
  }

  /** The setting with its format in its one representation. */
  function Normalised(s: PlatformSetting): PlatformSetting
  {
    s.(format := FormatFromCode(FormatCode(s.format)))
  }

  /** An importer is left alone exactly when its setting already is the
      target as C# values, up to a quality that the target format does not
      use. */
  lemma NoChangeIffConverged(target: PlatformSetting, current: PlatformSetting)
    ensures !NeedsChange(target, current) <==>
      || Normalised(current) == Normalised(target)
      || (current.maxSize == target.maxSize && SameFormat(current.format, target.format)
          && !IsNeedQualityFormat(target.format))
  {
    SameFormatIsEquality(FormatFromCode(FormatCode(current.format)), FormatFromCode(FormatCode(target.format)));
  }

  /** The two spellings of one format value ask for no change. */
  lemma SameValueNeedsNoChange()
    ensures !NeedsChange(PlatformSetting(1024, DXT1, 50), PlatformSetting(1024, OtherFormat(10), 50))
  {
  }

  /** The work the pass does for one asset: nothing without an importer or
      when the importer already holds the target; otherwise one request
      carrying the target, with the quality only for formats that take
      one. */
  function PlanAsset(sizeRules: seq<SizeRule>, formatRules: Option<seq<Option<FormatRule>>>,
                     a: Asset): (req: Option<Request>)
    ensures a.importer.None? ==> req.None?
    ensures a.importer.Some? ==>
      var t := TargetSetting(sizeRules, formatRules, a.path, a.importer.value.maxTextureSize);
      && (req.Some? <==> NeedsChange(t, a.importer.value.platform))
      && (req.Some? ==>
            && req.value.path == a.path
            && req.value.maxSize == t.maxSize
            && req.value.format == t.format
            && (req.value.quality.Some? <==> IsNeedQualityFormat(t.format))
            && (req.value.quality.Some? ==> req.value.quality.value == t.quality)
            && req.value.allowsAlphaSplit == (if IsNeedQualityFormat(t.format) then Some(false) else None))
  {
    match a.importer
    case None => None
    case Some(imp) =>
      var t := TargetSetting(sizeRules, formatRules, a.path, imp.maxTextureSize);
      if !NeedsChange(t, imp.platform) then None
      else
        if IsNeedQualityFormat(t.format) then Some(Request(a.path, t.maxSize, t.format, Some(t.quality), Some(false)))
        else Some(Request(a.path, t.maxSize, t.format, None, None))
  }

  /** The present results of `plan` over `xs`, in order: the loop of a
      pass that does something for some of its items. */
  function Collect<A, B>(plan: A -> Option<B>, xs: seq<A>): seq<B>
  {
    if |xs| == 0 then []
    else
      var here := match plan(xs[0]) case None => [] case Some(b) => [b];
      here + Collect(plan, xs[1..])
  }

  /** What a pass collects: at most one result per item, each the result of
      some item, and the result of every item that has one. */
  lemma {:induction false} CollectPlanned<A, B>(plan: A -> Option<B>, xs: seq<A>)
    ensures |Collect(plan, xs)| <= |xs|
    ensures forall b :: b in Collect(plan, xs) <==> exists x :: x in xs && plan(x) == Some(b)
    ensures (forall x | x in xs :: plan(x).Some?) ==> |Collect(plan, xs)| == |xs|
    ensures (forall x | x in xs :: plan(x).None?) ==> Collect(plan, xs) == []
  {
    if |xs| > 0 {
      CollectPlanned(plan, xs[1..]);
      assert forall x :: x in xs <==> x == xs[0] || x in xs[1..];
    }
  }

  /** A pass over two lists collects what the passes over each list collect,
      one after the other. */
  lemma {:induction false} CollectAppend<A, B>(plan: A -> Option<B>, xs: seq<A>, ys: seq<A>)
    ensures Collect(plan, xs + ys) == Collect(plan, xs) + Collect(plan, ys)
  {
    if |xs| == 0 {
      assert xs + ys == ys;
    } else {
      assert (xs + ys)[0] == xs[0];
      assert (xs + ys)[1..] == xs[1..] + ys;
      CollectAppend(plan, xs[1..], ys);
    }
  }

  /** `ChangeImportSettings`: the requests for every asset, in asset order. */
  function ChangeImportSettings(sizeRules: seq<SizeRule>, formatRules: Option<seq<Option<FormatRule>>>,
                                assets: seq<Asset>): (reqs: seq<Request>)
    ensures |reqs| <= |assets|
    ensures forall r :: r in reqs <==> exists a :: a in assets && PlanAsset(sizeRules, formatRules, a) == Some(r)
    ensures (forall a | a in assets :: PlanAsset(sizeRules, formatRules, a).Some?) ==> |reqs| == |assets|
    ensures (forall a | a in assets :: PlanAsset(sizeRules, formatRules, a).None?) ==> reqs == []
  {
    var plan := (a: Asset) => PlanAsset(sizeRules, formatRules, a);
    CollectPlanned(plan, assets);
    Collect(plan, assets)
  }

  /** The pass over two lists of assets makes the requests of the first
      list followed by those of the second: requests come in asset order. */
  lemma ChangeImportSettingsAppend(sizeRules: seq<SizeRule>, formatRules: Option<seq<Option<FormatRule>>>,
                                   xs: seq<Asset>, ys: seq<Asset>)
    ensures ChangeImportSettings(sizeRules, formatRules, xs + ys)
      == ChangeImportSettings(sizeRules, formatRules, xs) + ChangeImportSettings(sizeRules, formatRules, ys)
  {
    CollectAppend((a: Asset) => PlanAsset(sizeRules, formatRules, a), xs, ys);
  }

  /** One asset yields exactly its planned request, or none. */
  lemma ChangeImportSettingsOfOne(sizeRules: seq<SizeRule>, formatRules: Option<seq<Option<FormatRule>>>,
                                  a: Asset)
    ensures ChangeImportSettings(sizeRules, formatRules, [a])
      == if PlanAsset(sizeRules, formatRules, a).Some? then [PlanAsset(sizeRules, formatRules, a).value] else []
  {
    assert [a][1..] == [];
  }

  /** The importer of `a'` holds what `req` asked for, and nothing the pass
      reads apart from the platform setting has changed. What the engine
      stores as quality when none is passed is left open. */
  ghost predicate Honours(a: Asset, req: Request, a': Asset)
  {
    && a'.path == a.path
    && a.importer.Some? && a'.importer.Some?
    && a'.importer.value.maxTextureSize == a.importer.value.maxTextureSize
    && a'.importer.value.platform.maxSize == req.maxSize
    && a'.importer.value.platform.format == req.format
    && (req.quality.Some? ==> a'.importer.value.platform.quality == req.quality.value)
  }

  /** `after` is the asset list once every request of a pass over `before`
      has been carried out. */
  ghost predicate AfterPass(sizeRules: seq<SizeRule>, formatRules: Option<seq<Option<FormatRule>>>,
                            before: seq<Asset>, after: seq<Asset>)
  {
    && |after| == |before|
    && forall i | 0 <= i < |before| ::
         match PlanAsset(sizeRules, formatRules, before[i])
         case None => after[i] == before[i]
         case Some(req) => Honours(before[i], req, after[i])
  }

  /** An asset whose request has been carried out needs nothing more. */
  lemma HonouredAssetIsConverged(sizeRules: seq<SizeRule>, formatRules: Option<seq<Option<FormatRule>>>,
                                 a: Asset, req: Request, a': Asset)
    requires PlanAsset(sizeRules, formatRules, a) == Some(req)
    requires Honours(a, req, a')
    ensures PlanAsset(sizeRules, formatRules, a') == None
  {
  }

  /** Applying the same rules a second time changes nothing: once the
      requests of a pass have been carried out, a new pass over the result
      asks for no change at all. */
  lemma SecondPassIsNoOp(sizeRules: seq<SizeRule>, formatRules: Option<seq<Option<FormatRule>>>,
                         before: seq<Asset>, after: seq<Asset>)
    requires AfterPass(sizeRules, formatRules, before, after)
    ensures ChangeImportSettings(sizeRules, formatRules, after) == []
  {
    forall a | a in after ensures PlanAsset(sizeRules, formatRules, a).None? {
      var i :| 0 <= i < |after| && after[i] == a;
      match PlanAsset(sizeRules, formatRules, before[i])
      case None =>
      case Some(req) =>
        HonouredAssetIsConverged(sizeRules, formatRules, before[i], req, a);
    }
  }
}
