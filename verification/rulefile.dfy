/** The rule files: one rule per line, fields separated by tabs
    (`SaveSizeRuleList`, `SaveFormatRuleList`, `LoadSizeRuleList`,
    `LoadFormatRuleList`).

    A size rule line is `pathMatch TAB kind TAB parameter`; a format rule
    line is `pathMatch TAB format TAB quality TAB`, with a trailing tab.
    Loading skips lines with fewer than three fields, ignores fields past
    the third, and falls back to a single catch-all rule when the file is
    missing or yields no rule. A field that `Int32.Parse` rejects throws in
    C#; here it ends the load with a failure that keeps the rules read
    before it.

    A file is modelled as the list of its lines (what `File.ReadAllLines`
    returns and `File.WriteAllLines` writes), or `None` when it does not
    exist. */
module RuleFile {
  import opened Wrappers
  import opened CSharpInt
  import opened Text
  import opened Formats
  import opened Rules

  type FileLines = Option<seq<string>>

  const FieldSeparator := '\t'

  /** What `SaveFormatRuleList` writes first for an empty list. */
  const NoRuleText := "no_rule"

  /** How one line fares while loading. */
  datatype LineOutcome<R> = Skipped | Parsed(rule: R) | BadNumber

  /** A load that stopped at a line whose number does not parse: the rules
      read so far stay loaded. */
  datatype LoadFailure<R> = LoadFailure(loaded: seq<R>, line: string)

  // ---------------------------------------------------------------------------
  // Rules that survive a save and load unchanged

  /** What `File.ReadAllLines` can return as one line: text without a line
      feed or carriage return, the characters it splits the file at. */
  predicate IsTextLine(s: string)
  {
    '\n' !in s && '\r' !in s
  }

  /** A file as `File.ReadAllLines` reads it: no line holds a line break. */
  predicate IsReadable(file: FileLines)
  {
    file.Some? ==> forall i | 0 <= i < |file.value| :: IsTextLine(file.value[i])
  }

  /** A size rule the file format can hold: no tab or line break in the
      wildcard, the kind in its one representation, and both numbers in the
      32-bit range. */
  predicate StorableSizeRule(r: SizeRule)
  {
    && FieldSeparator !in r.pathMatch
    && IsTextLine(r.pathMatch)
    && CanonicalKind(r.kind)
    && IsInt32(KindCode(r.kind))
    && IsInt32(r.parameter)
  }

  predicate StorableFormatRule(r: FormatRule)
  {
    && FieldSeparator !in r.pathMatch
    && IsTextLine(r.pathMatch)
    && CanonicalFormat(r.format)
    && IsInt32(FormatCode(r.format))
    && IsInt32(r.quality)
  }

  // ---------------------------------------------------------------------------
  // Writing

  /** The line `SaveSizeRuleList` writes for a rule: wildcard, kind code and
      parameter, separated by tabs. It is one line of the file exactly when
      the wildcard holds no line break. */
  function SizeRuleLine(r: SizeRule): (line: string)
    ensures FieldSeparator !in r.pathMatch ==>
      Split(line, FieldSeparator) == [r.pathMatch, IntToString(KindCode(r.kind)), IntToString(r.parameter)]
    ensures IsTextLine(line) <==> IsTextLine(r.pathMatch)
  {
    var fields := [r.pathMatch, IntToString(KindCode(r.kind)), IntToString(r.parameter)];
    FieldsOfLine(fields);
    Join(fields, FieldSeparator)
  }

  /** The line `SaveFormatRuleList` writes for a rule: wildcard, format code
      and quality, each followed by a tab, so that a fourth, empty field
      ends the line. */
  function FormatRuleLine(r: FormatRule): (line: string)
    ensures FieldSeparator !in r.pathMatch ==>
      Split(line, FieldSeparator) == [r.pathMatch, IntToString(FormatCode(r.format)), IntToString(r.quality), ""]
    ensures IsTextLine(line) <==> IsTextLine(r.pathMatch)
  {
    var fields := [r.pathMatch, IntToString(FormatCode(r.format)), IntToString(r.quality), ""];
    FieldsOfLine(fields);
    Join(fields, FieldSeparator)
  }

  /** A line of a wildcard followed by plain fields splits back into those
      fields when the wildcard holds no tab, and is one line of the file
      exactly when the wildcard holds no line break. */
  lemma {:induction false} FieldsOfLine(fields: seq<string>)
    requires |fields| >= 1
    requires forall i | 1 <= i < |fields| :: FieldSeparator !in fields[i] && IsTextLine(fields[i])
    ensures FieldSeparator !in fields[0] ==> Split(Join(fields, FieldSeparator), FieldSeparator) == fields
    ensures IsTextLine(Join(fields, FieldSeparator)) <==> IsTextLine(fields[0])
  {
    if FieldSeparator !in fields[0] {
      SplitJoin(fields, FieldSeparator);
    }
    if |fields| > 1 {
      FieldsOfLine(fields[1..]);
      assert Join(fields, FieldSeparator) == fields[0] + [FieldSeparator] + Join(fields[1..], FieldSeparator);
    }
  }

  /** A printed number holds a sign and digits only: no tab, no line
      break. */
  lemma NumberIsPlain(n: int)
    ensures FieldSeparator !in IntToString(n)
    ensures IsTextLine(IntToString(n))
  {
    var digits := NatToString(if n < 0 then -n else n);
    assert forall i | 0 <= i < |digits| :: IsDigit(digits[i]);
    if n < 0 {
      assert IntToString(n) == "-" + digits;
    }
  }

  /** Each item rendered as one line, in order. */
  function Lines<R>(rules: seq<R>, render: R -> string): (lines: seq<string>)
    ensures |lines| == |rules|
    ensures forall i | 0 <= i < |rules| :: lines[i] == render(rules[i])
  {
    seq(|rules|, i requires 0 <= i < |rules| => render(rules[i]))
  }

  /** `File.WriteAllLines`: the file, whether it existed or not, now holds
      exactly the given lines. */
  function WriteAllLines(file: FileLines, lines: seq<string>): (file': FileLines)
    ensures file' == Some(lines)
  {
    Some(lines)
  }

  /** `SaveSizeRuleList`: a null list leaves the file as it was; otherwise
      the file is replaced by one line per rule. */
  function SaveSizeRuleList(rules: Option<seq<SizeRule>>, file: FileLines): (file': FileLines)
    ensures rules.None? ==> file' == file
    ensures rules.Some? ==> file' == Some(Lines(rules.value, SizeRuleLine))
  {
    match rules
    case None => file
    case Some(rs) => WriteAllLines(file, Lines(rs, SizeRuleLine))
  }

  /** `SaveFormatRuleList`: a null list leaves the file as it was. For an
      empty list the sentinel "no_rule" is written first, but the write of
      the (empty) line array that follows replaces it, so the file ends up
      empty. */
  function SaveFormatRuleList(rules: Option<seq<FormatRule>>, file: FileLines): (file': FileLines)
    ensures rules.None? ==> file' == file
    ensures rules.Some? ==> file' == Some(Lines(rules.value, FormatRuleLine))
    ensures rules == Some([]) ==> file' == Some([])
  {
    match rules
    case None => file
    case Some(rs) =>
      var afterSentinel := if |rs| == 0 then WriteAllLines(file, [NoRuleText]) else file;
      WriteAllLines(afterSentinel, Lines(rs, FormatRuleLine))
  }

  // ---------------------------------------------------------------------------
  // Reading

  /** One line of a size rule file: skipped with fewer than three fields,
      a failure when the second or third field is not an `Int32`, and
      otherwise the rule built from the first three fields, the kind cast
      from its code. A parsed line that holds no line break gives a rule
      that can be written back. */
  function ParseSizeRuleLine(line: string): (o: LineOutcome<SizeRule>)
    ensures var p := Split(line, FieldSeparator);
      && (o.Skipped? <==> |p| < 3)
      && (o.BadNumber? <==> |p| >= 3 && (ParseInt(p[1]).None? || ParseInt(p[2]).None?))
      && (o.Parsed? ==> o.rule == SizeRule(p[0], KindFromCode(ParseInt(p[1]).value), ParseInt(p[2]).value))
    ensures o.Parsed? && IsTextLine(line) ==> StorableSizeRule(o.rule)
  {
    var p := Split(line, FieldSeparator);
    if |p| < 3 then Skipped
    else
      match (ParseInt(p[1]), ParseInt(p[2]))
      case (Some(k), Some(v)) =>
        SplitKeepsOut(line, FieldSeparator, '\n');
        SplitKeepsOut(line, FieldSeparator, '\r');
        Parsed(SizeRule(p[0], KindFromCode(k), v))
      case _ => BadNumber
  }

  /** One line of a format rule file, likewise, the format cast from its
      code; fields past the third (the empty one after the trailing tab)
      are ignored. */
  function ParseFormatRuleLine(line: string): (o: LineOutcome<FormatRule>)
    ensures var p := Split(line, FieldSeparator);
      && (o.Skipped? <==> |p| < 3)
      && (o.BadNumber? <==> |p| >= 3 && (ParseInt(p[1]).None? || ParseInt(p[2]).None?))
      && (o.Parsed? ==> o.rule == FormatRule(p[0], FormatFromCode(ParseInt(p[1]).value), ParseInt(p[2]).value))
    ensures o.Parsed? && IsTextLine(line) ==> StorableFormatRule(o.rule)
  {
    var p := Split(line, FieldSeparator);
    if |p| < 3 then Skipped
    else
      match (ParseInt(p[1]), ParseInt(p[2]))
      case (Some(f), Some(q)) =>
        SplitKeepsOut(line, FieldSeparator, '\n');
        SplitKeepsOut(line, FieldSeparator, '\r');
        Parsed(FormatRule(p[0], FormatFromCode(f), q))
      case _ => BadNumber
  }

  /** The loop over the lines of a rule file: skipped lines add nothing,
      parsed lines add their rule in order, and the first line with a bad
      number stops the load. */
  function ParseRuleLines<R>(lines: seq<string>, parse: string -> LineOutcome<R>): (r: Result<seq<R>, LoadFailure<R>>)
    ensures r.Ok? <==> forall i | 0 <= i < |lines| :: !parse(lines[i]).BadNumber?
    ensures r.Ok? ==> |r.value| <= |lines|
    ensures r.Err? ==> r.error.line in lines && parse(r.error.line).BadNumber?
  {
    if |lines| == 0 then Ok([])
    else
      assert forall i | 1 <= i < |lines| :: lines[i] == lines[1..][i - 1];
      match parse(lines[0])
      case BadNumber => Err(LoadFailure([], lines[0]))
      case Skipped => ParseRuleLines(lines[1..], parse)
      case Parsed(x) =>
        match ParseRuleLines(lines[1..], parse)
        case Ok(xs) => Ok([x] + xs)
        case Err(f) => Err(LoadFailure([x] + f.loaded, f.line))
  }

  /** The load of one run of lines followed by another, from the loads of
      each: a failure in the first run stops the load there, a failure in
      the second keeps every rule of the first, and otherwise the rules of
      the first run come before those of the second. */
  function ThenLoad<R>(first: Result<seq<R>, LoadFailure<R>>, second: Result<seq<R>, LoadFailure<R>>): Result<seq<R>, LoadFailure<R>>
  {
    match first
    case Err(f) => Err(f)
    case Ok(a) =>
      match second
      case Ok(b) => Ok(a + b)
      case Err(f) => Err(LoadFailure(a + f.loaded, f.line))
  }

  /** Lines are loaded one after the other, in file order. */
  lemma {:induction false} ParseRuleLinesAppend<R>(xs: seq<string>, ys: seq<string>, parse: string -> LineOutcome<R>)
    ensures ParseRuleLines(xs + ys, parse) == ThenLoad(ParseRuleLines(xs, parse), ParseRuleLines(ys, parse))
  {
    if |xs| == 0 {
      assert xs + ys == ys;
      match ParseRuleLines(ys, parse)
      case Ok(b) => assert [] + b == b;
      case Err(f) => assert [] + f.loaded == f.loaded;
    } else {
      assert (xs + ys)[0] == xs[0];
      assert (xs + ys)[1..] == xs[1..] + ys;
      ParseRuleLinesAppend(xs[1..], ys, parse);
      if parse(xs[0]).Parsed? && ParseRuleLines(xs[1..], parse).Ok? {
        var x, a := parse(xs[0]).rule, ParseRuleLines(xs[1..], parse).value;
        match ParseRuleLines(ys, parse)
        case Ok(b) => ConsAppend(x, a, b);
        case Err(f) => ConsAppend(x, a, f.loaded);
      }
    }
  }

  lemma ConsAppend<R>(x: R, a: seq<R>, b: seq<R>)
    ensures [x] + (a + b) == ([x] + a) + b
  {
  }

  /** One line loads as nothing, as its rule, or as a failure naming it. */
  lemma ParseOneLine<R>(line: string, parse: string -> LineOutcome<R>)
    ensures ParseRuleLines([line], parse) ==
      match parse(line)
      case Skipped => Ok([])
      case Parsed(x) => Ok([x])
      case BadNumber => Err(LoadFailure([], line))
  {
    assert [line][1..] == [];
    assert ParseRuleLines([line][1..], parse) == Ok([]);
    if parse(line).Parsed? {
      assert [parse(line).rule] + [] == [parse(line).rule];
    }
  }

  /** A load reads no rule and does not fail exactly when every line is
      skipped. */
  lemma {:induction false} AllSkippedLoadsNothing<R>(lines: seq<string>, parse: string -> LineOutcome<R>)
    ensures (forall i | 0 <= i < |lines| :: parse(lines[i]).Skipped?) <==> ParseRuleLines(lines, parse) == Ok([])
  {
    if |lines| > 0 {
      AllSkippedLoadsNothing(lines[1..], parse);
      assert forall i | 1 <= i < |lines| :: lines[i] == lines[1..][i - 1];
      if parse(lines[0]).Parsed? {
        assert ParseRuleLines(lines, parse) != Ok([]);
      }
    }
  }

  /** The rules read before the load finished or stopped. */
  function Loaded<R>(r: Result<seq<R>, LoadFailure<R>>): seq<R>
  {
    match r
    case Ok(rules) => rules
    case Err(f) => f.loaded
  }

  /** Every rule read, whether the load finished or stopped, is the rule
      parsed from one of the lines. */
  lemma {:induction false} ParsedRulesComeFromLines<R>(lines: seq<string>, parse: string -> LineOutcome<R>)
    ensures forall i | 0 <= i < |Loaded(ParseRuleLines(lines, parse))| ::
      exists k | 0 <= k < |lines| :: parse(lines[k]) == Parsed(Loaded(ParseRuleLines(lines, parse))[i])
  {
    if |lines| > 0 {
      var loaded := Loaded(ParseRuleLines(lines, parse));
      var rest := Loaded(ParseRuleLines(lines[1..], parse));
      ParsedRulesComeFromLines(lines[1..], parse);
      assert forall i | 0 <= i < |rest| :: exists k | 0 <= k < |lines| - 1 :: parse(lines[1..][k]) == Parsed(rest[i]);
      forall i | 0 <= i < |loaded| ensures exists k | 0 <= k < |lines| :: parse(lines[k]) == Parsed(loaded[i]) {
        if parse(lines[0]).Parsed? && i == 0 {
          assert parse(lines[0]) == Parsed(loaded[0]);
        } else {
          var j := if parse(lines[0]).Parsed? then i - 1 else i;
          assert loaded[i] == rest[j];
          var k :| 0 <= k < |lines| - 1 && parse(lines[1..][k]) == Parsed(rest[j]);
          assert lines[k + 1] == lines[1..][k];
        }
      }
      assert forall i | 0 <= i < |loaded| :: exists k | 0 <= k < |lines| :: parse(lines[k]) == Parsed(loaded[i]);
    } else {
      assert Loaded(ParseRuleLines(lines, parse)) == [];
    }
  }

  lemma LoadedSizeRulesAreStorable(lines: seq<string>)
    ensures (forall j | 0 <= j < |lines| :: IsTextLine(lines[j])) ==>
      forall i | 0 <= i < |Loaded(ParseRuleLines(lines, ParseSizeRuleLine))| ::
        StorableSizeRule(Loaded(ParseRuleLines(lines, ParseSizeRuleLine))[i])
  {
    var loaded := Loaded(ParseRuleLines(lines, ParseSizeRuleLine));
    ParsedRulesComeFromLines(lines, ParseSizeRuleLine);
    if forall j | 0 <= j < |lines| :: IsTextLine(lines[j]) {
      forall i | 0 <= i < |loaded| ensures StorableSizeRule(loaded[i]) {
        var k :| 0 <= k < |lines| && ParseSizeRuleLine(lines[k]) == Parsed(loaded[i]);
        assert IsTextLine(lines[k]);
      }
    }
  }

  lemma LoadedFormatRulesAreStorable(lines: seq<string>)
    ensures (forall j | 0 <= j < |lines| :: IsTextLine(lines[j])) ==>
      forall i | 0 <= i < |Loaded(ParseRuleLines(lines, ParseFormatRuleLine))| ::
        StorableFormatRule(Loaded(ParseRuleLines(lines, ParseFormatRuleLine))[i])
  {
    var loaded := Loaded(ParseRuleLines(lines, ParseFormatRuleLine));
    ParsedRulesComeFromLines(lines, ParseFormatRuleLine);
    if forall j | 0 <= j < |lines| :: IsTextLine(lines[j]) {
      forall i | 0 <= i < |loaded| ensures StorableFormatRule(loaded[i]) {
        var k :| 0 <= k < |lines| && ParseFormatRuleLine(lines[k]) == Parsed(loaded[i]);
        assert IsTextLine(lines[k]);
      }
    }
  }

  /** The two catch-all rules can be written to a rule file and read back. */
  lemma DefaultRulesAreStorable()
    ensures StorableSizeRule(DefaultSizeRule)
    ensures StorableFormatRule(DefaultFormatRule)
  {
    assert FieldSeparator !in "**";
  }

  /** `LoadSizeRuleList`: the rules of the file, or the catch-all rule
      ("**", Pixel, 128) when the file is missing or yields none. */
  function LoadSizeRuleList(file: FileLines): (r: Result<seq<SizeRule>, LoadFailure<SizeRule>>)
    ensures file.None? ==> r == Ok([DefaultSizeRule])
    ensures file.Some? && (forall i | 0 <= i < |file.value| :: ParseSizeRuleLine(file.value[i]).Skipped?) ==>
      r == Ok([DefaultSizeRule])
    ensures r.Ok? ==> |r.value| >= 1
    ensures r.Ok? && IsReadable(file) ==> forall i | 0 <= i < |r.value| :: StorableSizeRule(r.value[i])
    ensures r.Err? <==> file.Some? && exists i | 0 <= i < |file.value| :: ParseSizeRuleLine(file.value[i]).BadNumber?
  {
    match file
    case None => Ok([DefaultSizeRule])
    case Some(lines) =>
      var parsed := ParseRuleLines(lines, ParseSizeRuleLine);
      LoadedSizeRulesAreStorable(lines);
      AllSkippedLoadsNothing(lines, ParseSizeRuleLine);
      match parsed
      case Err(f) => Err(f)
      case Ok(rs) =>
        if |rs| == 0 then
          DefaultRulesAreStorable();
          Ok([DefaultSizeRule])
        else
          assert Loaded(parsed) == rs;
          Ok(rs)
  }

  /** `LoadFormatRuleList`: likewise, with the catch-all format rule
      ("**", AutomaticCompressed, 80). */
  function LoadFormatRuleList(file: FileLines): (r: Result<seq<FormatRule>, LoadFailure<FormatRule>>)
    ensures file.None? ==> r == Ok([DefaultFormatRule])
    ensures file.Some? && (forall i | 0 <= i < |file.value| :: ParseFormatRuleLine(file.value[i]).Skipped?) ==>
      r == Ok([DefaultFormatRule])
    ensures r.Ok? ==> |r.value| >= 1
    ensures r.Ok? && IsReadable(file) ==> forall i | 0 <= i < |r.value| :: StorableFormatRule(r.value[i])
    ensures r.Err? <==> file.Some? && exists i | 0 <= i < |file.value| :: ParseFormatRuleLine(file.value[i]).BadNumber?
  {
    match file
    case None => Ok([DefaultFormatRule])
    case Some(lines) =>
      var parsed := ParseRuleLines(lines, ParseFormatRuleLine);
      LoadedFormatRulesAreStorable(lines);
      AllSkippedLoadsNothing(lines, ParseFormatRuleLine);
      match parsed
      case Err(f) => Err(f)
      case Ok(rs) =>
        if |rs| == 0 then
          DefaultRulesAreStorable();
          Ok([DefaultFormatRule])
        else
          assert Loaded(parsed) == rs;
          Ok(rs)
  }

  // ---------------------------------------------------------------------------
  // Round trips

  /** A storable size rule is read back from its line unchanged. */
  lemma SizeRuleLineRoundTrip(r: SizeRule)
    requires StorableSizeRule(r)
    ensures ParseSizeRuleLine(SizeRuleLine(r)) == Parsed(r)
  {
    var p := Split(SizeRuleLine(r), FieldSeparator);
    assert p == [r.pathMatch, IntToString(KindCode(r.kind)), IntToString(r.parameter)];
    ParseIntToString(KindCode(r.kind));
    ParseIntToString(r.parameter);
    KindCodeRoundTrip(r.kind);
    assert ParseInt(p[1]) == Some(KindCode(r.kind)) && ParseInt(p[2]) == Some(r.parameter);
  }

  /** A storable format rule is read back from its line unchanged; the
      empty fourth field after the trailing tab is ignored. */
  lemma FormatRuleLineRoundTrip(r: FormatRule)
    requires StorableFormatRule(r)
    ensures ParseFormatRuleLine(FormatRuleLine(r)) == Parsed(r)
  {
    var code := FormatCode(r.format);
    var p := Split(FormatRuleLine(r), FieldSeparator);
    assert p == [r.pathMatch, IntToString(code), IntToString(r.quality), ""];
    ParseIntToString(code);
    ParseIntToString(r.quality);
    FormatCodeRoundTrip(r.format);
    assert ParseInt(p[1]) == Some(code) && ParseInt(p[2]) == Some(r.quality);
  }

  lemma {:induction false} ParseRenderedLines<R>(rules: seq<R>, render: R -> string, parse: string -> LineOutcome<R>)
    requires forall i | 0 <= i < |rules| :: parse(render(rules[i])) == Parsed(rules[i])
    ensures ParseRuleLines(Lines(rules, render), parse) == Ok(rules)
  {
    if |rules| > 0 {
      assert Lines(rules, render)[1..] == Lines(rules[1..], render);
      ParseRenderedLines(rules[1..], render, parse);
      assert rules == [rules[0]] + rules[1..];
    }
  }

  lemma RenderedLinesAreReadable<R>(rules: seq<R>, render: R -> string)
    requires forall i | 0 <= i < |rules| :: IsTextLine(render(rules[i]))
    ensures IsReadable(Some(Lines(rules, render)))
  {
  }

  /** Saving a non-empty list of storable size rules and loading the file
      gives the same list back, whatever the file held before. */
  lemma SizeRuleListRoundTrip(rules: seq<SizeRule>, file: FileLines)
    requires |rules| >= 1
    requires forall i | 0 <= i < |rules| :: StorableSizeRule(rules[i])
    ensures IsReadable(SaveSizeRuleList(Some(rules), file))
    ensures LoadSizeRuleList(SaveSizeRuleList(Some(rules), file)) == Ok(rules)
  {
    forall i | 0 <= i < |rules|
      ensures ParseSizeRuleLine(SizeRuleLine(rules[i])) == Parsed(rules[i])
      ensures IsTextLine(SizeRuleLine(rules[i]))
    {
      SizeRuleLineRoundTrip(rules[i]);
    }
    RenderedLinesAreReadable(rules, SizeRuleLine);
    ParseRenderedLines(rules, SizeRuleLine, ParseSizeRuleLine);
  }

  lemma FormatRuleListRoundTrip(rules: seq<FormatRule>, file: FileLines)
    requires |rules| >= 1
    requires forall i | 0 <= i < |rules| :: StorableFormatRule(rules[i])
    ensures IsReadable(SaveFormatRuleList(Some(rules), file))
    ensures LoadFormatRuleList(SaveFormatRuleList(Some(rules), file)) == Ok(rules)
  {
    forall i | 0 <= i < |rules|
      ensures ParseFormatRuleLine(FormatRuleLine(rules[i])) == Parsed(rules[i])
      ensures IsTextLine(FormatRuleLine(rules[i]))
    {
      FormatRuleLineRoundTrip(rules[i]);
    }
    RenderedLinesAreReadable(rules, FormatRuleLine);
    ParseRenderedLines(rules, FormatRuleLine, ParseFormatRuleLine);
  }

  /** Whatever a load produces is saved and reloaded unchanged, so the
      editor's load-edit-save cycle never drifts on its own. */
  lemma LoadedSizeRulesAreStable(file: FileLines, file': FileLines)
    requires IsReadable(file) && LoadSizeRuleList(file).Ok?
    ensures LoadSizeRuleList(SaveSizeRuleList(Some(LoadSizeRuleList(file).value), file')) == LoadSizeRuleList(file)
  {
    SizeRuleListRoundTrip(LoadSizeRuleList(file).value, file');
  }

  lemma LoadedFormatRulesAreStable(file: FileLines, file': FileLines)
    requires IsReadable(file) && LoadFormatRuleList(file).Ok?
    ensures LoadFormatRuleList(SaveFormatRuleList(Some(LoadFormatRuleList(file).value), file')) == LoadFormatRuleList(file)
  {
    FormatRuleListRoundTrip(LoadFormatRuleList(file).value, file');
  }

  /** An empty list is saved as an empty file, which loads as the catch-all
      rule; so does a file holding only the "no_rule" sentinel. */
  lemma EmptyListsReloadAsDefault(file: FileLines)
    ensures LoadSizeRuleList(SaveSizeRuleList(Some([]), file)) == Ok([DefaultSizeRule])
    ensures LoadFormatRuleList(SaveFormatRuleList(Some([]), file)) == Ok([DefaultFormatRule])
    ensures LoadFormatRuleList(Some([NoRuleText])) == Ok([DefaultFormatRule])
  {
    assert SaveSizeRuleList(Some([]), file) == Some([]);
    assert SaveFormatRuleList(Some([]), file) == Some([]);
    assert Split(NoRuleText, FieldSeparator) == [NoRuleText] by {
      SplitPrefix(NoRuleText, "", FieldSeparator);
      assert NoRuleText + "" == NoRuleText;
    }
  }

  /** A line with fewer than three fields (a blank line, a comment without
      tabs) can be inserted anywhere without changing what loads. */
  lemma {:induction false} ShortLinesAreSkipped<R>(before: seq<string>, line: string, after: seq<string>,
                                                   parse: string -> LineOutcome<R>)
    requires parse(line).Skipped?
    ensures ParseRuleLines(before + [line] + after, parse) == ParseRuleLines(before + after, parse)
  {
    if |before| == 0 {
      assert before + [line] + after == [line] + after;
      assert ([line] + after)[1..] == after;
      assert before + after == after;
    } else {
      ShortLinesAreSkipped(before[1..], line, after, parse);
      assert (before + [line] + after)[1..] == before[1..] + [line] + after;
      assert (before + after)[1..] == before[1..] + after;
    }
  }

  /** A failed load keeps exactly the rules of the lines before the
      offending one. */
  lemma {:induction false} FailureKeepsEarlierRules<R>(lines: seq<string>, parse: string -> LineOutcome<R>)
    requires ParseRuleLines(lines, parse).Err?
    ensures var f := ParseRuleLines(lines, parse).error;
      exists k | 0 <= k < |lines| ::
        && lines[k] == f.line
        && ParseRuleLines(lines[..k], parse) == Ok(f.loaded)
  {
    var f := ParseRuleLines(lines, parse).error;
    if parse(lines[0]).BadNumber? {
      assert lines[..0] == [];
    } else {
      var rest := ParseRuleLines(lines[1..], parse).error;
      assert f.line == rest.line;
      FailureKeepsEarlierRules(lines[1..], parse);
      var k :| 0 <= k < |lines[1..]| && lines[1..][k] == rest.line
        && ParseRuleLines(lines[1..][..k], parse) == Ok(rest.loaded);
      var before := lines[..k + 1];
      assert before[0] == lines[0];
      assert before[1..] == lines[1..k + 1];
      assert lines[1..][..k] == lines[1..k + 1];
      assert lines[k + 1] == f.line;
    }
  }
}
