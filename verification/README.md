# PlatformTextureSetting rule core in Dafny

PlatformTextureSetting is a Unity editor tool that sets per-platform texture
import settings from two ordered rule lists. A size rule pairs a path
wildcard with either a fixed maximum size in pixels or a divisor of the
texture's default maximum size. A format rule pairs a path wildcard with a
texture format and a compression quality. For each texture the first rule
whose wildcard matches the asset path wins. The importer is changed only
when its current setting differs from the target. The rules are kept in
tab-separated text files, one per platform and rule kind. A second command
sets each PNG texture's default maximum size from the image dimensions in
its header.

This project models the logic of
`Assets/PlatformTextureSetting/Editor/Inner/TextureImportSettingBase.cs` and
the platform names of the four platform windows:

| module | file | what it models |
|---|---|---|
| `Wrappers` | `wrappers.dfy` | `Option` and `Result`, standing for null and for the exception path |
| `Glob` | `glob.dfy` | `GlobToRegex` and `IsMatch`. A wildcard becomes a list of tokens (`Lit`, `Star`, `DoubleStar`, `Question`) in the order the rewrites happen. A recursive predicate then matches the whole path against the tokens. |
| `Formats` | `formats.dfy` | `EParameterFormat`, `TextureImporterFormat` with its integer codes, `IsNeedQualityFormat` |
| `CSharpInt` | `csharp_int.dfy` | The C# `int` operations the code relies on: 32-bit wrap-around, `<<` with its shift count taken mod 32, `/` truncating toward zero |
| `Rules` | `rules.dfy` | The two rule records, the popup getters and setters of a size rule, and `SwapSizeRule` / `SwapFormatRule` |
| `Resolution` | `resolution.dfy` | `GetSizeRule` and `GetFormatRule`: first match in list order, with null entries skipped |
| `Apply` | `apply.dfy` | `GetTextureSizeFromRule`, the change test, and the body of `ChangeImportSettings` as a function from assets to change requests |
| `Text` | `text.dfy` | `String.Split`, joining with a separator, `Int32.ToString` and `Int32.Parse` |
| `RuleFile` | `rulefile.dfy` | Saving and loading the rule files |
| `Png` | `png.dfy` | `IsPngData`, `GetPngSize`, `GetNearMaxSize`, `ValidateDefaultTextureMaxSize` |
| `Platforms` | `platforms.dfy` | `targetPlatform` of each window and the rule file paths derived from it |

Modelling choices worth knowing:

- **Wildcards.** The rewrite turns `?` into `([^/].)`. A `?` therefore
  consumes exactly two characters, of which the first is not '/'. The model
  keeps this literally (`Glob.QuestionTakesTwoCharacters`), although a
  single character is the usual meaning of `?`.
- **Anchoring.** The regular expression is anchored with `^` and `$`, and
  `$` without the multi-line option also matches before a final line feed.
  `Glob.GlobMatches` therefore also accepts a path whose last character is
  a line feed when the rest of it matches.
- **Case.** The expression ignores case. The model folds ASCII letters only.
- **Open enumerations.** A C# enum holds any integer, and the rule files are
  read by casting whatever number they contain. Each enumeration therefore
  has one more constructor, `OtherKind(code)` or `OtherFormat(code)`. C#
  compares enum values by the integer underneath, so wherever the code
  compares or switches on a kind or a format, the model compares codes
  (`Formats.SameKind`, `Formats.SameFormat`). `OtherFormat(10)` is then the
  same value as DXT1, and `OtherKind(0)` the same as Pixel. A size rule
  whose kind is not Pixel's value divides, exactly as the `else` branch of
  `GetTextureSizeFromRule` does.
- **Parse failures.** `Int32.Parse` throws on a bad number field. The
  exception leaves the list holding the rules read before that line, and
  skips the fallback rule. The model returns
  `Err(LoadFailure(loaded, line))` with the same rules.
- **The "no_rule" sentinel.** For an empty format rule list,
  `SaveFormatRuleList` writes the text `no_rule`
  (`TextureImportSettingBase.cs` line 688) and then, with no `return` in
  between, overwrites the file with an empty line array, so the file ends
  up empty. The model follows the code
  (`RuleFile.SaveFormatRuleList`). Both files load as the catch-all rule
  (`RuleFile.EmptyListsReloadAsDefault`).
- **The engine as parameters.** The asset database and the texture importer
  belong to the engine. An asset is its path plus, when it is a texture,
  its importer's default maximum size and current platform setting. The
  pass returns the `SetPlatformTextureSettings` calls it would make. For a
  format that takes a quality, the call passes the quality and
  `allowsAlphaSplit = false`; otherwise it passes neither. A file is the
  list of its lines, or `None` when it does not exist. `File.ReadAllLines`
  splits a file at line breaks, so no line it returns holds one
  (`RuleFile.IsReadable`). A rule can be written and read back only when its
  wildcard holds no line break (`RuleFile.StorableSizeRule`).

## Model

Paths are relative to the repository root; `TextureImportSettingBase.cs` is
`Assets/PlatformTextureSetting/Editor/Inner/TextureImportSettingBase.cs`.

| member | source | states |
|---|---|---|
| Glob.Tokenize | Assets/PlatformTextureSetting/Editor/Inner/TextureImportSettingBase.cs:732-739 | The token list is empty only for the empty wildcard. It starts with a star token exactly when the wildcard starts with '*'. It is always canonical: no literal `*` or `?`, and no `*` token directly followed by another star token, because `**` is rewritten before `*`. |
| Glob.RenderTokenize | Assets/PlatformTextureSetting/Editor/Inner/TextureImportSettingBase.cs:732-739 | Tokenizing loses nothing: the wildcard text is rebuilt exactly from its tokens. |
| Glob.TokenizeRender | Assets/PlatformTextureSetting/Editor/Inner/TextureImportSettingBase.cs:732-739 | Every canonical token list is the reading of its own text, so wildcard texts and canonical token lists correspond one to one. |
| Glob.MatchTokensIffSegmented | Assets/PlatformTextureSetting/Editor/Inner/TextureImportSettingBase.cs:732-739 | The backtracking matcher accepts a path exactly when the path cuts into one piece per token, each accepted by its token: a literal takes one character ignoring case, `*` a run without '/', `**` any run, `?` two characters whose first is not '/'. |
| Glob.MatchTokens | Assets/PlatformTextureSetting/Editor/Inner/TextureImportSettingBase.cs:735-737 | A match takes at least the characters the pattern fixes: one per literal and two per `?`. The token `**` alone accepts every path. |
| Glob.GlobMatches | Assets/PlatformTextureSetting/Editor/Inner/TextureImportSettingBase.cs:732-739 | The regular expression matches a path exactly when the path cuts into one piece per token, or when it ends in a line feed and the rest of it cuts so. |
| Glob.GlobMatchesWholePath | Assets/PlatformTextureSetting/Editor/Inner/TextureImportSettingBase.cs:734 | Apart from the final line-feed case, the anchored match is exactly a cut of the whole path into token pieces. |
| Glob.CatchAllMatchesEveryPath | Assets/PlatformTextureSetting/Editor/Inner/TextureImportSettingBase.cs:735 | The wildcard `**` matches every path. |
| Glob.StarStaysInDirectory | Assets/PlatformTextureSetting/Editor/Inner/TextureImportSettingBase.cs:736 | A wildcard without `**` and `?` matches only paths with as many '/' as its literals contain, because `*` never spans a directory separator. |
| Glob.MatchIgnoresPathCase | Assets/PlatformTextureSetting/Editor/Inner/TextureImportSettingBase.cs:738 | Whether a path matches does not depend on the ASCII case of the path. |
| Glob.QuestionTakesTwoCharacters | Assets/PlatformTextureSetting/Editor/Inner/TextureImportSettingBase.cs:737 | The wildcard `?` matches exactly the two-character paths whose first character is not '/', plus the same followed by a final line feed. |
| Glob.QuestionExample | Assets/PlatformTextureSetting/Editor/Inner/TextureImportSettingBase.cs:737 | "a?" matches "abc" but neither "ab" nor "a/c". |
| Glob.AssetsSubtreeExample | Assets/PlatformTextureSetting/Editor/Inner/TextureImportSettingBase.cs:732-739 | "Assets/" followed by `**` matches every path that starts with "Assets/". |
| Glob.CaseInsensitiveExample | Assets/PlatformTextureSetting/Editor/Inner/TextureImportSettingBase.cs:738 | "ASSETS/" followed by `**` matches every path that starts with "assets/". |
| Glob.SingleStarMatchExample | Assets/PlatformTextureSetting/Editor/Inner/TextureImportSettingBase.cs:736 | "Assets/*.png" matches "Assets/" + name + ".png" for every name without '/'. |
| Glob.StarAcceptsName | Assets/PlatformTextureSetting/Editor/Inner/TextureImportSettingBase.cs:736 | Between two literal texts, `*` accepts any name that holds no '/'. |
| Glob.SubdirectoryMismatch | Assets/PlatformTextureSetting/Editor/Inner/TextureImportSettingBase.cs:736 | "Assets/*.png" matches no path of the form "Assets/" + dir + "/" + file, whatever dir and file are, so a single `*` does not reach into subdirectories. |
| Glob.StarRejectsSubdirectory | Assets/PlatformTextureSetting/Editor/Inner/TextureImportSettingBase.cs:736 | A wildcard of a literal text, one `*` and a literal text without '/' rejects every path that puts one more '/' after the first text, also when the path ends in a line feed. |
| Glob.PrefixThenDoubleStar | Assets/PlatformTextureSetting/Editor/Inner/TextureImportSettingBase.cs:735 | A literal wildcard text followed by `**` matches every path that starts with that text, ignoring case. |
| Formats.KindFromCode | Assets/PlatformTextureSetting/Editor/Inner/TextureImportSettingBase.cs:617 | Casting an integer to the parameter kind keeps the integer. An "other" kind never carries code 0 or 1. |
| Formats.KindCodeRoundTrip | Assets/PlatformTextureSetting/Editor/Inner/TextureImportSettingBase.cs:672 | The kind written as `(int)` and cast back is the same kind. |
| Formats.FormatFromCode | Assets/PlatformTextureSetting/Editor/Inner/TextureImportSettingBase.cs:643 | Casting an integer to a texture format keeps the integer. The result is an unnamed format exactly when the code names none of the listed formats. |
| Formats.FormatCodeRoundTrip | Assets/PlatformTextureSetting/Editor/Inner/TextureImportSettingBase.cs:696 | The format written as `(int)` and cast back is the same format. |
| Formats.SameFormatIsEquality | Assets/PlatformTextureSetting/Editor/Inner/TextureImportSettingBase.cs:565 | For formats in their one representation, having the same code is being the same format. |
| Formats.IsNeedQualityFormat | Assets/PlatformTextureSetting/Editor/Inner/TextureImportSettingBase.cs:871-888 | A format takes a quality exactly when its code is one of 28, 29, 30, 31, 32, 33, 34, 45, 46 and 47: the two crunched DXT formats, the ETC formats and the PVRTC formats. A format spelled by its bare code answers as its named value does. |
| CSharpInt.WrapInt32 | Assets/PlatformTextureSetting/Editor/Inner/TextureImportSettingBase.cs:860-863 | The result is a 32-bit value with the same low 32 bits as the exact value, and an exact value that fits is kept. |
| CSharpInt.ShiftLeft | Assets/PlatformTextureSetting/Editor/Inner/TextureImportSettingBase.cs:860-863 | `x << n` is a 32-bit value congruent to x·2^(n mod 32) modulo 2^32. |
| CSharpInt.ShiftLeftOne | Assets/PlatformTextureSetting/Editor/Inner/TextureImportSettingBase.cs:103 | `1 << n` is 2^n for 0 ≤ n < 31. Otherwise it is 2^(n mod 32), or the most negative `int` when n mod 32 is 31. |
| CSharpInt.TruncDiv | Assets/PlatformTextureSetting/Editor/Inner/TextureImportSettingBase.cs:753 | C# `/`: the remainder is smaller than the divisor in absolute value and has the sign of the dividend. |
| CSharpInt.TruncDivOfNatural | Assets/PlatformTextureSetting/Editor/Inner/TextureImportSettingBase.cs:753 | For a non-negative dividend and a positive divisor the quotient is the floor. |
| Rules.GetRulePopupIndex | Assets/PlatformTextureSetting/Editor/Inner/TextureImportSettingBase.cs:37-47 | The kind popup shows 0 exactly for a kind whose value is Pixel's (0), and 1 for every other kind. |
| Rules.SetRulePopupIndex | Assets/PlatformTextureSetting/Editor/Inner/TextureImportSettingBase.cs:48-64 | Index 0 selects Pixel, index 1 Division, and any other index keeps the kind. A change of the kind's value resets the parameter to 0; otherwise the parameter is kept. |
| Rules.RulePopupRoundTrip | Assets/PlatformTextureSetting/Editor/Inner/TextureImportSettingBase.cs:37-64 | The popup reads back the kind just selected. Storing what the popup shows (as the editor does on every frame) leaves a rule unchanged exactly when its kind is Pixel or Division. It keeps the parameter exactly when the kind's value is 0 or 1, or the parameter already is 0. |
| Rules.GetMaxPixelPopupIndex | Assets/PlatformTextureSetting/Editor/Inner/TextureImportSettingBase.cs:66-79 | The pixel popup shows the entry equal to a listed parameter, and entry 4 for any other parameter. |
| Rules.SetMaxPixelPopupIndex | Assets/PlatformTextureSetting/Editor/Inner/TextureImportSettingBase.cs:80-88 | An index inside the list stores that size and one outside stores 256. The stored parameter is always a listed size, and the path and kind are kept. |
| Rules.MaxPixelPopupRoundTrip | Assets/PlatformTextureSetting/Editor/Inner/TextureImportSettingBase.cs:66-88 | The pixel popup reads back the entry just selected. Storing what it shows keeps a rule exactly when its parameter is a listed size, and turns any other parameter into 256. |
| Rules.GetDivParamPopupIndex | Assets/PlatformTextureSetting/Editor/Inner/TextureImportSettingBase.cs:90-100 | The division popup shows the i with `1 << i` equal to the parameter when i is below 5, and entry 1 otherwise. |
| Rules.SetDivParamPopupIndex | Assets/PlatformTextureSetting/Editor/Inner/TextureImportSettingBase.cs:101-104 | Storing entry i puts the divisor 2^i in the rule. The stored divisor is never 0, whatever the index. |
| Rules.DivParamPopupRoundTrip | Assets/PlatformTextureSetting/Editor/Inner/TextureImportSettingBase.cs:90-104 | The division popup reads back the entry just selected. Storing what it shows keeps a rule exactly when its parameter is a listed divisor, and turns any other parameter into 2. |
| Rules.Swap | Assets/PlatformTextureSetting/Editor/Inner/TextureImportSettingBase.cs:509-534 | With both indices in range the two entries trade places and every other entry stays put. With either index out of range the list is unchanged. |
| Rules.SwapIsPermutation | Assets/PlatformTextureSetting/Editor/Inner/TextureImportSettingBase.cs:509-534 | Swapping twice restores the list, and a swap keeps the multiset of rules. |
| Resolution.FirstFormatRule | Assets/PlatformTextureSetting/Editor/Inner/TextureImportSettingBase.cs:717-730 | Nothing is found exactly when no present entry matches. Otherwise the result is the rule of a matching entry with no matching entry before it; null entries never match. |
| Resolution.GetSizeRule | Assets/PlatformTextureSetting/Editor/Inner/TextureImportSettingBase.cs:704-715 | No rule is returned exactly when no wildcard matches. Otherwise the rule returned is the first one in list order whose wildcard matches. |
| Resolution.GetFormatRule | Assets/PlatformTextureSetting/Editor/Inner/TextureImportSettingBase.cs:717-730 | A null list gives no rule. Otherwise null entries are skipped, and the result is the first present rule whose wildcard matches, or none exactly when no present rule matches. |
| Resolution.ResolutionOfAppendedRules | Assets/PlatformTextureSetting/Editor/Inner/TextureImportSettingBase.cs:704-715 | Rules appended to a list never change a path the list already resolves. For a path it does not resolve, the appended rules alone decide. |
| Resolution.DefaultSizeRuleResolvesEveryPath | Assets/PlatformTextureSetting/Editor/Inner/TextureImportSettingBase.cs:622-625 | The fallback size rule list resolves every path to its one rule. |
| Resolution.DefaultFormatRuleResolvesEveryPath | Assets/PlatformTextureSetting/Editor/Inner/TextureImportSettingBase.cs:648-651 | The fallback format rule list resolves every path to its one rule. |
| Resolution.FirstMatchWinsExample | Assets/PlatformTextureSetting/Editor/Inner/TextureImportSettingBase.cs:704-715 | With a "UI" rule before a catch-all, a UI icon takes the UI rule and any other asset falls through to the catch-all. |
| Apply.GetTextureSizeFromRule | Assets/PlatformTextureSetting/Editor/Inner/TextureImportSettingBase.cs:741-755 | The size is 1024 without a rule or with parameter 0, and the parameter itself for a rule whose kind has Pixel's value 0. Otherwise it is the importer's default size divided by the parameter, truncating toward zero. |
| Apply.DivisionRuleScalesDefault | Assets/PlatformTextureSetting/Editor/Inner/TextureImportSettingBase.cs:741-755 | A Division rule set from popup entry i scales a non-negative default size down by 2^i, rounding down. |
| Apply.TextureSizeExamples | Assets/PlatformTextureSetting/Editor/Inner/TextureImportSettingBase.cs:741-755 | (1024, Division 4) gives 256 and Pixel 512 gives 512. No rule gives 1024, and so does parameter 0. A kind spelled by its bare code 0 acts as Pixel: 4 gives 4. |
| Apply.TargetFormat | Assets/PlatformTextureSetting/Editor/Inner/TextureImportSettingBase.cs:553-559 | Without a matching format rule the target is AutomaticCompressed at quality 50. Otherwise it is the rule's format and quality. |
| Apply.TargetSetting | Assets/PlatformTextureSetting/Editor/Inner/TextureImportSettingBase.cs:549-559 | The target size is the one computed from the first matching size rule. The target format and quality come from the first matching format rule, or are AutomaticCompressed and 50 when none matches. |
| Apply.NoChangeIffConverged | Assets/PlatformTextureSetting/Editor/Inner/TextureImportSettingBase.cs:565-566 | An importer is left alone exactly when its setting already equals the target, formats compared as values, ignoring the quality for formats that take none. |
| Apply.NeedsChange | Assets/PlatformTextureSetting/Editor/Inner/TextureImportSettingBase.cs:565-566 | No change is asked only when the size and the format's value agree. For formats in their one representation, the test is: size differs, format differs, or the target takes a quality and the qualities differ. |
| Apply.SameValueNeedsNoChange | Assets/PlatformTextureSetting/Editor/Inner/TextureImportSettingBase.cs:565-566 | A current format spelled by its bare code 10 is the target DXT1, so no change is asked. |
| Apply.PlanAsset | Assets/PlatformTextureSetting/Editor/Inner/TextureImportSettingBase.cs:549-586 | An asset without a texture importer gets no request. Any other asset gets one exactly when the change test fires, and the request carries the target size and format. It carries the quality, and `allowsAlphaSplit = false`, exactly when the format takes a quality. |
| Apply.ChangeImportSettings | Assets/PlatformTextureSetting/Editor/Inner/TextureImportSettingBase.cs:536-592 | The requests are exactly those planned for some asset, and there are no more requests than assets. They are none when no asset needs a change and one per asset when every asset does. |
| Apply.ChangeImportSettingsAppend | Assets/PlatformTextureSetting/Editor/Inner/TextureImportSettingBase.cs:541-587 | The pass over two asset lists makes the requests of the first list followed by those of the second. |
| Apply.ChangeImportSettingsOfOne | Assets/PlatformTextureSetting/Editor/Inner/TextureImportSettingBase.cs:547-585 | One asset gives exactly its planned request, or none. Together with the append lemma this fixes the result: one request per asset that needs a change, in asset order. |
| Apply.HonouredAssetIsConverged | Assets/PlatformTextureSetting/Editor/Inner/TextureImportSettingBase.cs:565-586 | Once an asset's request has been carried out, the asset needs no further change. |
| Apply.SecondPassIsNoOp | Assets/PlatformTextureSetting/Editor/Inner/TextureImportSettingBase.cs:536-592 | Applying the rules is idempotent: after a pass's requests are carried out, a second pass issues none. This assumes the engine stores exactly the requested size and format (`Apply.Honours`). An engine that normalised a stored size, for example a Pixel rule of 100 stored as a power of two, would make every pass ask again. |
| Text.Split | Assets/PlatformTextureSetting/Editor/Inner/TextureImportSettingBase.cs:612 | Splitting always yields at least one field, and no field contains the separator. |
| Text.JoinSplit | Assets/PlatformTextureSetting/Editor/Inner/TextureImportSettingBase.cs:612 | Joining the fields of a split with the separator gives back the line. |
| Text.SplitJoin | Assets/PlatformTextureSetting/Editor/Inner/TextureImportSettingBase.cs:668-674 | Fields without the separator, joined and split again, come back unchanged. |
| Text.ParseInt | Assets/PlatformTextureSetting/Editor/Inner/TextureImportSettingBase.cs:617 | A successful parse yields a 32-bit value from text that contains a digit. |
| Text.ParseIntToString | Assets/PlatformTextureSetting/Editor/Inner/TextureImportSettingBase.cs:672-673 | Every 32-bit value printed in decimal parses back to itself. |
| Text.ParseIntExamples | Assets/PlatformTextureSetting/Editor/Inner/TextureImportSettingBase.cs:617 | " -12 " parses to -12 and "+7" to 7. The empty text, "1 2" and "2147483648" fail. |
| RuleFile.SaveSizeRuleList | Assets/PlatformTextureSetting/Editor/Inner/TextureImportSettingBase.cs:660-678 | A null list leaves the file as it was. Otherwise the file holds one line per rule, in order. |
| RuleFile.SaveFormatRuleList | Assets/PlatformTextureSetting/Editor/Inner/TextureImportSettingBase.cs:680-702 | A null list leaves the file as it was. Otherwise the file holds one line per rule, in order, so an empty list leaves an empty file. |
| RuleFile.SizeRuleLine | Assets/PlatformTextureSetting/Editor/Inner/TextureImportSettingBase.cs:668-675 | The line splits back into the wildcard, the kind's code and the parameter when the wildcard holds no tab. It is a single line exactly when the wildcard holds no line break. |
| RuleFile.FormatRuleLine | Assets/PlatformTextureSetting/Editor/Inner/TextureImportSettingBase.cs:692-699 | The line splits back into the wildcard, the format's code, the quality and an empty fourth field when the wildcard holds no tab. It is a single line exactly when the wildcard holds no line break. |
| RuleFile.ParseSizeRuleLine | Assets/PlatformTextureSetting/Editor/Inner/TextureImportSettingBase.cs:612-618 | A line is skipped exactly when it has fewer than three tab-separated fields. It fails exactly when it has three and the second or third is not an `Int32`. Otherwise it gives the rule of the first field, the kind cast from the second and the parameter of the third. A parsed single line can be stored back unchanged. |
| RuleFile.ParseFormatRuleLine | Assets/PlatformTextureSetting/Editor/Inner/TextureImportSettingBase.cs:638-644 | The same for format rule lines, with the format cast from the second field and the quality from the third. |
| RuleFile.ParseRuleLines | Assets/PlatformTextureSetting/Editor/Inner/TextureImportSettingBase.cs:609-620 | The load succeeds exactly when no line has a bad number, and then yields at most one rule per line. A failure names a line of the file with a bad number. |
| RuleFile.ParseRuleLinesAppend | Assets/PlatformTextureSetting/Editor/Inner/TextureImportSettingBase.cs:609-620 | Lines load one after the other in file order. The load of two runs of lines is the rules of the first run followed by those of the second. A bad number in the first run stops the load there, and one in the second keeps every rule of the first. |
| RuleFile.ParseOneLine | Assets/PlatformTextureSetting/Editor/Inner/TextureImportSettingBase.cs:611-618 | A single line loads as nothing when skipped, as its one rule when parsed, and as a failure naming it when a number is bad. |
| RuleFile.ParsedRulesComeFromLines | Assets/PlatformTextureSetting/Editor/Inner/TextureImportSettingBase.cs:609-620 | Every rule read, whether the load finished or stopped, is the rule parsed from some line of the file. |
| RuleFile.AllSkippedLoadsNothing | Assets/PlatformTextureSetting/Editor/Inner/TextureImportSettingBase.cs:609-620 | Reading the lines ends with no rule and no failure exactly when every line is skipped. |
| RuleFile.LoadedSizeRulesAreStorable | Assets/PlatformTextureSetting/Editor/Inner/TextureImportSettingBase.cs:609-618 | Every size rule read from lines without line breaks can be stored back unchanged. |
| RuleFile.LoadedFormatRulesAreStorable | Assets/PlatformTextureSetting/Editor/Inner/TextureImportSettingBase.cs:636-644 | Every format rule read from lines without line breaks can be stored back unchanged. |
| RuleFile.LoadSizeRuleList | Assets/PlatformTextureSetting/Editor/Inner/TextureImportSettingBase.cs:601-626 | A missing file, and a file whose every line is skipped, load as the catch-all rule alone. A successful load yields at least one rule, each storable when the file is as `File.ReadAllLines` returns it. The load fails exactly when some line has a bad number. |
| RuleFile.LoadFormatRuleList | Assets/PlatformTextureSetting/Editor/Inner/TextureImportSettingBase.cs:628-654 | The same for the format rule file and its catch-all rule. |
| RuleFile.SizeRuleLineRoundTrip | Assets/PlatformTextureSetting/Editor/Inner/TextureImportSettingBase.cs:612-618 | A storable size rule is read back from its line unchanged. |
| RuleFile.FormatRuleLineRoundTrip | Assets/PlatformTextureSetting/Editor/Inner/TextureImportSettingBase.cs:638-644 | A storable format rule is read back from its line unchanged. The empty field after the trailing tab is ignored. |
| RuleFile.SizeRuleListRoundTrip | Assets/PlatformTextureSetting/Editor/Inner/TextureImportSettingBase.cs:601-678 | Saving a non-empty list of storable size rules writes lines without line breaks, and loading them again gives the same list. |
| RuleFile.FormatRuleListRoundTrip | Assets/PlatformTextureSetting/Editor/Inner/TextureImportSettingBase.cs:628-702 | Saving a non-empty list of storable format rules writes lines without line breaks, and loading them again gives the same list. |
| RuleFile.LoadedSizeRulesAreStable | Assets/PlatformTextureSetting/Editor/Inner/TextureImportSettingBase.cs:601-678 | Whatever loads successfully from a file read by `File.ReadAllLines` is saved and reloaded unchanged. |
| RuleFile.LoadedFormatRulesAreStable | Assets/PlatformTextureSetting/Editor/Inner/TextureImportSettingBase.cs:628-702 | Whatever loads successfully from a file read by `File.ReadAllLines` is saved and reloaded unchanged. |
| RuleFile.EmptyListsReloadAsDefault | Assets/PlatformTextureSetting/Editor/Inner/TextureImportSettingBase.cs:680-702 | An empty list saves as a file that reloads as the catch-all rule, and so does a file holding only "no_rule". |
| RuleFile.ShortLinesAreSkipped | Assets/PlatformTextureSetting/Editor/Inner/TextureImportSettingBase.cs:613-616 | Inserting a line with fewer than three fields anywhere leaves the load unchanged. |
| RuleFile.FailureKeepsEarlierRules | Assets/PlatformTextureSetting/Editor/Inner/TextureImportSettingBase.cs:609-620 | A failed load keeps exactly the rules of the lines before the offending line. |
| Png.IsPngData | Assets/PlatformTextureSetting/Editor/Inner/TextureImportSettingBase.cs:834-849 | True exactly when the data is present, at least 8 bytes long, and starts with the PNG signature. |
| Png.ReadInt32BigEndian | Assets/PlatformTextureSetting/Editor/Inner/TextureImportSettingBase.cs:859-868 | The four bytes are read big-endian into an `int`. The value is the unsigned one when the top bit is clear, and that minus 2^32 (so negative) when it is set. |
| Png.GetPngSize | Assets/PlatformTextureSetting/Editor/Inner/TextureImportSettingBase.cs:851-869 | Null data or data under 33 bytes gives (0, 0). Otherwise the result is the width and height fields at offsets 16 and 20. |
| Png.GetPngSizeReadsHeader | Assets/PlatformTextureSetting/Editor/Inner/TextureImportSettingBase.cs:851-869 | For any header written with dimensions below 2^31, the dimensions read back are the ones written. |
| Png.TopBitGivesNegativeWidth | Assets/PlatformTextureSetting/Editor/Inner/TextureImportSettingBase.cs:860-863 | A width field with its top bit set reads as a negative width. |
| Png.GetNearMaxSize | Assets/PlatformTextureSetting/Editor/Inner/TextureImportSettingBase.cs:817-832 | For a longer side m up to 2048 the result is the power of two 2^i, 1 ≤ i ≤ 11, with 2^(i-1) < m ≤ 2^i (2 for every m up to 2), that is, the smallest power from 2 to 2048 that is at least m. For a longer side over 2048 it is 4096. |
| Png.CoveringPowerIsUnique | Assets/PlatformTextureSetting/Editor/Inner/TextureImportSettingBase.cs:817-832 | Only one exponent covers a given side. |
| Png.CoveringPowerIsMonotone | Assets/PlatformTextureSetting/Editor/Inner/TextureImportSettingBase.cs:817-832 | A longer side is covered by a power at least as large. |
| Png.NearMaxSizeIsUnique | Assets/PlatformTextureSetting/Editor/Inner/TextureImportSettingBase.cs:817-832 | The longer side determines the picked size. |
| Png.NearMaxSizeIsMonotone | Assets/PlatformTextureSetting/Editor/Inner/TextureImportSettingBase.cs:817-832 | A larger image never gets a smaller default maximum size. |
| Png.NearMaxSizeExamples | Assets/PlatformTextureSetting/Editor/Inner/TextureImportSettingBase.cs:817-832 | 800×600 gives 1024, 2048×10 gives 2048, and 5000×5000 is capped at 4096. |
| Png.ValidateDefaultTextureMaxSize | Assets/PlatformTextureSetting/Editor/Inner/TextureImportSettingBase.cs:777-814 | Nothing happens without a texture importer, and a file without the PNG signature is only reported. Otherwise the default maximum size is set to the size picked from the header exactly when it differs. |
| Png.TruncatedPngGetsSmallestSize | Assets/PlatformTextureSetting/Editor/Inner/TextureImportSettingBase.cs:853-858 | A file with the signature but shorter than 33 bytes is measured as 0 by 0, so it is given the smallest size, 2. |
| Platforms.TargetPlatformAsWritten | Assets/PlatformTextureSetting/Editor/Platforms/TextureImportSettingiOS.cs:15-18 | As the four windows override `targetPlatform` (iOS and Nintendo 3DS "Nintendo 3DS", Android "Android", WebGL "WebGL"): exactly the iOS and Nintendo 3DS windows name the Nintendo 3DS platform, and none names "iPhone". |
| Platforms.IosWindowTargetsN3ds | Assets/PlatformTextureSetting/Editor/Platforms/TextureImportSettingiOS.cs:15-18 | As written, the iOS window edits the Nintendo 3DS settings and shares the Nintendo 3DS rule files. |
| Platforms.TargetPlatform | Assets/PlatformTextureSetting/Editor/Platforms/TextureImportSettingiOS.cs:15-18 | The iOS window names "iPhone" and every other window keeps its name. The iOS name differs from the Nintendo 3DS one. |
| Platforms.WindowsKeepApart | Assets/PlatformTextureSetting/Editor/Inner/TextureImportSettingBase.cs:142-164 | With the corrected names, no two windows share a platform name or any rule file. |
| Platforms.RuleFiles | Assets/PlatformTextureSetting/Editor/Inner/TextureImportSettingBase.cs:142-164 | A window's rule files sit in the data directory, named after its platform with "Size.txt" and "Format.txt" appended, and are two different files. |

## Left out

- The editor GUI is left out: window layout, buttons, progress bars, the language table (`LanguageData`), and `GetAllowFormatList` with the format popup it feeds. It is presentation only.
- The asset database, `AssetImporter.GetAtPath`, `SaveAndReimport` and `SetDirty` are left out because they belong to the engine. The model takes their results as parameters and returns the calls it would make.
- File I/O is left out: `File.Exists`, `File.ReadAllBytes`, and the line splitting of `ReadAllLines` / `WriteAllLines`. A file is its list of lines. What splitting at line breaks means for the model is stated instead: `RuleFile.IsReadable` says no line read holds a line break, and the round trips hold only for wildcards without one.
- `Path.Combine` with the current directory is left out. Rule file paths are kept relative to the project directory.
- Glob.GlobMatches: case folding is ASCII only. The ignore-case comparison of .NET under the current culture is not modelled; it can differ even on ASCII letters, as with the Turkish dotted and dotless i against 'I'.
- Glob.GlobMatches: a path is a sequence of Unicode characters, while a C# string is a sequence of UTF-16 code units. A character outside the Basic Multilingual Plane is two code units in .NET, so there `?` (which takes two code units) accepts one such character, and `*` and the `[^/]` test see its two halves. The model treats it as one character, so for example it rejects the path "\U{1F600}" for the wildcard `?`, which .NET accepts.
- Apply.PlanAsset: what the engine stores as quality when the three-argument `SetPlatformTextureSettings` is called is not modelled. Neither is what it does with `allowsAlphaSplit`. `Apply.Honours` leaves both open, and no lemma depends on them.
- Apply.GetTextureSizeFromRule: the importer's default size is an unbounded integer. The single overflowing case of C# `/`, `int.MinValue / -1`, which throws, is not modelled.
- Resolution.GetSizeRule: a null size rule list, on which the C# loop throws, is not modelled. The loaded list is never null.
- Rules.Swap: the null-list guard of the swap methods is not modelled. The lists are never null when the buttons are drawn.
- Text.ParseInt: only the invariant culture is modelled. Trailing NUL characters, which `Int32.Parse` also accepts, are left out.
- The menu items (`ShowWindow`) of the platform windows are left out because they are GUI hooks.

## Findings

| source | as written | input that shows it | evidently intended | confidence | as-written member | corrected member |
|---|---|---|---|---|---|---|
| Assets/PlatformTextureSetting/Editor/Platforms/TextureImportSettingiOS.cs:17 | The iOS window's `targetPlatform` returns "Nintendo 3DS". | Opening the iOS window and applying rules changes every texture's Nintendo 3DS settings, and reads and writes the Nintendo 3DS rule files. | The engine's iOS platform name, "iPhone", with rule files of its own. | high (not executed) | Platforms.TargetPlatformAsWritten, Platforms.IosWindowTargetsN3ds | Platforms.TargetPlatform, Platforms.WindowsKeepApart |
