/** The platform windows: each overrides `targetPlatform`, the platform name
    passed to the importer's per-platform settings, and the rule files are
    named after it (`RuleFileBasePath`, `SizeRuleFilePath`,
    `FormatRuleFilePath`, relative to the project directory). */
module Platforms {

  datatype Window = IosWindow | N3dsWindow | AndroidWindow | WebGLWindow

  /** `targetPlatform` as the four windows override it: the iOS window
      returns the Nintendo 3DS platform name, so two windows name that
      platform and none names the engine's iOS platform. */
  function TargetPlatformAsWritten(w: Window): (name: string)
    ensures name == "Nintendo 3DS" <==> w == IosWindow || w == N3dsWindow
    ensures name != "iPhone"
  {
    match w
    case IosWindow => "Nintendo 3DS"
    case N3dsWindow => "Nintendo 3DS"
    case AndroidWindow => "Android"
    case WebGLWindow => "WebGL"
  }

  /** `targetPlatform` with the iOS window naming the engine's iOS platform,
      "iPhone"; the other windows are unchanged. */
  function TargetPlatform(w: Window): (name: string)
    ensures w != IosWindow ==> name == TargetPlatformAsWritten(w)
    ensures w == IosWindow ==> name != TargetPlatformAsWritten(N3dsWindow)
  {
    match w
    case IosWindow => "iPhone"
    case _ => TargetPlatformAsWritten(w)
  }

  const DataDirectory := "Assets/PlatformTextureSetting/Editor/Data/"

  function SizeRuleFilePath(platform: string): string
  {
    DataDirectory + platform + "Size.txt"
  }

  function FormatRuleFilePath(platform: string): string
  {
    DataDirectory + platform + "Format.txt"
  }

  /** The two rule files a window loads and saves: both in the data
      directory, named after the window's platform, ending in "Size.txt" and
      "Format.txt". */
  function RuleFiles(w: Window): (files: (string, string))
    ensures files.0 == DataDirectory + TargetPlatform(w) + "Size.txt"
    ensures files.1 == DataDirectory + TargetPlatform(w) + "Format.txt"
    ensures files.0 != files.1
  {
    assert |SizeRuleFilePath(TargetPlatform(w))| + 2 == |FormatRuleFilePath(TargetPlatform(w))|;
    (SizeRuleFilePath(TargetPlatform(w)), FormatRuleFilePath(TargetPlatform(w)))
  }

  /** As written, the iOS window edits the Nintendo 3DS settings of every
      texture and shares the Nintendo 3DS window's rule files. */
  lemma IosWindowTargetsN3ds()
    ensures TargetPlatformAsWritten(IosWindow) == TargetPlatformAsWritten(N3dsWindow)
    ensures SizeRuleFilePath(TargetPlatformAsWritten(IosWindow)) == SizeRuleFilePath(TargetPlatformAsWritten(N3dsWindow))
    ensures FormatRuleFilePath(TargetPlatformAsWritten(IosWindow)) == FormatRuleFilePath(TargetPlatformAsWritten(N3dsWindow))
  {
  }

  /** With the iOS platform name, no two windows share a platform, and no
      two rule files coincide. */
  lemma WindowsKeepApart(w1: Window, w2: Window)
    requires w1 != w2
    ensures TargetPlatform(w1) != TargetPlatform(w2)
    ensures RuleFiles(w1).0 != RuleFiles(w2).0
    ensures RuleFiles(w1).1 != RuleFiles(w2).1
    ensures RuleFiles(w1).0 != RuleFiles(w2).1
  {
    var p1, p2 := TargetPlatform(w1), TargetPlatform(w2);
    var d := |DataDirectory|;
    assert |p1| != |p2|;
    assert |RuleFiles(w1).0| == d + |p1| + 8;
    assert |RuleFiles(w2).0| == d + |p2| + 8;
    assert |RuleFiles(w2).1| == d + |p2| + 10;
    assert RuleFiles(w1).0[d] == p1[0];
    assert RuleFiles(w2).1[d] == p2[0];
  }
}
