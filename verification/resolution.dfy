/** First-match rule resolution (`GetSizeRule`, `GetFormatRule`): the rules
    are tried in list order and the first whose wildcard matches the asset
    path decides. */
module Resolution {
  import opened Wrappers
  import opened Glob
  import opened Formats
  import opened Rules

  predicate SizeRuleMatches(path: string, rule: SizeRule)
  {
    GlobMatches(rule.pathMatch, path)
  }

  /** `GetSizeRule`: the first size rule whose wildcard matches the path, or
      none when no rule matches. */
  function GetSizeRule(path: string, rules: seq<SizeRule>): (r: Option<SizeRule>)
    ensures r.None? <==> forall i | 0 <= i < |rules| :: !SizeRuleMatches(path, rules[i])
    ensures r.Some? ==> exists i | 0 <= i < |rules| ::
      && rules[i] == r.value
      && SizeRuleMatches(path, rules[i])
      && forall j | 0 <= j < i :: !SizeRuleMatches(path, rules[j])
  {
    if |rules| == 0 then None
    else if SizeRuleMatches(path, rules[0]) then Some(rules[0])
    else
      var r := GetSizeRule(path, rules[1..]);
      assert r.Some? ==> exists i | 0 <= i < |rules| ::
        && rules[i] == r.value
        && SizeRuleMatches(path, rules[i])
        && forall j | 0 <= j < i :: !SizeRuleMatches(path, rules[j])
      by {
        if r.Some? {
          var k :| 0 <= k < |rules[1..]| && rules[1..][k] == r.value && SizeRuleMatches(path, rules[1..][k])
            && forall j | 0 <= j < k :: !SizeRuleMatches(path, rules[1..][j]);
          forall j | 0 <= j < k + 1 ensures !SizeRuleMatches(path, rules[j]) {
            if j > 0 {
              assert rules[j] == rules[1..][j - 1];
            }
          }
          assert rules[k + 1] == rules[1..][k];
        }
      }
      assert r.None? ==> forall i | 0 <= i < |rules| :: !SizeRuleMatches(path, rules[i]) by {
        if r.None? {
          forall i | 0 <= i < |rules| ensures !SizeRuleMatches(path, rules[i]) {
            if i > 0 {
              assert rules[i] == rules[1..][i - 1];
            }
          }
        }
      }
      r
  }

  /** A format rule entry that is present and whose wildcard matches. */
  predicate FormatEntryMatches(path: string, entry: Option<FormatRule>)
  {
    entry.Some? && GlobMatches(entry.value.pathMatch, path)
  }

  /** The loop of `GetFormatRule`: null entries are skipped, and the first
      entry whose wildcard matches is returned. */
  function FirstFormatRule(path: string, list: seq<Option<FormatRule>>): (r: Option<FormatRule>)
    ensures r.None? <==> forall i | 0 <= i < |list| :: !FormatEntryMatches(path, list[i])
    ensures r.Some? ==> exists i | 0 <= i < |list| ::
      && list[i] == Some(r.value)
      && FormatEntryMatches(path, list[i])
      && forall j | 0 <= j < i :: !FormatEntryMatches(path, list[j])
  {
    if |list| == 0 then None
    else if FormatEntryMatches(path, list[0]) then list[0]
    else
      var r := FirstFormatRule(path, list[1..]);
      assert r.Some? ==> exists i | 0 <= i < |list| ::
        && list[i] == Some(r.value)
        && FormatEntryMatches(path, list[i])
        && forall j | 0 <= j < i :: !FormatEntryMatches(path, list[j])
      by {
        if r.Some? {
          var k :| 0 <= k < |list[1..]| && list[1..][k] == Some(r.value) && FormatEntryMatches(path, list[1..][k])
            && forall j | 0 <= j < k :: !FormatEntryMatches(path, list[1..][j]);
          forall j | 0 <= j < k + 1 ensures !FormatEntryMatches(path, list[j]) {
            if j > 0 {
              assert list[j] == list[1..][j - 1];
            }
          }
          assert list[k + 1] == list[1..][k];
        }
      }
      assert r.None? ==> forall i | 0 <= i < |list| :: !FormatEntryMatches(path, list[i]) by {
        if r.None? {
          forall i | 0 <= i < |list| ensures !FormatEntryMatches(path, list[i]) {
            if i > 0 {
              assert list[i] == list[1..][i - 1];
            }
          }
        }
      }
      r
  }

  /** `GetFormatRule`: none when the list itself is null; otherwise the first
      non-null format rule whose wildcard matches the path, or none when no
      rule matches. */
  function GetFormatRule(path: string, rules: Option<seq<Option<FormatRule>>>): (r: Option<FormatRule>)
    ensures rules.None? ==> r.None?
    ensures rules.Some? ==>
      (r.None? <==> forall i | 0 <= i < |rules.value| :: !FormatEntryMatches(path, rules.value[i]))
    ensures r.Some? ==> rules.Some? && exists i | 0 <= i < |rules.value| ::
      && rules.value[i] == Some(r.value)
      && FormatEntryMatches(path, rules.value[i])
      && forall j | 0 <= j < i :: !FormatEntryMatches(path, rules.value[j])
  {
    match rules
    case None => None
    case Some(list) => FirstFormatRule(path, list)
  }

  /** The loaded format rules as the list `GetFormatRule` scans: present, and
      with no null entries. */
  function Present(rules: seq<FormatRule>): (r: Option<seq<Option<FormatRule>>>)
    ensures r.Some? && |r.value| == |rules|
    ensures forall i | 0 <= i < |rules| :: r.value[i] == Some(rules[i])
  {
    Some(seq(|rules|, i requires 0 <= i < |rules| => Some(rules[i])))
  }

  // ---------------------------------------------------------------------------
  // Properties of first-match resolution

  /** Once a path is resolved by a list, rules appended after it never change
      the outcome; when the list resolves nothing, the appended rules alone
      decide. */
  lemma {:induction false} ResolutionOfAppendedRules(path: string, rules: seq<SizeRule>, more: seq<SizeRule>)
    ensures GetSizeRule(path, rules).Some? ==> GetSizeRule(path, rules + more) == GetSizeRule(path, rules)
    ensures GetSizeRule(path, rules).None? ==> GetSizeRule(path, rules + more) == GetSizeRule(path, more)
  {
    if |rules| == 0 {
      assert rules + more == more;
    } else {
      assert (rules + more)[0] == rules[0];
      assert (rules + more)[1..] == rules[1..] + more;
      ResolutionOfAppendedRules(path, rules[1..], more);
    }
  }

  /** With the list that stands in for an empty size rule file, every path
      resolves to that one catch-all rule. */
  lemma DefaultSizeRuleResolvesEveryPath(path: string)
    ensures GetSizeRule(path, [DefaultSizeRule]) == Some(DefaultSizeRule)
  {
    CatchAllMatchesEveryPath(path);
    assert SizeRuleMatches(path, [DefaultSizeRule][0]);
  }

  /** Likewise for the stand-in format rule list. */
  lemma DefaultFormatRuleResolvesEveryPath(path: string)
    ensures GetFormatRule(path, Present([DefaultFormatRule])) == Some(DefaultFormatRule)
  {
    CatchAllMatchesEveryPath(path);
    assert FormatEntryMatches(path, Present([DefaultFormatRule]).value[0]);
  }

  /** A user-interface rule placed before a catch-all: icons under
      "Assets/UI/" take the first rule, everything else falls through to the
      catch-all. */
  lemma FirstMatchWinsExample(ui: SizeRule, rest: SizeRule)
    requires ui.pathMatch == "Assets/UI/**" && rest.pathMatch == "**"
    ensures GetSizeRule("Assets/UI/icon.png", [ui, rest]) == Some(ui)
    ensures GetSizeRule("Assets/Env/rock.png", [ui, rest]) == Some(rest)
  {
    UiWildcardExample();
    CatchAllMatchesEveryPath("Assets/Env/rock.png");
    assert SizeRuleMatches("Assets/UI/icon.png", [ui, rest][0]);
    assert !SizeRuleMatches("Assets/Env/rock.png", [ui, rest][0]);
    assert SizeRuleMatches("Assets/Env/rock.png", [ui, rest][1]);
  }

  lemma UiWildcardExample()
    ensures GlobMatches("Assets/UI/**", "Assets/UI/icon.png")
    ensures !GlobMatches("Assets/UI/**", "Assets/Env/rock.png")
  {
    TokenizeUiWildcard();
    UiWildcardHit();
    UiWildcardMiss();
  }

  lemma TokenizeUiWildcard()
    ensures Tokenize("Assets/UI/**") == Lits("Assets/UI/") + [DoubleStar]
  {
    assert "Assets/UI/**" == "Assets/UI/" + "**";
    TokenizeLiteralPrefix("Assets/UI/", "**");
    TokenizeDoubleStar();
  }

  lemma UiWildcardHit()
    ensures MatchTokens(Lits("Assets/UI/") + [DoubleStar], "Assets/UI/icon.png")
  {
    var hit := "Assets/UI/icon.png";
    PrefixOfItself("Assets/UI/", hit);
    MatchLiteralPrefix("Assets/UI/", [DoubleStar], hit);
    DoubleStarMatchesAll(hit[10..]);
  }

  lemma UiWildcardMiss()
    ensures !MatchTokens(Lits("Assets/UI/") + [DoubleStar], "Assets/Env/rock.png")
  {
    var miss := "Assets/Env/rock.png";
    assert !SameIgnoringCase("Assets/UI/"[7], miss[7]);
    MatchLiteralPrefix("Assets/UI/", [DoubleStar], miss);
  }
}
