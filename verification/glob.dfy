/** The restricted wildcard syntax of rule patterns and the anchored,
    case-insensitive match of a whole asset path against it.

    `GlobToRegex` escapes the wildcard, then rewrites `**` to `(.*)`, the
    remaining `*` to `([^/]*)` and `?` to `([^/].)`, and anchors the result
    with `^...$`. The model reads a wildcard as a list of tokens in the same
    order of rewriting and matches paths against the tokens directly. */
module Glob {

  /** One unit of a wildcard after the rewriting: a literal character, `*`,
      `**` or `?`. */
  datatype Token = Lit(c: char) | Star | DoubleStar | Question

  /** ASCII case folding: 'A'..'Z' become 'a'..'z', every other character is
      left as it is. */
  function Fold(c: char): char
  {
    if 'A' <= c <= 'Z' then (c as int - 'A' as int + 'a' as int) as char else c
  }

  predicate SameIgnoringCase(a: char, b: char)
  {
    Fold(a) == Fold(b)
  }

  function FoldAll(s: string): (r: string)
    ensures |r| == |s|
    ensures forall i | 0 <= i < |s| :: r[i] == Fold(s[i])
  {
    if |s| == 0 then [] else [Fold(s[0])] + FoldAll(s[1..])
  }

  // ---------------------------------------------------------------------------
  // From wildcard text to tokens

  /** A token list that the rewriting can produce: no literal `*` or `?`
      (both are always rewritten), and no `*` directly followed by another
      star token (two adjacent stars are always read as `**`). */
  ghost predicate Canonical(t: seq<Token>)
  {
    && (forall i | 0 <= i < |t| :: t[i] != Lit('*') && t[i] != Lit('?'))
    && (forall i | 0 <= i < |t| - 1 :: t[i].Star? ==> !t[i + 1].Star? && !t[i + 1].DoubleStar?)
  }

  /** Splits a wildcard into tokens, reading `**` before `*` from left to
      right, as the chain of replacements in `GlobToRegex` does. */
  function Tokenize(w: string): (t: seq<Token>)
    ensures |w| > 0 <==> |t| > 0
    ensures |t| > 0 ==> ((t[0].Star? || t[0].DoubleStar?) <==> w[0] == '*')
    ensures Canonical(t)
    decreases |w|
  {
    if |w| == 0 then []
    else if |w| >= 2 && w[0] == '*' && w[1] == '*' then [DoubleStar] + Tokenize(w[2..])
    else if w[0] == '*' then [Star] + Tokenize(w[1..])
    else if w[0] == '?' then [Question] + Tokenize(w[1..])
    else [Lit(w[0])] + Tokenize(w[1..])
  }

  function RenderToken(t: Token): (w: string)
    ensures |w| >= 1
  {
    match t
    case Lit(c) => [c]
    case Star => "*"
    case DoubleStar => "**"
    case Question => "?"
  }

  /** Writes tokens back as wildcard text. */
  function Render(t: seq<Token>): (w: string)
    ensures |t| > 0 ==> |w| > 0 && w[0] == RenderToken(t[0])[0]
  {
    if |t| == 0 then [] else RenderToken(t[0]) + Render(t[1..])
  }

  /** Tokenizing loses nothing: the wildcard text can be rebuilt from its
      tokens. */
  lemma {:induction false} RenderTokenize(w: string)
    ensures Render(Tokenize(w)) == w
    decreases |w|
  {
    if |w| == 0 {
    } else if |w| >= 2 && w[0] == '*' && w[1] == '*' {
      RenderTokenize(w[2..]);
      RenderDoubleStarStep(w);
    } else {
      RenderTokenize(w[1..]);
      RenderSingleStep(w);
    }
  }

  /** A leading `**` is rebuilt in front of the rest of the text. */
  lemma RenderDoubleStarStep(w: string)
    requires |w| >= 2 && w[0] == '*' && w[1] == '*'
    requires Render(Tokenize(w[2..])) == w[2..]
    ensures Render(Tokenize(w)) == w
  {
    RenderCons(DoubleStar, Tokenize(w[2..]));
    assert w == "**" + w[2..];
  }

  /** Any other leading character is rebuilt in front of the rest. */
  lemma RenderSingleStep(w: string)
    requires |w| >= 1 && !(|w| >= 2 && w[0] == '*' && w[1] == '*')
    requires Render(Tokenize(w[1..])) == w[1..]
    ensures Render(Tokenize(w)) == w
  {
    var x := if w[0] == '*' then Star else if w[0] == '?' then Question else Lit(w[0]);
    assert Tokenize(w) == [x] + Tokenize(w[1..]);
    assert RenderToken(x) == [w[0]];
    RenderCons(x, Tokenize(w[1..]));
    assert w == [w[0]] + w[1..];
  }

  lemma RenderCons(x: Token, rest: seq<Token>)
    ensures Render([x] + rest) == RenderToken(x) + Render(rest)
  {
    assert ([x] + rest)[1..] == rest;
  }

  /** Every canonical token list is the reading of exactly one wildcard text:
      `Tokenize` is a bijection between strings and canonical token lists. */
  lemma {:induction false} TokenizeRender(t: seq<Token>)
    requires Canonical(t)
    ensures Tokenize(Render(t)) == t
    decreases |t|
  {
    if |t| > 0 {
      var rest := t[1..];
      assert Canonical(rest) by {
        forall i | 0 <= i < |rest| ensures rest[i] != Lit('*') && rest[i] != Lit('?') {
          assert rest[i] == t[i + 1];
        }
        forall i | 0 <= i < |rest| - 1 ensures rest[i].Star? ==> !rest[i + 1].Star? && !rest[i + 1].DoubleStar? {
          assert rest[i] == t[i + 1] && rest[i + 1] == t[i + 2];
        }
      }
      TokenizeRender(rest);
      var w := Render(t);
      assert w == RenderToken(t[0]) + Render(rest);
      match t[0]
      case Lit(c) =>
        assert t[0] != Lit('*') && t[0] != Lit('?');
        assert w[1..] == Render(rest);
      case Star =>
        assert |rest| > 0 ==> !rest[0].Star? && !rest[0].DoubleStar?;
        assert w[1..] == Render(rest);
      case DoubleStar =>
        assert w[2..] == Render(rest);
      case Question =>
        assert w[1..] == Render(rest);
    }
  }

  // ---------------------------------------------------------------------------
  // Matching

  /** The anchored match of the whole of `s` against the tokens, the way the
      backtracking regular expression explores it: a literal compares one
      character ignoring ASCII case, `?` takes two characters of which the
      first is not '/', `*` takes any run of characters other than '/', `**`
      takes any run of characters. A match takes at least the characters
      the literals and question marks need, and `**` alone takes any
      path. */
  predicate MatchTokens(t: seq<Token>, s: string): (b: bool)
    ensures b ==> |s| >= FixedLength(t)
    ensures t == [DoubleStar] ==> b
    decreases |t| + |s|
  {
    if |t| == 0 then |s| == 0
    else
      match t[0]
      case Lit(c) => |s| > 0 && SameIgnoringCase(c, s[0]) && MatchTokens(t[1..], s[1..])
      case Question => |s| >= 2 && s[0] != '/' && MatchTokens(t[1..], s[2..])
      case Star => MatchTokens(t[1..], s) || (|s| > 0 && s[0] != '/' && MatchTokens(t, s[1..]))
      case DoubleStar => MatchTokens(t[1..], s) || (|s| > 0 && MatchTokens(t, s[1..]))
  }

  /** The characters the tokens take whatever the stars take: one per
      literal and two per `?`. */
  function FixedLength(t: seq<Token>): nat
  {
    if |t| == 0 then 0
    else (match t[0] case Lit(_) => 1 case Question => 2 case _ => 0) + FixedLength(t[1..])
  }

  /** What one token accepts as its share of the path. */
  ghost predicate TokenAccepts(t: Token, seg: string)
  {
    match t
    case Lit(c) => |seg| == 1 && SameIgnoringCase(c, seg[0])
    case Question => |seg| == 2 && seg[0] != '/'
    case Star => forall i | 0 <= i < |seg| :: seg[i] != '/'
    case DoubleStar => true
  }

  /** Reference reading of a match: the path can be cut into consecutive
      pieces, one per token, each accepted by its token. */
  ghost predicate Segmented(t: seq<Token>, s: string)
    decreases |t|
  {
    if |t| == 0 then |s| == 0
    else exists k :: 0 <= k <= |s| && TokenAccepts(t[0], s[..k]) && Segmented(t[1..], s[k..])
  }

  lemma {:induction false} MatchImpliesSegmented(t: seq<Token>, s: string)
    requires MatchTokens(t, s)
    ensures Segmented(t, s)
    decreases |t| + |s|
  {
    if |t| > 0 {
      if t[0].Lit? {
        MatchImpliesSegmented(t[1..], s[1..]);
        assert TokenAccepts(t[0], s[..1]) && Segmented(t[1..], s[1..]);
      } else if t[0].Question? {
        MatchImpliesSegmented(t[1..], s[2..]);
        assert TokenAccepts(t[0], s[..2]) && Segmented(t[1..], s[2..]);
      } else if MatchTokens(t[1..], s) {
        MatchImpliesSegmented(t[1..], s);
        RunTakesNothing(t, s);
      } else {
        MatchImpliesSegmented(t, s[1..]);
        RunTakesOneMore(t, s);
      }
    }
  }

  /** A run token (`*` or `**`) may take an empty share of the path. */
  lemma RunTakesNothing(t: seq<Token>, s: string)
    requires |t| > 0 && (t[0].Star? || t[0].DoubleStar?)
    requires Segmented(t[1..], s)
    ensures Segmented(t, s)
  {
    assert s[0..] == s;
    assert TokenAccepts(t[0], s[..0]) && Segmented(t[1..], s[0..]);
  }

  /** A run token whose share of the rest of the path is segmented can also
      take the first character, unless it is a '/' under `*`. */
  lemma RunTakesOneMore(t: seq<Token>, s: string)
    requires |t| > 0 && (t[0].Star? || t[0].DoubleStar?)
    requires |s| > 0 && (t[0].Star? ==> s[0] != '/')
    requires Segmented(t, s[1..])
    ensures Segmented(t, s)
  {
    var k :| 0 <= k <= |s[1..]| && TokenAccepts(t[0], s[1..][..k]) && Segmented(t[1..], s[1..][k..]);
    assert s[k + 1..] == s[1..][k..];
    if t[0].Star? {
      var run, rest := s[..k + 1], s[1..][..k];
      forall i | 0 <= i < |run| ensures run[i] != '/' {
        if i > 0 {
          assert run[i] == rest[i - 1];
        }
      }
    }
    assert TokenAccepts(t[0], s[..k + 1]) && Segmented(t[1..], s[k + 1..]);
  }

  /** One step of a run token (`*` or `**`) that took at least one
      character: the rest of the path is still segmented by the same tokens. */
  lemma RunTokenStep(t: seq<Token>, s: string, k: nat)
    requires |t| > 0 && (t[0].Star? || t[0].DoubleStar?)
    requires 0 < k <= |s|
    requires TokenAccepts(t[0], s[..k]) && Segmented(t[1..], s[k..])
    ensures t[0].Star? ==> s[0] != '/'
    ensures Segmented(t, s[1..])
  {
    assert s[0] == s[..k][0];
    if t[0].Star? {
      forall j | 1 <= j < k ensures s[j] != '/' {
        assert s[j] == s[..k][j];
      }
    }
    assert s[1..][k - 1..] == s[k..];
    assert TokenAccepts(t[0], s[1..][..k - 1]) && Segmented(t[1..], s[1..][k - 1..]);
  }

  lemma {:induction false} SegmentedImpliesMatch(t: seq<Token>, s: string)
    requires Segmented(t, s)
    ensures MatchTokens(t, s)
    decreases |t| + |s|
  {
    if |t| > 0 {
      var k :| 0 <= k <= |s| && TokenAccepts(t[0], s[..k]) && Segmented(t[1..], s[k..]);
      if t[0].Lit? || t[0].Question? {
        SegmentedImpliesMatch(t[1..], s[k..]);
      } else if k == 0 {
        assert s[k..] == s;
        SegmentedImpliesMatch(t[1..], s);
      } else {
        RunTokenStep(t, s, k);
        SegmentedImpliesMatch(t, s[1..]);
      }
    }
  }

  /** The matcher accepts a path exactly when the path splits into pieces the
      tokens accept one by one, from the first character to the last. */
  lemma MatchTokensIffSegmented(t: seq<Token>, s: string)
    ensures MatchTokens(t, s) <==> Segmented(t, s)
  {
    if MatchTokens(t, s) {
      MatchImpliesSegmented(t, s);
    }
    if Segmented(t, s) {
      SegmentedImpliesMatch(t, s);
    }
  }

  /** `GlobToRegex(w).IsMatch(path)`: the path is consumed from start to end.
      The regular expression's `$` (without the multi-line option) also
      matches just before a final line feed, so a path that ends in one
      line feed matches when the rest of it does. */
  predicate GlobMatches(wildcard: string, path: string): (b: bool)
    ensures b <==>
      || Segmented(Tokenize(wildcard), path)
      || (|path| > 0 && path[|path| - 1] == '\n' && Segmented(Tokenize(wildcard), path[..|path| - 1]))
  {
    var t := Tokenize(wildcard);
    MatchTokensIffSegmented(t, path);
    MatchTokensIffSegmented(t, if |path| > 0 then path[..|path| - 1] else path);
    || MatchTokens(t, path)
    || (|path| > 0 && path[|path| - 1] == '\n' && MatchTokens(t, path[..|path| - 1]))
  }

  // ---------------------------------------------------------------------------
  // Properties of matching

  /** For a path that does not end in a line feed, a glob match is a match of
      the whole path against the tokens. */
  lemma GlobMatchesWholePath(wildcard: string, path: string)
    requires |path| == 0 || path[|path| - 1] != '\n'
    ensures GlobMatches(wildcard, path) <==> Segmented(Tokenize(wildcard), path)
  {
    MatchTokensIffSegmented(Tokenize(wildcard), path);
  }

  lemma {:induction false} DoubleStarMatchesAll(s: string)
    ensures MatchTokens([DoubleStar], s)
    decreases |s|
  {
    if |s| == 0 {
      assert MatchTokens([DoubleStar][1..], s);
    } else {
      DoubleStarMatchesAll(s[1..]);
    }
  }

  /** The catch-all wildcard `**` matches every path. */
  lemma TokenizeDoubleStar()
    ensures Tokenize("**") == [DoubleStar]
  {
    assert Tokenize("**"[2..]) == [];
  }

  lemma CatchAllMatchesEveryPath(path: string)
    ensures GlobMatches("**", path)
  {
    TokenizeDoubleStar();
    DoubleStarMatchesAll(path);
  }

  function Slashes(s: string): nat
  {
    if |s| == 0 then 0 else (if s[0] == '/' then 1 else 0) + Slashes(s[1..])
  }

  function LiteralSlashes(t: seq<Token>): nat
  {
    if |t| == 0 then 0 else (if t[0] == Lit('/') then 1 else 0) + LiteralSlashes(t[1..])
  }

  predicate NoCrossingTokens(t: seq<Token>)
  {
    forall i | 0 <= i < |t| :: !t[i].DoubleStar? && !t[i].Question?
  }

  lemma FoldedSlash(c: char)
    ensures Fold(c) == '/' <==> c == '/'
  {
  }

  /** `*` never spans a directory separator: a pattern without `**` and `?`
      matches only paths with exactly as many '/' as the pattern has. */
  lemma {:induction false} StarStaysInDirectory(t: seq<Token>, s: string)
    requires NoCrossingTokens(t)
    requires MatchTokens(t, s)
    ensures Slashes(s) == LiteralSlashes(t)
    decreases |t| + |s|
  {
    if |t| > 0 {
      assert NoCrossingTokens(t[1..]) by {
        forall i | 0 <= i < |t[1..]| ensures !t[1..][i].DoubleStar? && !t[1..][i].Question? {
          assert t[1..][i] == t[i + 1];
        }
      }
      match t[0]
      case Lit(c) =>
        FoldedSlash(c);
        FoldedSlash(s[0]);
        StarStaysInDirectory(t[1..], s[1..]);
      case Star =>
        if MatchTokens(t[1..], s) {
          StarStaysInDirectory(t[1..], s);
        } else {
          StarStaysInDirectory(t, s[1..]);
        }
    }
  }

  /** Matching does not depend on the ASCII case of the path. */
  lemma {:induction false} MatchIgnoresPathCase(t: seq<Token>, s: string)
    ensures MatchTokens(t, s) <==> MatchTokens(t, FoldAll(s))
    decreases |t| + |s|
  {
    var f := FoldAll(s);
    if |t| > 0 && |s| > 0 {
      assert f[1..] == FoldAll(s[1..]);
      FoldedSlash(s[0]);
      match t[0]
      case Lit(c) =>
        MatchIgnoresPathCase(t[1..], s[1..]);
      case Question =>
        if |s| >= 2 {
          assert f[2..] == FoldAll(s[2..]);
          MatchIgnoresPathCase(t[1..], s[2..]);
        }
      case Star =>
        MatchIgnoresPathCase(t[1..], s);
        MatchIgnoresPathCase(t, s[1..]);
      case DoubleStar =>
        MatchIgnoresPathCase(t[1..], s);
        MatchIgnoresPathCase(t, s[1..]);
    } else if |t| > 0 {
      assert f == s;
    }
  }

  // ---------------------------------------------------------------------------
  // Literal prefixes, for reasoning about concrete wildcards

  function Lits(w: string): (t: seq<Token>)
    ensures |t| == |w|
    ensures forall i | 0 <= i < |w| :: t[i] == Lit(w[i])
  {
    if |w| == 0 then [] else [Lit(w[0])] + Lits(w[1..])
  }

  /** A wildcard that starts with plain text reads as literal tokens for that
      text followed by the reading of the rest. */
  lemma {:induction false} TokenizeLiteralPrefix(w: string, rest: string)
    requires forall i | 0 <= i < |w| :: w[i] != '*' && w[i] != '?'
    ensures Tokenize(w + rest) == Lits(w) + Tokenize(rest)
    decreases |w|
  {
    if |w| > 0 {
      assert (w + rest)[1..] == w[1..] + rest;
      TokenizeLiteralPrefix(w[1..], rest);
    } else {
      assert w + rest == rest;
    }
  }

  predicate PrefixIgnoringCase(w: string, s: string)
  {
    |s| >= |w| && forall i | 0 <= i < |w| :: SameIgnoringCase(w[i], s[i])
  }

  lemma PrefixIgnoringCaseStep(w: string, s: string)
    requires |w| > 0
    ensures PrefixIgnoringCase(w, s)
        <==> |s| > 0 && SameIgnoringCase(w[0], s[0]) && PrefixIgnoringCase(w[1..], s[1..])
  {
    if |s| > 0 && SameIgnoringCase(w[0], s[0]) && PrefixIgnoringCase(w[1..], s[1..]) {
      forall i | 0 <= i < |w| ensures SameIgnoringCase(w[i], s[i]) {
        if i > 0 {
          assert SameIgnoringCase(w[1..][i - 1], s[1..][i - 1]);
        }
      }
    }
    if PrefixIgnoringCase(w, s) {
      forall i | 0 <= i < |w| - 1 ensures SameIgnoringCase(w[1..][i], s[1..][i]) {
        assert SameIgnoringCase(w[i + 1], s[i + 1]);
      }
    }
  }

  /** A literal prefix of the tokens consumes the same number of characters,
      compared ignoring ASCII case. */
  lemma {:induction false} MatchLiteralPrefix(w: string, t: seq<Token>, s: string)
    ensures MatchTokens(Lits(w) + t, s)
        <==> PrefixIgnoringCase(w, s) && MatchTokens(t, s[|w|..])
    decreases |w|
  {
    if |w| == 0 {
      assert Lits(w) + t == t;
    } else {
      var p := Lits(w) + t;
      assert p[0] == Lit(w[0]);
      assert p[1..] == Lits(w[1..]) + t;
      PrefixIgnoringCaseStep(w, s);
      if |s| > 0 {
        MatchLiteralPrefix(w[1..], t, s[1..]);
        if |s| >= |w| {
          assert s[1..][|w| - 1..] == s[|w|..];
        }
      }
    }
  }

  lemma {:induction false} SlashesAppend(a: string, b: string)
    ensures Slashes(a + b) == Slashes(a) + Slashes(b)
    decreases |a|
  {
    if |a| > 0 {
      assert (a + b)[1..] == a[1..] + b;
      SlashesAppend(a[1..], b);
    } else {
      assert a + b == b;
    }
  }

  lemma {:induction false} LiteralSlashesAppend(t: seq<Token>, u: seq<Token>)
    ensures LiteralSlashes(t + u) == LiteralSlashes(t) + LiteralSlashes(u)
    decreases |t|
  {
    if |t| > 0 {
      assert (t + u)[1..] == t[1..] + u;
      LiteralSlashesAppend(t[1..], u);
    } else {
      assert t + u == u;
    }
  }

  lemma {:induction false} LiteralSlashesOfText(w: string)
    ensures LiteralSlashes(Lits(w)) == Slashes(w)
    decreases |w|
  {
    if |w| > 0 {
      assert Lits(w)[1..] == Lits(w[1..]);
      LiteralSlashesOfText(w[1..]);
    }
  }

  /** `*` absorbs any run of characters that holds no '/'. */
  lemma {:induction false} StarAbsorbs(t: seq<Token>, run: string, s: string)
    requires forall i | 0 <= i < |run| :: run[i] != '/'
    requires MatchTokens(t, s)
    ensures MatchTokens([Star] + t, run + s)
    decreases |run|
  {
    assert ([Star] + t)[1..] == t;
    if |run| > 0 {
      assert (run + s)[1..] == run[1..] + s;
      StarAbsorbs(t, run[1..], s);
    } else {
      assert run + s == s;
    }
  }

  /** A prefix compared ignoring case holds in particular for equal text. */
  lemma PrefixOfItself(w: string, s: string)
    requires |w| <= |s| && s[..|w|] == w
    ensures PrefixIgnoringCase(w, s)
  {
    forall i | 0 <= i < |w| ensures SameIgnoringCase(w[i], s[i]) {
      assert s[i] == s[..|w|][i];
    }
  }

  // ---------------------------------------------------------------------------
  // Concrete wildcards

  /** Plain text followed by `**` matches every path that starts with that
      text, compared ignoring case. */
  lemma PrefixThenDoubleStar(w: string, path: string)
    requires forall i | 0 <= i < |w| :: w[i] != '*' && w[i] != '?'
    requires PrefixIgnoringCase(w, path)
    ensures GlobMatches(w + "**", path)
  {
    TokenizeLiteralPrefix(w, "**");
    TokenizeDoubleStar();
    MatchLiteralPrefix(w, [DoubleStar], path);
    DoubleStarMatchesAll(path[|w|..]);
  }

  /** The wildcard "Assets/" followed by `**` covers files at any depth
      below the Assets directory. */
  lemma AssetsSubtreeExample(path: string)
    requires |path| >= 7 && path[..7] == "Assets/"
    ensures GlobMatches("Assets/**", path)
  {
    assert "Assets/**" == "Assets/" + "**";
    PrefixOfItself("Assets/", path);
    PrefixThenDoubleStar("Assets/", path);
  }

  /** Upper-case "ASSETS/" followed by `**` matches every path that starts
      with lower-case "assets/": literals compare ignoring case. */
  lemma CaseInsensitiveExample(path: string)
    requires |path| >= 7 && path[..7] == "assets/"
    ensures GlobMatches("ASSETS/**", path)
  {
    assert "ASSETS/**" == "ASSETS/" + "**";
    UpperAssetsIsLower();
    PrefixOfPrefix("ASSETS/", path);
    PrefixThenDoubleStar("ASSETS/", path);
  }

  lemma UpperAssetsIsLower()
    ensures PrefixIgnoringCase("ASSETS/", "assets/")
  {
  }

  /** A case-insensitive prefix of the start of a path is one of the path. */
  lemma PrefixOfPrefix(w: string, s: string)
    requires |s| >= |w| && PrefixIgnoringCase(w, s[..|w|])
    ensures PrefixIgnoringCase(w, s)
  {
    forall i | 0 <= i < |w| ensures SameIgnoringCase(w[i], s[i]) {
      assert s[i] == s[..|w|][i];
    }
  }

  /** The reading of "Assets/" followed by `*.png`. */
  lemma TokenizePngInAssets()
    ensures Tokenize("Assets/*.png") == Lits("Assets/") + ([Star] + Lits(".png"))
  {
    assert "Assets/*.png" == "Assets/" + "*.png";
    TokenizeLiteralPrefix("Assets/", "*.png");
    TokenizeAnyPng();
  }

  lemma TokenizeAnyPng()
    ensures Tokenize("*.png") == [Star] + Lits(".png")
  {
    assert "*.png"[1..] == ".png" + "";
    TokenizeLiteralPrefix(".png", "");
    assert Lits(".png") + Tokenize("") == Lits(".png");
  }

  /** "Assets/" followed by `*.png` matches every PNG file directly in the
      Assets directory. */
  lemma SingleStarMatchExample(name: string)
    requires forall i | 0 <= i < |name| :: name[i] != '/'
    ensures GlobMatches("Assets/*.png", "Assets/" + name + ".png")
  {
    TokenizePngInAssets();
    StarAcceptsName("Assets/", ".png", name);
  }

  /** Text, `*` and text accept the first text, any name without '/', and
      the second text. */
  lemma StarAcceptsName(a: string, b: string, name: string)
    requires forall i | 0 <= i < |name| :: name[i] != '/'
    ensures MatchTokens(Lits(a) + ([Star] + Lits(b)), a + name + b)
  {
    var path := a + name + b;
    assert path[..|a|] == a;
    assert path[|a|..] == name + b;
    PrefixOfItself(a, path);
    PrefixOfItself(b, b);
    MatchLiteralPrefix(b, [], b);
    assert Lits(b) + [] == Lits(b);
    assert b[|b|..] == [];
    StarAbsorbs(Lits(b), name, b);
    MatchLiteralPrefix(a, [Star] + Lits(b), path);
  }

  /** The same wildcard matches no file in a sub-directory of Assets: `*`
      does not span '/'. */
  lemma SubdirectoryMismatch(dir: string, file: string)
    ensures !GlobMatches("Assets/*.png", "Assets/" + dir + "/" + file)
  {
    TokenizePngInAssets();
    ExtensionSlashCount();
    StarRejectsSubdirectory("Assets/", ".png", dir, file);
  }

  /** A pattern of text, `*` and text without '/' rejects every path that
      has one more directory level than the pattern, with or without a
      final line feed. */
  lemma StarRejectsSubdirectory(a: string, b: string, dir: string, file: string)
    requires Slashes(b) == 0
    ensures var t, path := Lits(a) + ([Star] + Lits(b)), a + dir + "/" + file;
      && !MatchTokens(t, path)
      && (path[|path| - 1] == '\n' ==> !MatchTokens(t, path[..|path| - 1]))
  {
    var t := Lits(a) + ([Star] + Lits(b));
    var path := a + dir + "/" + file;
    StarPatternSlashes(a, b);
    SlashesOfJoinedPath(a, dir, file);
    if MatchTokens(t, path) {
      StarStaysInDirectory(t, path);
    }
    if path[|path| - 1] == '\n' {
      var u := path[..|path| - 1];
      SlashesDropLast(path);
      if MatchTokens(t, u) {
        StarStaysInDirectory(t, u);
      }
    }
  }

  /** Literal text, `*`, and more literal text: no token of the pattern
      crosses a '/', and its literal slashes are those of the two texts. */
  lemma StarPatternSlashes(a: string, b: string)
    ensures NoCrossingTokens(Lits(a) + ([Star] + Lits(b)))
    ensures LiteralSlashes(Lits(a) + ([Star] + Lits(b))) == Slashes(a) + Slashes(b)
  {
    var tail := [Star] + Lits(b);
    LiteralSlashesAppend(Lits(a), tail);
    LiteralSlashesOfText(a);
    LiteralSlashesOfText(b);
    assert tail[1..] == Lits(b);
    NoCrossingAppend([Star], Lits(b));
    NoCrossingAppend(Lits(a), tail);
  }

  lemma NoCrossingAppend(t: seq<Token>, u: seq<Token>)
    requires NoCrossingTokens(t) && NoCrossingTokens(u)
    ensures NoCrossingTokens(t + u)
  {
    forall i | 0 <= i < |t + u| ensures !(t + u)[i].DoubleStar? && !(t + u)[i].Question? {
      if i >= |t| {
        assert (t + u)[i] == u[i - |t|];
      }
    }
  }

  lemma SlashesOfJoinedPath(a: string, d: string, f: string)
    ensures Slashes(a + d + "/" + f) == Slashes(a) + Slashes(d) + 1 + Slashes(f)
  {
    SlashesAppend(a, d);
    SlashesAppend(a + d, "/");
    SlashesAppend(a + d + "/", f);
    assert Slashes("/") == 1 by {
      assert "/"[1..] == [];
    }
  }

  /** Dropping a last character other than '/' keeps the count. */
  lemma SlashesDropLast(s: string)
    requires |s| > 0 && s[|s| - 1] != '/'
    ensures Slashes(s[..|s| - 1]) == Slashes(s)
  {
    var u, c := s[..|s| - 1], s[|s| - 1];
    assert u + [c] == s;
    SlashesAppend(u, [c]);
    assert [c][1..] == [];
  }

  lemma ExtensionSlashCount()
    ensures Slashes(".png") == 0
  {
  }

  lemma DirectorySlashCount()
    ensures Slashes("Assets/") == 1
  {
  }

  /** `?` is rewritten to `([^/].)`, so on its own it matches exactly two
      characters, the first of which is not '/'. */
  lemma QuestionTakesTwoCharacters(s: string)
    ensures GlobMatches("?", s) <==>
      || (|s| == 2 && s[0] != '/')
      || (|s| == 3 && s[0] != '/' && s[2] == '\n')
  {
    assert Tokenize("?") == [Question] by {
      assert Tokenize("?"[1..]) == [];
    }
    assert [Question][1..] == [];
    if |s| >= 2 {
      assert MatchTokens([], s[2..]) <==> |s| == 2;
    }
    if |s| >= 3 {
      var u := s[..|s| - 1];
      assert u[0] == s[0];
      assert MatchTokens([], u[2..]) <==> |u| == 2;
      assert MatchTokens([Question], u) <==> |u| == 2 && u[0] != '/';
    }
  }

  /** So "a?" matches "abc" and not "ab", and the character after "a" may not
      be '/'. */
  lemma QuestionExample()
    ensures GlobMatches("a?", "abc")
    ensures !GlobMatches("a?", "ab")
    ensures !GlobMatches("a?", "a/c")
  {
    assert Tokenize("a?") == [Lit('a'), Question] by {
      assert Tokenize("a?"[1..]) == [Question] by {
        assert Tokenize("a?"[1..][1..]) == [];
      }
    }
    var t := [Lit('a'), Question];
    assert t[1..] == [Question] && t[1..][1..] == [];
    assert MatchTokens(t, "abc") by {
      assert "abc"[1..] == "bc" && "bc"[2..] == [];
    }
    assert !MatchTokens(t, "ab") by {
      assert "ab"[1..] == "b";
    }
    assert !MatchTokens(t, "a/c") by {
      assert "a/c"[1..] == "/c";
    }
  }
}
