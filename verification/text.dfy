/** The string operations the rule files go through: `String.Split` on one
    separator character, the joining done by appending with a separator,
    `Int32.ToString` and `Int32.Parse` (invariant culture). */
module Text {
  import opened Wrappers
  import opened CSharpInt

  // ---------------------------------------------------------------------------
  // Splitting and joining on one character

  /** `s.Split(sep)`: the pieces between separators, including empty pieces;
      the empty string gives one empty piece. */
  function Split(s: string, sep: char): (fields: seq<string>)
    ensures |fields| >= 1
    ensures forall i | 0 <= i < |fields| :: sep !in fields[i]
  {
    if |s| == 0 then [""]
    else
      var rest := Split(s[1..], sep);
      if s[0] == sep then [""] + rest
      else [[s[0]] + rest[0]] + rest[1..]
  }

  /** The fields are pieces of the text: a character the text does not
      hold is in no field. */
  lemma {:induction false} SplitKeepsOut(s: string, sep: char, c: char)
    ensures c !in s ==> forall i | 0 <= i < |Split(s, sep)| :: c !in Split(s, sep)[i]
  {
    if |s| > 0 && c !in s {
      assert c !in s[1..];
      SplitKeepsOut(s[1..], sep, c);
      var rest := Split(s[1..], sep);
      if s[0] != sep {
        assert c !in [s[0]] + rest[0];
        assert forall i | 1 <= i < |Split(s, sep)| :: Split(s, sep)[i] == rest[i];
      }
    }
  }

  /** The fields written one after the other with `sep` between them. */
  function Join(fields: seq<string>, sep: char): string
  {
    if |fields| == 0 then ""
    else if |fields| == 1 then fields[0]
    else fields[0] + [sep] + Join(fields[1..], sep)
  }

  /** Splitting and joining again gives back the text. */
  lemma {:induction false} JoinSplit(s: string, sep: char)
    ensures Join(Split(s, sep), sep) == s
  {
    if |s| > 0 {
      var rest := Split(s[1..], sep);
      JoinSplit(s[1..], sep);
      if s[0] == sep {
        assert s == [sep] + s[1..];
      } else if |rest| == 1 {
        assert s == [s[0]] + s[1..];
      } else {
        assert Join(rest, sep) == rest[0] + [sep] + Join(rest[1..], sep);
        assert s == [s[0]] + s[1..];
      }
    }
  }

  /** A piece without separators followed by more text is the start of the
      first field. */
  lemma {:induction false} SplitPrefix(a: string, b: string, sep: char)
    requires sep !in a
    ensures var r := Split(b, sep);
      Split(a + b, sep) == [a + r[0]] + r[1..]
  {
    if |a| > 0 {
      SplitPrefix(a[1..], b, sep);
      assert (a + b)[1..] == a[1..] + b;
      assert [a[0]] + (a[1..] + Split(b, sep)[0]) == a + Split(b, sep)[0];
    } else {
      var r := Split(b, sep);
      assert a + b == b;
      assert a + r[0] == r[0];
      assert r == [r[0]] + r[1..];
    }
  }

  /** Joining fields that hold no separator and splitting again gives back
      the fields. */
  lemma {:induction false} SplitJoin(fields: seq<string>, sep: char)
    requires |fields| >= 1
    requires forall i | 0 <= i < |fields| :: sep !in fields[i]
    ensures Split(Join(fields, sep), sep) == fields
  {
    if |fields| == 1 {
      SplitPrefix(fields[0], "", sep);
      assert fields[0] + "" == fields[0];
    } else {
      var tail := Join(fields[1..], sep);
      SplitJoin(fields[1..], sep);
      SplitPrefix(fields[0], [sep] + tail, sep);
      assert fields[0] + [sep] + tail == fields[0] + ([sep] + tail);
      assert ([sep] + tail)[1..] == tail;
      assert Split([sep] + tail, sep) == [""] + fields[1..];
      assert fields[0] + "" == fields[0];
    }
  }

  // ---------------------------------------------------------------------------
  // Decimal integers

  predicate IsDigit(c: char)
  {
    '0' <= c <= '9'
  }

  predicate AllDigits(s: string)
  {
    forall i | 0 <= i < |s| :: IsDigit(s[i])
  }

  function DigitChar(d: int): (c: char)
    requires 0 <= d < 10
    ensures IsDigit(c)
  {
    (48 + d) as char
  }

  function DigitValue(c: char): int
  {
    c as int - 48
  }

  /** Value of a string of decimal digits. */
  function DigitsValue(s: string): nat
    requires AllDigits(s)
  {
    if |s| == 0 then 0 else 10 * DigitsValue(s[..|s| - 1]) + DigitValue(s[|s| - 1])
  }

  /** Decimal digits of a natural number, without leading zeros. */
  function NatToString(n: nat): (s: string)
    ensures |s| >= 1 && AllDigits(s)
  {
    if n < 10 then [DigitChar(n)] else NatToString(n / 10) + [DigitChar(n % 10)]
  }

  lemma {:induction false} NatToStringValue(n: nat)
    ensures DigitsValue(NatToString(n)) == n
  {
    if n >= 10 {
      var s := NatToString(n);
      NatToStringValue(n / 10);
      assert s[..|s| - 1] == NatToString(n / 10);
    }
  }

  /** `Int32.ToString()`: a minus sign for negative values, then the
      digits. */
  function IntToString(n: int): (s: string)
  {
    if n < 0 then "-" + NatToString(-n) else NatToString(n)
  }

  /** The characters `Int32.Parse` skips before and after the number: the
      space and the controls from tab to carriage return. */
  predicate IsWhite(c: char)
  {
    c == ' ' || '\t' <= c <= '\r'
  }

  function TrimStart(s: string): (t: string)
    ensures |t| <= |s| && t == s[|s| - |t|..]
    ensures |t| > 0 ==> !IsWhite(t[0])
    ensures forall i | 0 <= i < |s| - |t| :: IsWhite(s[i])
  {
    if |s| > 0 && IsWhite(s[0]) then TrimStart(s[1..]) else s
  }

  function TrimEnd(s: string): (t: string)
    ensures |t| <= |s| && t == s[..|t|]
    ensures |t| > 0 ==> !IsWhite(t[|t| - 1])
    ensures forall i | |t| <= i < |s| :: IsWhite(s[i])
  {
    if |s| > 0 && IsWhite(s[|s| - 1]) then TrimEnd(s[..|s| - 1]) else s
  }

  /** The value of an optionally signed digit string, if it is one. */
  function SignedValue(t: string): (v: Option<int>)
    ensures v.Some? ==> |t| >= 1
  {
    var (negative, digits) :=
      if |t| > 0 && t[0] == '-' then (true, t[1..])
      else if |t| > 0 && t[0] == '+' then (false, t[1..])
      else (false, t);
    if |digits| == 0 || !AllDigits(digits) then None
    else
      var magnitude: int := DigitsValue(digits);
      Some(if negative then -magnitude else magnitude)
  }

  /** `Int32.Parse`: white space around an optionally signed run of decimal
      digits whose value fits in 32 bits; anything else fails (a format or
      overflow exception in C#, `None` here). */
  function ParseInt(s: string): (r: Option<int>)
    ensures r.Some? ==> IsInt32(r.value)
    ensures r.Some? ==> exists i | 0 <= i < |s| :: IsDigit(s[i])
  {
    var t := TrimEnd(TrimStart(s));
    match SignedValue(t)
    case None => None
    case Some(v) =>
      if !IsInt32(v) then None
      else
        var u := TrimStart(s);
        assert t[|t| - 1] == s[|s| - |u| + |t| - 1];
        Some(v)
  }

  /** Parsing what `IntToString` prints gives back every 32-bit value. */
  lemma ParseIntToString(n: int)
    requires IsInt32(n)
    ensures ParseInt(IntToString(n)) == Some(n)
  {
    var s := IntToString(n);
    assert |s| >= 1 && IsDigit(s[|s| - 1]);
    var digits := NatToString(Abs(n));
    NatToStringValue(Abs(n));
    var magnitude: int := DigitsValue(digits);
    NoWhiteAround(s);
    if n < 0 {
      assert s[1..] == digits;
      assert SignedValue(s) == Some(-magnitude);
    } else {
      assert SignedValue(s) == Some(magnitude);
    }
  }

  /** A printed integer starts and ends with a character other than white
      space, so trimming leaves it alone. */
  lemma NoWhiteAround(s: string)
    requires |s| >= 1 && (s[0] == '-' || IsDigit(s[0])) && IsDigit(s[|s| - 1])
    ensures TrimStart(s) == s && TrimEnd(s) == s
  {
  }

  /** Examples of what `Int32.Parse` accepts and rejects. */
  lemma ParseIntExamples()
    ensures ParseInt(" -12 ") == Some(-12)
    ensures ParseInt("+7") == Some(7)
    ensures ParseInt("") == None
    ensures ParseInt("1 2") == None
    ensures ParseInt("2147483648") == None
  {
    ParsePaddedNegative();
    ParseExplicitPlus();
    ParseInnerSpace();
    ParseOverflow();
  }

  lemma ParsePaddedNegative()
    ensures ParseInt(" -12 ") == Some(-12)
  {
    assert TrimStart(" -12 ") == "-12 ";
    assert TrimEnd("-12 ") == "-12";
    assert "-12"[1..] == "12";
    assert DigitsValue("12") == 12 by {
      assert "12"[..1] == "1";
    }
  }

  lemma ParseExplicitPlus()
    ensures ParseInt("+7") == Some(7)
  {
    assert TrimStart("+7") == "+7";
    assert TrimEnd("+7") == "+7";
    assert "+7"[1..] == "7";
  }

  lemma ParseInnerSpace()
    ensures ParseInt("1 2") == None
  {
    assert TrimStart("1 2") == "1 2";
    assert TrimEnd("1 2") == "1 2";
    assert !IsDigit("1 2"[1]);
  }

  lemma ParseOverflow()
    ensures ParseInt("2147483648") == None
  {
    assert TrimStart("2147483648") == "2147483648";
    assert TrimEnd("2147483648") == "2147483648";
    OverflowDigitsValue();
  }

  lemma OverflowDigitsValue()
    ensures DigitsValue("2147483648") == 2147483648
  {
    assert "2147483648"[..9] == "214748364";
    assert "214748364"[..8] == "21474836";
    assert "21474836"[..7] == "2147483";
    assert "2147483"[..6] == "214748";
    assert "214748"[..5] == "21474";
    assert "21474"[..4] == "2147";
    assert "2147"[..3] == "214";
    assert "214"[..2] == "21";
    assert "21"[..1] == "2";
  }
}
