/** What the variables of the environment say: which path a name stands for, and
    which value a text. */
module EnvironmentTexts {
  import opened Options
  import opened Text
  import opened Numerals
  import opened ConfigOverlay

  // ----------------------------------------------------------------------
  // Names

  lemma {:induction false} JoinSplitFrom(s: string, part: string)
    ensures SplitFrom(s, part) != [] && Join(SplitFrom(s, part)) == part + s
    decreases |s|
  {
    if s == "" {
      assert part + s == part;
    } else if SeparatorAt(s, 0) {
      JoinSplitFrom(s[2..], "");
      var rest := SplitFrom(s[2..], "");
      assert ([part] + rest)[1..] == rest && "" + s[2..] == s[2..];
      assert s == "__" + s[2..];
      assert part + s == part + "__" + s[2..];
    } else {
      JoinSplitFrom(s[1..], part + [s[0]]);
      assert s == [s[0]] + s[1..];
      assert part + [s[0]] + s[1..] == part + s;
    }
  }

  /** Each rest of a name is made of clean parts in just one way. */
  lemma PartsOfName(rest: string, parts: seq<string>)
    ensures Split(rest) != [] && AllClean(Split(rest)) && Join(Split(rest)) == rest
    ensures parts != [] && AllClean(parts) && Join(parts) == rest ==> parts == Split(rest)
  {
    JoinSplitFrom(rest, "");
    SplitFromClean(rest, "");
    assert "" + rest == rest;
    if parts != [] && AllClean(parts) && Join(parts) == rest {
      SplitJoin(parts);
    }
  }

  /** A variable stands for the path of its parts in small letters, when it starts with the prefix and no
      part is empty; any other stands for none. */
  lemma PathOfName(parts: seq<string>, name: string)
    requires parts != [] && AllClean(parts)
    ensures var path := PathOf("HANNAH_CORE_" + Join(parts));
      && (path == None <==> exists k :: 0 <= k < |parts| && |parts[k]| == 0)
      && (path.Some? ==>
            && |path.value| == |parts|
            && forall k :: 0 <= k < |parts| ==> IsLowerOf(path.value[k], parts[k]))
    ensures !("HANNAH_CORE_" <= name) ==> PathOf(name) == None
  {
    var n := "HANNAH_CORE_" + Join(parts);
    assert n[..|ENV_PREFIX|] == ENV_PREFIX && n[|ENV_PREFIX|..] == Join(parts);
    SplitJoin(parts);
    forall k | 0 <= k < |parts|
      ensures IsLowerOf(LowerAll(parts)[k], parts[k])
    {
      LowerOf(parts[k]);
    }
    assert |LowerAll(parts)| == |parts|;
    hide LowerAll, Lower;
  }

  /** Character by character the same, but with capital letters 32 places on. */
  ghost predicate IsLowerOf(low: string, s: string) {
    && |low| == |s|
    && forall i :: 0 <= i < |s| ==> low[i] == if 65 <= s[i] as int <= 90 then (s[i] as int + 32) as char else s[i]
  }

  lemma LowerOf(s: string)
    ensures IsLowerOf(Lower(s), s)
  {
    if s != "" {
      LowerIs(s, 0);
    }
    forall i | 0 <= i < |s|
      ensures Lower(s)[i] == if 65 <= s[i] as int <= 90 then (s[i] as int + 32) as char else s[i]
    {
      LowerIs(s, i);
    }
  }

  // ----------------------------------------------------------------------
  // Values

  /** Each number is read from its text. */
  lemma NumbersCoerced(n: int, d: Decimal)
    ensures Coerce(IntText(n)) == Whole(n)
    ensures d.Reduced() && d.scale > 0 ==> Coerce(DecimalText(d)) == Fraction(d)
  {
    IntCoerced(n);
    if d.Reduced() && d.scale > 0 {
      FractionCoerced(d);
    }
  }

  lemma NumberLike(s: string)
    requires s != "" && (s[0] == '-' || DigitValue(s[0]) < 10) && DigitValue(s[|s| - 1]) < 10
    ensures Strip(s) == s && Lower(s) !in {"true", "false"}
  {
    StripKeeps(s);
    LowerIs(s, 0);
  }

  lemma IntCoerced(n: int)
    ensures Coerce(IntText(n)) == Whole(n)
  {
    hide NatText, ParseInt, ParseDecimal;
    var k: nat := if n < 0 then -n else n;
    var t := NatText(k, 10);
    NatTextDigits(k, 10);
    assert t[0] in t && t[|t| - 1] in t;
    IntTextParses(n);
    NumberLike(IntText(n));
  }

  lemma FractionCoerced(d: Decimal)
    requires d.Reduced() && d.scale > 0
    ensures Coerce(DecimalText(d)) == Fraction(d)
  {
    hide ParseDecimal, DecimalText;
    DecimalTextParses(d);
    DecimalTextEnds(d);
    NumberLike(DecimalText(d));
  }

  /** The words true and false in any case, without space around them, are Booleans. */
  lemma FlagsCoerced(s: string)
    ensures IsLowerOf("true", s) ==> Coerce(s) == Flag(true)
    ensures IsLowerOf("false", s) ==> Coerce(s) == Flag(false)
  {
    LowerOf(s);
    if IsLowerOf("true", s) {
      assert Lower(s) == "true";
    }
    if IsLowerOf("false", s) {
      assert Lower(s) == "false";
    }
  }

  /** A text that starts like no number stays what it is, spaces included, unless it is one of the two
      words. */
  lemma WordsCoerced(s: string)
    requires s == "" || StartsNoNumber(s[0])
    requires !IsLowerOf("true", s) && !IsLowerOf("false", s)
    ensures Coerce(s) == Words(s)
  {
    hide Lower, ParseInt, ParseDecimal, Strip;
    LowerOf(s);
    assert Lower(s) != "true" && Lower(s) != "false";
    StripFront(s);
    NoNumber(Strip(s));
  }

  /** Neither blank, sign, point nor digit, nor the beginning of nan or infinity. */
  predicate StartsNoNumber(c: char) {
    !Blank(c) && c !in "+-.0123456789iInN"
  }

  lemma StripFront(s: string)
    requires s == "" || StartsNoNumber(s[0])
    ensures Strip(s) == "" || StartsNoNumber(Strip(s)[0])
  {
    var u := StripLeft(s);
    RightIsPrefix(u);
  }

  lemma {:induction false} RightIsPrefix(s: string)
    ensures StripRight(s) <= s
  {
    if s != "" && IsSpace(s[|s| - 1]) {
      RightIsPrefix(s[..|s| - 1]);
    }
  }

  lemma NoNumber(s: string)
    requires s == "" || StartsNoNumber(s[0])
    ensures ParseInt(s, 10) == None && ParseDecimal(s) == None
  {
    if s != "" {
      assert DigitValue(s[0]) >= 10;
      assert s[0] in s && PointAt(s) > 0;
      var whole := s[..PointAt(s)];
      assert whole[0] == s[0];
      forall fraction: string
        ensures ParseNat(whole + fraction, 10) == None
      {
        assert (whole + fraction)[0] == s[0] && (whole + fraction)[0] in whole + fraction;
      }
    }
  }
}
