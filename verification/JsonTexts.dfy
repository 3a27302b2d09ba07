/** The texts sent to v1 adapters are JSON: whoever reads them by RFC 8259,
    section 7, gets back the very text that was meant, whatever its characters. */
module JsonTexts {
  import opened Options
  import opened Text
  import opened Numerals
  import opened SlotValues
  import opened WireTexts

  /** The number of an escape of four hex digits at the front. */
  function CodeUnit(s: string): Option<nat> {
    if |s| >= 6 && s[0] == '\\' && s[1] == 'u' then ParseNat(s[2..6], 16) else None
  }

  /** The first character that a string in JSON stands for, and how many of its characters it takes. */
  function ReadChar(s: string): Option<(char, nat)>
    requires s != ""
    ensures ReadChar(s).Some? ==> 1 <= ReadChar(s).value.1 <= |s|
  {
    if s[0] == '"' || s[0] as int < 32 then None
    else if s[0] != '\\' then Some((s[0], 1))
    else if |s| < 2 then None
    else if s[1] == '"' || s[1] == '\\' || s[1] == '/' then Some((s[1], 2))
    else if s[1] == 'b' then Some((8 as char, 2))
    else if s[1] == 'f' then Some((12 as char, 2))
    else if s[1] == 'n' then Some((10 as char, 2))
    else if s[1] == 'r' then Some((13 as char, 2))
    else if s[1] == 't' then Some((9 as char, 2))
    else
      match CodeUnit(s)
      case None => None
      case Some(u) =>
        if u < 0xD800 || 0xE000 <= u < 0x10000 then Some((u as char, 6))
        else
          match CodeUnit(s[6..])
          case None => None
          case Some(v) =>
            if 0xD800 <= u < 0xDC00 <= v < 0xE000
            then Some(((0x10000 + (u - 0xD800) * 0x400 + (v - 0xDC00)) as char, 12))
            else None
  }

  /** What is between the quotes of a string in JSON, read. */
  function Read(s: string): Option<string>
    decreases |s|
  {
    if s == "" then Some("")
    else
      match ReadChar(s)
      case None => None
      case Some((c, n)) => if Read(s[n..]) == None then None else Some([c] + Read(s[n..]).value)
  }

  lemma {:induction false} LowerParses(s: string)
    ensures |Lower(s)| == |s| && DigitsValue(Lower(s), 16) == DigitsValue(s, 16)
    ensures AllDigits(s, 16) ==> AllDigits(Lower(s), 16)
  {
    if s == "" {
    } else {
      var init, c := s[..|s| - 1], s[|s| - 1];
      LowerParses(init);
      LowerSplits(init, c);
      assert init + [c] == s;
      assert Lower(s)[..|s| - 1] == Lower(init) && Lower(s)[|s| - 1] == LowerChar(c);
      SameDigit(c);
    }
  }

  lemma SameDigit(c: char)
    ensures DigitValue(LowerChar(c)) == DigitValue(c)
  {}

  lemma {:induction false} LowerSplits(s: string, c: char)
    ensures Lower(s + [c]) == Lower(s) + [LowerChar(c)]
  {
    if s == "" {
      assert s + [c] == [c] && [c][1..] == "";
    } else {
      assert (s + [c])[1..] == s[1..] + [c];
      LowerSplits(s[1..], c);
    }
  }

  /** An escape of four hex digits reads as its number. */
  lemma CodeUnitIs(n: nat, rest: string)
    requires n < 0x10000
    ensures |HexEscape(n)| == 6 && CodeUnit(HexEscape(n) + rest) == Some(n)
  {
    hide NatText, DigitsValue, Lower;
    var digits := Lower(NatText(n, 16));
    NatTextParses(n, 16);
    LowerParses(NatText(n, 16));
    assert Pow16(4) == 0x10000 by {
      assert Pow16(2) == 256;
    }
    NatTextShort(n, 4, 0x10000);
    PadLeftParses(digits, 4, 16, n);
    PadLeftIs(digits, 4);
    assert (HexEscape(n) + rest)[2..6] == PadLeft(digits, 4);
  }

  /** Every character reads as itself. */
  lemma CharIsRead(c: char, rest: string)
    ensures EscapeChar(c) + rest != ""
    ensures ReadChar(EscapeChar(c) + rest) == Some((c, |EscapeChar(c)|))
  {
    hide HexEscape, CodeUnit;
    var n := c as int;
    if Plain(c) || c == '"' || c == '\\' || n in {8, 9, 10, 12, 13} {
    } else if n < 0x10000 {
      CodeUnitIs(n, rest);
      Escapes(n, rest);
    } else {
      var high, low := 0xD800 + (n - 0x10000) / 0x400, 0xDC00 + (n - 0x10000) % 0x400;
      var s := HexEscape(high) + (HexEscape(low) + rest);
      CodeUnitIs(high, HexEscape(low) + rest);
      CodeUnitIs(low, rest);
      Escapes(high, HexEscape(low) + rest);
      assert s[6..] == HexEscape(low) + rest;
      assert EscapeChar(c) + rest == s;
    }
  }

  lemma Escapes(n: nat, rest: string)
    ensures |HexEscape(n)| >= 2 && (HexEscape(n) + rest)[0] == '\\' && (HexEscape(n) + rest)[1] == 'u'
  {}

  /** Whatever is written into a string is read out of it: quotes, backslashes, line feeds, umlauts and
      characters beyond 16 bits. */
  lemma {:induction false} EscapeIsRead(s: string)
    ensures Read(Escape(s)) == Some(s)
  {
    if s == "" {
    } else {
      var front, rest := EscapeChar(s[0]), Escape(s[1..]);
      EscapeIsRead(s[1..]);
      CharIsRead(s[0], rest);
      hide EscapeChar, ReadChar;
      assert Escape(s) == front + rest && (front + rest)[|front|..] == rest;
      assert s == [s[0]] + s[1..];
    }
  }

  /** So a text written for a slot is a string in JSON that reads as the text. */
  lemma WordsReadBack(kind: SlotKind, inverted: bool, s: string)
    ensures var json := JsonDumps(V1WireValue(kind, inverted, Words(s)));
      && |json| >= 2 && json[0] == '"' && json[|json| - 1] == '"'
      && Read(json[1..|json| - 1]) == Some(s)
  {
    hide Escape;
    EscapeIsRead(s);
    var json := JsonDumps(V1WireValue(kind, inverted, Words(s)));
    assert json[1..|json| - 1] == Escape(s);
  }
}
