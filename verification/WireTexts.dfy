/** The texts that go to and come from v1 adapters, kind by kind and in numbers. */
module WireTexts {
  import opened Options
  import opened Text
  import opened Numerals
  import opened SlotValues

  /** The kinds that hold numbers. */
  predicate Numeric(kind: SlotKind) {
    kind !in {On, Open, Motion, Stop, GenericBool} && kind !in {GenericText, Mode, FanSpeed} && kind != Color
  }

  function Whole(k: int): Num {
    Decimal(k, 0)
  }

  // ----------------------------------------------------------------------
  // Reading

  /** A whole number reads as itself, and as 100 less it on an inverted position. */
  lemma NumberRead(kind: SlotKind, inverted: bool, k: int)
    requires Numeric(kind)
    ensures Normalize(kind, IntText(k), inverted) == Number(Whole(if inverted && kind == Position then 100 - k else k))
  {
    hide ParsePayload;
    IntTextIsRead(k);
    HundredMinusIs(Whole(k));
  }

  /** A fraction reads as itself; on an inverted position it and what is kept add up to 100. */
  lemma FractionRead(kind: SlotKind, inverted: bool, d: Num)
    requires Numeric(kind) && d.scale > 0
    ensures var kept := Normalize(kind, DecimalText(d), inverted);
      && kept.Number? && kept.n.scale == d.scale
      && kept.n.mantissa == (if inverted && kind == Position then 100 * Pow10(d.scale) - d.mantissa else d.mantissa)
  {
    hide ParsePayload, Pow10;
    DecimalTextIsRead(d);
    HundredMinusIs(d);
  }

  /** A switch is on for every number but zero. */
  lemma SwitchReadsNumber(kind: SlotKind, inverted: bool, k: int)
    requires kind in {On, Open, Motion, Stop, GenericBool}
    ensures Normalize(kind, IntText(k), inverted) == Boolean(k != 0)
  {
    hide ParsePayload;
    IntTextIsRead(k);
  }

  lemma {:induction false} TimesTen(s: string)
    requires AllDigits(s, 10)
    ensures AllDigits(s + "0", 10) && DigitsValue(s + "0", 10) == 10 * DigitsValue(s, 10)
  {
    assert (s + "0")[..|s|] == s;
  }

  /** The text of a float without decimals. */
  lemma PointZeroIsRead(m: int)
    ensures ParsePayload(IntText(m) + ".0") == Float(Whole(m))
  {
    hide NatText, ParseInt, ParseDecimal, DigitsValue;
    var k: nat := if m < 0 then -m else m;
    var t := NatText(k, 10);
    NatTextParses(k, 10);
    TimesTen(t);
    PointTextParses(t, "0", m < 0);
    var s := IntText(m) + ".0";
    assert s == (if m < 0 then "-" else "") + t + "." + "0";
    assert Reduce(if m < 0 then -(10 * k) else 10 * k, 1) == Whole(m);
    LooksLikeNumber(s);
    NoDigits(s);
  }

  lemma NoDigits(s: string)
    requires !AllDigits(Unsigned(s), 10)
    ensures ParseInt(s, 10) == None
  {}

  lemma FloatIsRead(d: Num)
    ensures ParsePayload(DecimalText(d)) == Float(d)
  {
    if d.scale == 0 {
      PointZeroIsRead(d.mantissa);
    } else {
      DecimalTextIsRead(d);
    }
  }

  /** A float on the slots that are not numeric: on unless it is zero, kept in words, cut to a whole number. */
  lemma FloatRead(kind: SlotKind, inverted: bool, d: Num)
    ensures var v := Normalize(kind, DecimalText(d), inverted);
      && (kind in {On, Open, Motion, Stop, GenericBool} ==> v == Boolean(d.mantissa != 0))
      && (kind in {GenericText, Mode, FanSpeed} ==> v == Words(DecimalText(d)))
      && (kind == Color ==> v == Rgb(Truncate(d) % 0x1000000))
      && (Numeric(kind) && !(inverted && kind == Position) ==> v == Number(d))
  {
    hide ParsePayload, DecimalText;
    FloatIsRead(d);
  }

  /** Cutting is towards zero. */
  lemma TruncateIs(d: Decimal)
    ensures var t, p := Truncate(d), Pow10(d.scale);
      if d.mantissa < 0 then t <= 0 && (t - 1) * p < d.mantissa <= t * p else t * p <= d.mantissa < (t + 1) * p
  {
    hide Pow10;
    Pow10Positive(d.scale);
    Quotient(if d.mantissa < 0 then -d.mantissa else d.mantissa, Pow10(d.scale));
  }

  lemma Quotient(k: int, p: int)
    requires k >= 0 && p > 0
    ensures k / p * p <= k < (k / p + 1) * p
    ensures -(k / p) * p >= -k > (-(k / p) - 1) * p
  {
    var q := k / p;
    assert (q + 1) * p == q * p + p;
    assert -q * p == -(q * p) && (-q - 1) * p == -((q + 1) * p);
  }

  lemma WordsParsed(s: string)
    requires s in {"true", "false"}
    ensures ParsePayload(s) == Bool(s == "true")
  {
    StripKeeps(s);
    LowerOfLower(s);
  }

  /** The words true and false, as each kind reads them. */
  lemma BooleansRead(kind: SlotKind, inverted: bool, b: bool)
    ensures var s := if b then "true" else "false";
      Normalize(kind, s, inverted) ==
        if kind in {On, Open, Motion, Stop, GenericBool} then Boolean(b)
        else if kind in {GenericText, Mode, FanSpeed} then Words(if b then "True" else "False")
        else if kind == Color then Rgb(if b then 1 else 0)
        else Number(Whole(if (inverted && kind == Position) then (if b then 99 else 100) else (if b then 1 else 0)))
  {
    hide ParsePayload;
    WordsParsed(if b then "true" else "false");
    HundredMinusIs(Whole(if b then 1 else 0));
  }

  /** Quoted words switch on if they are true, 1 or on, in any case, and off otherwise. */
  lemma SwitchReadsWord(kind: SlotKind, inverted: bool, s: string)
    requires kind in {On, Open, Motion, Stop, GenericBool}
    ensures Normalize(kind, "\"" + s + "\"", inverted) ==
      Boolean(Lower(s) == "true" || Lower(s) == "1" || Lower(s) == "on")
  {
    hide Normalize;
    QuotedReads(kind, inverted, s);
  }

  /** A text slot keeps a number's digits and what is between quotes. */
  lemma TextRead(kind: SlotKind, inverted: bool, k: int, s: string)
    requires kind in {GenericText, Mode, FanSpeed}
    ensures Normalize(kind, IntText(k), inverted) == Words(IntText(k))
    ensures Normalize(kind, "\"" + s + "\"", inverted) == Words(s)
  {
    hide ParsePayload;
    IntTextIsRead(k);
    QuotedReads(kind, inverted, s);
  }

  /** A colour is the last 24 bits of a number, or of the hex digits after a number sign; no other word. */
  lemma ColorRead(inverted: bool, k: int, s: string)
    ensures Normalize(Color, IntText(k), inverted) == Rgb(k % 0x1000000)
    ensures Normalize(Color, "\"#" + s + "\"", inverted) ==
      (if ParseInt(s, 16) == None then Unknown else Rgb(ParseInt(s, 16).value % 0x1000000))
    ensures s == "" || s[0] != '#' ==> Normalize(Color, "\"" + s + "\"", inverted) == Unknown
  {
    hide ParsePayload, ParseInt;
    IntTextIsRead(k);
    QuotedReads(Color, inverted, s);
    QuotedReads(Color, inverted, "#" + s);
    assert "\"" + ("#" + s) + "\"" == "\"#" + s + "\"";
    assert ("#" + s)[1..] == s;
  }

  /** Nothing and null are no value, whatever the kind. */
  lemma NothingRead(kind: SlotKind, inverted: bool)
    ensures Normalize(kind, "", inverted) == Unknown && Normalize(kind, "null", inverted) == Unknown
  {
    hide ParsePayload;
    NullParsed();
  }

  lemma NullParsed()
    ensures ParsePayload("") == Str("") && ParsePayload("null") == Str("null") && Lower("null") == "null"
  {
    hide ParseInt, ParseDecimal, Lower;
    var s := "null";
    StripKeeps(s);
    NoNumber(s);
    NoNumber("");
    LowerOfLower(s);
    LowerOfLower("");
  }

  lemma NoNumber(s: string)
    requires s == "" || s[0] == 'n'
    ensures ParseInt(s, 10) == None && ParseDecimal(s) == None
  {
    if s != "" {
      assert s[0] in s;
      assert PointAt(s) > 0;
      var whole := s[..PointAt(s)];
      assert whole[0] == 'n';
      forall fraction: string
        ensures ParseNat(whole + fraction, 10) == None
      {
        assert (whole + fraction)[0] == 'n' && (whole + fraction)[0] in whole + fraction;
      }
    }
  }

  // ----------------------------------------------------------------------
  // Writing

  /** A whole number is written in digits, as 100 less it for an inverted position. */
  lemma NumberSent(kind: SlotKind, inverted: bool, k: int)
    ensures JsonDumps(V1WireValue(kind, inverted, Number(Whole(k)))) ==
      IntText(if inverted && kind == Position then 100 - k else k)
  {
    HundredMinusIs(Whole(k));
  }

  /** A fraction is written with its point; for an inverted position the two add up to 100. */
  lemma FractionSent(kind: SlotKind, inverted: bool, d: Num)
    requires d.scale > 0
    ensures exists m: Num ::
      && JsonDumps(V1WireValue(kind, inverted, Number(d))) == DecimalText(m) && m.scale == d.scale
      && m.mantissa == if inverted && kind == Position then 100 * Pow10(d.scale) - d.mantissa else d.mantissa
  {
    hide DecimalText, Pow10;
    HundredMinusIs(d);
    var m: Num := if inverted && kind == Position then Mirror(d) else d;
    assert JsonDumps(V1WireValue(kind, inverted, Number(d))) == DecimalText(m);
  }

  lemma BooleanSent(kind: SlotKind, inverted: bool, b: bool)
    ensures JsonDumps(V1WireValue(kind, inverted, Boolean(b))) == if b then "true" else "false"
  {}

  /** A colour is written as a number sign and six capital hex digits of its value, in quotes. */
  lemma ColorSent(kind: SlotKind, inverted: bool, rgb: int)
    requires 0 <= rgb < 0x1000000
    ensures exists hex: string ::
      && JsonDumps(V1WireValue(kind, inverted, Rgb(rgb))) == "\"#" + hex + "\""
      && |hex| == 6 && ParseInt(hex, 16) == Some(rgb)
      && forall c :: c in hex ==> '0' <= c <= '9' || 'A' <= c <= 'F'
  {
    hide HexText, ParseInt, Escape, Plain;
    var hex := HexText(rgb);
    HexTextParses(rgb);
    HexTextIs(rgb);
    HashIsPlain();
    assert forall c :: c in "#" + hex ==> c == '#' || c in hex;
    EscapeGrows("#" + hex);
    assert "\"" + ("#" + hex) + "\"" == "\"#" + hex + "\"";
  }

  lemma {:induction false} NatTextDigitsAre(n: nat)
    ensures forall c :: c in NatText(n, 16) ==> '0' <= c <= '9' || 'A' <= c <= 'F'
  {
    if n >= 16 {
      NatTextDigitsAre(n / 16);
    }
  }

  lemma {:induction false} NatTextShort(n: nat, digits: nat, bound: nat)
    requires digits > 0 && n < bound && bound == Pow16(digits)
    ensures 0 < |NatText(n, 16)| <= digits
    decreases digits
  {
    if n >= 16 {
      NatTextShort(n / 16, digits - 1, Pow16(digits - 1));
    }
  }

  function Pow16(n: nat): nat {
    if n == 0 then 1 else 16 * Pow16(n - 1)
  }

  lemma {:induction false} PadLeftIs(s: string, width: nat)
    requires |s| <= width
    ensures |PadLeft(s, width)| == width && forall c :: c in PadLeft(s, width) ==> c in s || c == '0'
    decreases width - |s|
  {
    if |s| < width {
      PadLeftIs("0" + s, width);
    }
  }

  lemma HexTextIs(n: nat)
    requires n < 0x1000000
    ensures |HexText(n)| == 6 && forall c :: c in HexText(n) ==> '0' <= c <= '9' || 'A' <= c <= 'F'
  {
    assert Pow16(6) == 0x1000000 by {
      assert Pow16(2) == 256 && Pow16(4) == 256 * 256;
    }
    NatTextShort(n, 6, 0x1000000);
    NatTextDigitsAre(n);
    PadLeftIs(NatText(n, 16), 6);
  }

  /** A text of plain characters is written in quotes as it is. */
  lemma WordsSent(kind: SlotKind, inverted: bool, s: string)
    requires forall c :: c in s ==> ' ' <= c <= '~' && c != '"' && c != '\\'
    ensures JsonDumps(V1WireValue(kind, inverted, Words(s))) == "\"" + s + "\""
  {
    EscapeGrows(s);
  }

  // ----------------------------------------------------------------------
  // Checking

  /** A slot takes just the values that slots of its kind hold, and keeps them as they are. */
  lemma TakesIff(kind: SlotKind, v: SlotValue)
    ensures ToSlotValue(kind, PlainValue(v)) == Some(v) <==>
      match v
      case Unknown => false
      case Boolean(_) => kind in {On, Open, Motion, Stop, GenericBool}
      case Words(_) => kind in {GenericText, Mode, FanSpeed}
      case Rgb(rgb) => kind == Color && 0 <= rgb < 0x1000000
      case Number(_) => Numeric(kind)
  {}

  /** What is no Boolean is no switch position, and a Boolean is neither a number nor a colour. */
  lemma Mismatches(kind: SlotKind, v: Value)
    ensures kind in {On, Open, Motion, Stop, GenericBool} ==> (ToSlotValue(kind, v) == None <==> !v.Bool?)
    ensures Numeric(kind) ==> (ToSlotValue(kind, v) == None <==> !v.Int? && !v.Float?)
    ensures kind == Color && (v.Bool? || v.Float?) ==> ToSlotValue(kind, v) == None
    ensures kind in {GenericText, Mode, FanSpeed} ==> (ToSlotValue(kind, v) == None <==> v == Nothing)
  {}

  /** Whole numbers are taken by numeric slots, and hex colours after a number sign by colour slots. */
  lemma TakesNumbersAndColors(kind: SlotKind, k: int, hex: string)
    ensures Numeric(kind) ==> ToSlotValue(kind, Int(k)) == Some(Number(Whole(k)))
    ensures ToSlotValue(Color, Str("#" + hex)) ==
      (if ParseInt(hex, 16).Some? && 0 <= ParseInt(hex, 16).value < 0x1000000
       then Some(Rgb(ParseInt(hex, 16).value)) else None)
  {
    assert ("#" + hex)[1..] == hex;
  }
}
