/** The values of slots, the text they are written as to a v1 adapter, and how
    the text an adapter sends back is read. */
module SlotValues {
  import opened Options
  import opened Text
  import opened Numerals

  datatype SlotKind =
    | On | Brightness | Color | ColorTemperature | Position | Stop
    | Temperature | TargetTemperature | Humidity | Illuminance | Pressure | Co2 | Iaq | Voc | Power | Energy | Motion
    | Open | Mode | FanSpeed
    | GenericNumber | GenericBool | GenericText

  const BOOL_KINDS := {On, Open, Motion, Stop, GenericBool}
  const TEXT_KINDS := {GenericText, Mode, FanSpeed}

  type Num = d: Decimal | d.Reduced() witness Decimal(0, 0)

  /** What the registry keeps for a slot. */
  datatype SlotValue = Unknown | Boolean(b: bool) | Number(n: Num) | Rgb(rgb: int) | Words(s: string)

  /** A value as a caller passes it, or as parsed from a payload. */
  datatype Value = Nothing | Bool(b: bool) | Int(i: int) | Float(d: Num) | Str(s: string)

  const RGB_LIMIT := 0x1000000

  function StrOf(v: Value): string {
    match v
    case Nothing => "None"
    case Bool(b) => if b then "True" else "False"
    case Int(i) => IntText(i)
    case Float(d) => DecimalText(d)
    case Str(s) => s
  }

  function Mirror(d: Num): (m: Num)
    ensures HundredMinus(m) == d
  {
    HundredMinusTwice(d);
    HundredMinus(d)
  }

  // ----------------------------------------------------------------------
  // Reading

  function ParsePayload(raw: string): Value {
    var s := Strip(raw);
    if Lower(s) == "true" then Bool(true)
    else if Lower(s) == "false" then Bool(false)
    else if ParseInt(s, 10).Some? then Int(ParseInt(s, 10).value)
    else if ParseDecimal(s).Some? then
      ReducedParse(s);
      Float(ParseDecimal(s).value)
    else Str(s)
  }

  lemma ReducedParse(s: string)
    ensures ParseDecimal(s).Some? ==> ParseDecimal(s).value.Reduced()
  {}

  predicate Quoted(s: string) {
    |s| >= 2 && s[0] == '"' && s[|s| - 1] == '"'
  }

  function Unquote(s: string): string {
    if Quoted(s) then s[1..|s| - 1] else s
  }

  /** A payload in the scale of the slot's kind. */
  function Normalize(kind: SlotKind, raw: string, inverted: bool): SlotValue {
    match ParsePayload(raw)
    case Str(s) =>
      if s == "" || Lower(s) == "null" then Unknown else NormalizeParsed(kind, Str(Unquote(s)), inverted)
    case v => NormalizeParsed(kind, v, inverted)
  }

  function NormalizeParsed(kind: SlotKind, v: Value, inverted: bool): SlotValue {
    if kind in BOOL_KINDS then
      match v
      case Nothing => Boolean(false)
      case Bool(b) => Boolean(b)
      case Int(i) => Boolean(i != 0)
      case Float(d) => Boolean(d.mantissa != 0)
      case Str(s) => Boolean(Lower(s) in {"true", "1", "on"})
    else if kind in TEXT_KINDS then Words(StrOf(v))
    else if kind == Color then
      match v
      case Nothing => Unknown
      case Bool(b) => Rgb(if b then 1 else 0)
      case Int(i) => Rgb(i % RGB_LIMIT)
      case Float(d) => Rgb(Truncate(d) % RGB_LIMIT)
      case Str(s) =>
        if s == "" || s[0] != '#' || ParseInt(s[1..], 16) == None then Unknown
        else Rgb(ParseInt(s[1..], 16).value % RGB_LIMIT)
    else
      match AsFloat(v)
      case None => Unknown
      case Some(d) => Number(if inverted && kind == Position then Mirror(d) else d)
  }

  function AsFloat(v: Value): Option<Num> {
    match v
    case Nothing => None
    case Bool(b) => Some(Decimal(if b then 1 else 0, 0))
    case Int(i) => Some(Decimal(i, 0))
    case Float(d) => Some(d)
    case Str(s) =>
      ReducedParse(Strip(s));
      if ParseDecimal(Strip(s)).Some? then Some(ParseDecimal(Strip(s)).value) else None
  }

  // ----------------------------------------------------------------------
  // Writing

  /** A value checked against the kind; None where the program raises ValueError. */
  function ToSlotValue(kind: SlotKind, v: Value): Option<SlotValue> {
    if v == Nothing then None
    else if kind in BOOL_KINDS then (if v.Bool? then Some(Boolean(v.b)) else None)
    else if kind in TEXT_KINDS then Some(Words(StrOf(v)))
    else if kind == Color then
      var i := if v.Str? && v.s != "" && v.s[0] == '#' then ParseInt(v.s[1..], 16)
               else if v.Int? then Some(v.i) else None;
      if i.Some? && 0 <= i.value < RGB_LIMIT then Some(Rgb(i.value)) else None
    else
      match v
      case Int(i) => Some(Number(Decimal(i, 0)))
      case Float(d) => Some(Number(d))
      case _ => None
  }

  /** Six upper-case hex digits, or more when they are needed. */
  function HexText(n: nat): string {
    PadLeft(NatText(n, 16), 6)
  }

  /** The value in the form a v1 adapter expects: hex colours, and inverted positions turned back. */
  function V1WireValue(kind: SlotKind, inverted: bool, v: SlotValue): Value {
    match v
    case Unknown => Nothing
    case Boolean(b) => Bool(b)
    case Words(s) => Str(s)
    case Rgb(rgb) => Str("#" + HexText(rgb % RGB_LIMIT))
    case Number(n) =>
      var d := if inverted && kind == Position then Mirror(n) else n;
      if d.Integral() then Int(d.mantissa) else Float(d)
  }

  /** The value itself. */
  function PlainValue(v: SlotValue): Value {
    match v
    case Unknown => Nothing
    case Boolean(b) => Bool(b)
    case Words(s) => Str(s)
    case Rgb(rgb) => Int(rgb)
    case Number(n) => Float(n)
  }

  /** A character that json.dumps writes as it is: printable ASCII but quote and backslash. */
  predicate Plain(c: char) {
    ' ' <= c <= '~' && c != '"' && c != '\\'
  }

  function HexEscape(n: nat): string {
    "\\u" + PadLeft(Lower(NatText(n, 16)), 4)
  }

  function EscapeChar(c: char): string {
    if Plain(c) then [c]
    else if c == '"' || c == '\\' then ['\\', c]
    else if c == '\n' then "\\n"
    else if c == '\r' then "\\r"
    else if c == '\t' then "\\t"
    else if c as int == 8 then "\\b"
    else if c as int == 12 then "\\f"
    else if c as int < 0x10000 then HexEscape(c as int)
    else HexEscape(0xD800 + (c as int - 0x10000) / 0x400) + HexEscape(0xDC00 + (c as int - 0x10000) % 0x400)
  }

  function Escape(s: string): string {
    if s == "" then "" else EscapeChar(s[0]) + Escape(s[1..])
  }

  function JsonDumps(v: Value): string {
    match v
    case Nothing => "null"
    case Bool(b) => if b then "true" else "false"
    case Int(i) => IntText(i)
    case Float(d) => DecimalText(d)
    case Str(s) => "\"" + Escape(s) + "\""
  }

  // ----------------------------------------------------------------------
  // Round trip

  lemma EscapedChar(c: char)
    ensures if Plain(c) then EscapeChar(c) == [c] else |EscapeChar(c)| > 1
  {}

  lemma {:induction false} EscapeGrows(s: string)
    ensures |Escape(s)| >= |s|
    ensures Escape(s) == s <==> forall c :: c in s ==> Plain(c)
  {
    if s == "" {
    } else {
      EscapeGrows(s[1..]);
      EscapedChar(s[0]);
      hide EscapeChar, Plain;
      assert s == [s[0]] + s[1..];
      if Plain(s[0]) {
        assert Escape(s)[1..] == Escape(s[1..]);
      } else {
        assert |Escape(s)| > |s| && s[0] in s;
      }
    }
  }

  lemma LowerFirst(s: string)
    requires s != ""
    ensures Lower(s) != "" && Lower(s)[0] == LowerChar(s[0])
  {}

  /** A quoted text is read as text. */
  lemma QuotedIsText(s: string)
    requires Quoted(s)
    ensures ParsePayload(s) == Str(s) && Lower(s) != "null"
  {
    StripKeeps(s);
    QuotedNoWord(s);
    QuotedNoInt(s);
    QuotedNoDecimal(s);
    hide Quoted, Lower, ParseInt, ParseDecimal, Strip;
  }

  lemma QuotedNoWord(s: string)
    requires Quoted(s)
    ensures Lower(s) !in {"true", "false", "null"}
  {
    LowerFirst(s);
  }

  lemma QuotedNoInt(s: string)
    requires Quoted(s)
    ensures ParseInt(s, 10) == None
  {
    assert s[0] in s && !AllDigits(s, 10);
  }

  lemma QuotedNoDecimal(s: string)
    requires Quoted(s)
    ensures ParseDecimal(s) == None
  {
    assert s[0] in s && !AllDigits(s, 10);
    var p := PointAt(s);
    assert p > 0 && s[0] == s[..p][0];
    var whole := s[..p];
    forall fraction: string
      ensures ParseNat(whole + fraction, 10) == None
    {
      assert (whole + fraction)[0] == s[0];
      assert s[0] in whole + fraction;
    }
  }

  /** The value has the form that slots of the kind hold. */
  predicate Fits(kind: SlotKind, v: SlotValue) {
    if kind in BOOL_KINDS then v.Boolean?
    else if kind in TEXT_KINDS then v.Words?
    else if kind == Color then v.Rgb? && 0 <= v.rgb < RGB_LIMIT
    else v.Number?
  }

  lemma CheckedFits(kind: SlotKind, v: Value)
    requires ToSlotValue(kind, v).Some?
    ensures Fits(kind, ToSlotValue(kind, v).value)
  {}

  /** The text written for a slot, read back in the slot's scale. */
  function Echo(kind: SlotKind, inverted: bool, v: SlotValue): SlotValue {
    Normalize(kind, JsonDumps(V1WireValue(kind, inverted, v)), inverted)
  }

  lemma BooleanEchoes(kind: SlotKind, inverted: bool, b: bool)
    requires kind in BOOL_KINDS
    ensures Echo(kind, inverted, Boolean(b)) == Boolean(b)
  {
    var s := if b then "true" else "false";
    StripKeeps(s);
    LowerOfLower(s);
    assert ParsePayload(s) == Bool(b);
  }

  lemma {:induction false} LowerOfLower(s: string)
    requires forall c :: c in s ==> !('A' <= c <= 'Z')
    ensures Lower(s) == s
  {
    if s == "" {
    } else {
      assert s == [s[0]] + s[1..] && s[0] in s;
      assert forall c :: c in s[1..] ==> c in s;
      LowerOfLower(s[1..]);
    }
  }

  /** A text that starts like a number and ends in a digit is not a word, and has no space around it. */
  lemma LooksLikeNumber(s: string)
    requires s != "" && (s[0] == '-' || DigitValue(s[0]) < 10) && DigitValue(s[|s| - 1]) < 10
    ensures Strip(s) == s && Lower(s) != "true" && Lower(s) != "false"
  {
    StripKeeps(s);
    LowerFirst(s);
  }

  lemma IntTextIsRead(i: int)
    ensures ParsePayload(IntText(i)) == Int(i)
  {
    hide NatText, ParseInt;
    var k: nat := if i < 0 then -i else i;
    var t := NatText(k, 10);
    NatTextDigits(k, 10);
    assert t[0] in t && t[|t| - 1] in t;
    IntTextParses(i);
    LooksLikeNumber(IntText(i));
  }

  lemma DecimalTextIsRead(d: Num)
    requires !d.Integral()
    ensures ParsePayload(DecimalText(d)) == Float(d)
  {
    hide ParseDecimal, DecimalText;
    DecimalTextParses(d);
    DecimalTextEnds(d);
    LooksLikeNumber(DecimalText(d));
  }

  lemma NumberEchoes(kind: SlotKind, inverted: bool, n: Num)
    requires kind !in BOOL_KINDS && kind !in TEXT_KINDS && kind != Color
    ensures Echo(kind, inverted, Number(n)) == Number(n)
  {
    hide ParsePayload, HundredMinus;
    var d: Num := if inverted && kind == Position then Mirror(n) else n;
    HundredMinusTwice(n);
    if d.Integral() {
      IntTextIsRead(d.mantissa);
    } else {
      DecimalTextIsRead(d);
    }
    MirrorTwice(n);
  }

  lemma MirrorTwice(n: Num)
    ensures Mirror(Mirror(n)) == n
  {
    HundredMinusTwice(n);
  }

  /** A quoted text reads as what is between the quotes. */
  lemma QuotedReads(kind: SlotKind, inverted: bool, s: string)
    ensures Normalize(kind, "\"" + s + "\"", inverted) == NormalizeParsed(kind, Str(s), inverted)
  {
    hide ParsePayload, NormalizeParsed;
    var q := "\"" + s + "\"";
    QuotedIsText(q);
    assert q[1..|q| - 1] == s;
  }

  lemma WordsEcho(kind: SlotKind, inverted: bool, s: string)
    requires kind in TEXT_KINDS
    ensures Echo(kind, inverted, Words(s)) == Words(Escape(s))
  {
    hide Normalize;
    QuotedReads(kind, inverted, Escape(s));
  }

  lemma HexTextParses(n: nat)
    ensures ParseInt(HexText(n), 16) == Some(n)
    ensures forall c :: c in HexText(n) ==> Plain(c)
  {
    hide NatText, PadLeft, DigitsValue;
    var hex := HexText(n);
    NatTextParses(n, 16);
    PadLeftParses(NatText(n, 16), 6, 16, n);
    assert hex[0] in hex;
    assert Unsigned(hex) == hex;
  }

  lemma ColorEchoes(kind: SlotKind, inverted: bool, rgb: int)
    requires kind == Color && 0 <= rgb < RGB_LIMIT
    ensures Echo(kind, inverted, Rgb(rgb)) == Rgb(rgb)
  {
    hide HexText, Normalize, ParseInt, Escape, Plain;
    HexTextParses(rgb);
    var s := "#" + HexText(rgb);
    assert s[1..] == HexText(rgb);
    HashIsPlain();
    assert forall c :: c in s ==> c == '#' || c in HexText(rgb);
    EscapeGrows(s);
    QuotedReads(kind, inverted, s);
  }

  lemma HashIsPlain()
    ensures Plain('#')
  {}

  /** Reading back what was written leaves the slot at the written value, for booleans, numbers,
      colours and inverted positions always, and for a text exactly when json.dumps writes each of
      its characters as it is. */
  lemma EchoIff(kind: SlotKind, inverted: bool, v: SlotValue)
    requires Fits(kind, v)
    ensures Echo(kind, inverted, v) == v <==> (v.Words? ==> forall c :: c in v.s ==> Plain(c))
  {
    match v
    case Boolean(b) => BooleanEchoes(kind, inverted, b);
    case Number(n) => NumberEchoes(kind, inverted, n);
    case Rgb(rgb) => ColorEchoes(kind, inverted, rgb);
    case Words(s) =>
      WordsEcho(kind, inverted, s);
      EscapeGrows(s);
    case Unknown =>
  }
}
