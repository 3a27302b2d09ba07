/** The few string operations the program uses, on ASCII letters. */
module Text {

  predicate IsSpace(c: char) {
    c == ' ' || '\t' <= c <= '\r'
  }

  function StripLeft(s: string): string {
    if s != "" && IsSpace(s[0]) then StripLeft(s[1..]) else s
  }

  function StripRight(s: string): string {
    if s != "" && IsSpace(s[|s| - 1]) then StripRight(s[..|s| - 1]) else s
  }

  function Strip(s: string): string {
    StripRight(StripLeft(s))
  }

  function LowerChar(c: char): char {
    if 'A' <= c <= 'Z' then c - 'A' + 'a' else c
  }

  function Lower(s: string): string {
    if s == "" then "" else [LowerChar(s[0])] + Lower(s[1..])
  }

  /** A text without space at its ends is left as it is. */
  lemma StripKeeps(s: string)
    requires s != "" && !IsSpace(s[0]) && !IsSpace(s[|s| - 1])
    ensures Strip(s) == s
  {}

  /** Capital letters become the small ones 32 places on, everything else stays. */
  lemma {:induction false} LowerIs(s: string, i: nat)
    requires i < |s|
    ensures |Lower(s)| == |s|
    ensures Lower(s)[i] == if 65 <= s[i] as int <= 90 then (s[i] as int + 32) as char else s[i]
  {
    if |s| > 1 {
      LowerIs(s[1..], if i == 0 then 0 else i - 1);
    }
  }

  /** Space, tab, line feed, vertical tab, form feed and carriage return. */
  predicate Blank(c: char) {
    c as int in {32, 9, 10, 11, 12, 13}
  }

  lemma {:induction false} LeftDrops(a: string, s: string)
    requires forall c :: c in a ==> Blank(c)
    requires s == "" || !Blank(s[0])
    ensures StripLeft(a + s) == s
  {
    if a == "" {
      assert a + s == s;
    } else {
      assert a[0] in a && (a + s)[1..] == a[1..] + s;
      LeftDrops(a[1..], s);
    }
  }

  lemma {:induction false} RightDrops(s: string, b: string)
    requires forall c :: c in b ==> Blank(c)
    requires s == "" || !Blank(s[|s| - 1])
    ensures StripRight(s + b) == s
  {
    if b == "" {
      assert s + b == s;
    } else {
      assert b[|b| - 1] in b && (s + b)[..|s + b| - 1] == s + b[..|b| - 1];
      RightDrops(s, b[..|b| - 1]);
    }
  }

  /** Stripping takes the blanks off both ends and no more. */
  lemma StripIs(a: string, s: string, b: string)
    requires forall c :: c in a + b ==> Blank(c)
    requires s == "" || (!Blank(s[0]) && !Blank(s[|s| - 1]))
    ensures Strip(a + s + b) == s
  {
    assert (forall c :: c in a ==> c in a + b) && (forall c :: c in b ==> c in a + b);
    if s == "" {
      LeftDrops(a + b, "");
      assert a + s + b == (a + b) + "";
    } else {
      LeftDrops(a, s + b);
      assert a + s + b == a + (s + b);
      RightDrops(s, b);
    }
  }
}
