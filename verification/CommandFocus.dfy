/** Keeping, of a spoken text that begins with a command, only the sentences
    that look like commands themselves. What a single sentence means is left
    to a parameter. */
module CommandFocus {
  import opened Text

  /** What parsing a sentence gives, as far as it matters here. */
  datatype Parsed = Parsed(name: string, hasTarget: bool)

  /** The meaning of a text once it has been focused. */
  type Meaning = string -> Parsed

  const DEVICE_COMMANDS := {"TurnOn", "TurnOff", "SetLevel", "SetColor", "SetTemperature", "SetMode", "SetFanSpeed"}
  const FOLLOW_UPS := {"Unknown", "Query", "DeviceNotFound"}

  predicate IsCommand(p: Parsed) {
    p.name in DEVICE_COMMANDS && p.hasTarget
  }

  predicate IsFollowUp(p: Parsed) {
    p.name in DEVICE_COMMANDS + FOLLOW_UPS && p.hasTarget
  }

  // ----------------------------------------------------------------------
  // Sentences

  predicate EndsSentence(c: char) {
    c == '.' || c == '!' || c == '?'
  }

  /** A space right after the end of a sentence. */
  predicate BoundaryAt(s: string, i: nat) {
    0 < i < |s| && EndsSentence(s[i - 1]) && IsSpace(s[i])
  }

  /** The first boundary from i on, or the end. */
  function Boundary(s: string, i: nat): (b: nat)
    requires i <= |s|
    ensures i <= b <= |s|
    ensures b < |s| ==> BoundaryAt(s, b)
    ensures forall j :: i <= j < b ==> !BoundaryAt(s, j)
    decreases |s| - i
  {
    if i == |s| || BoundaryAt(s, i) then i else Boundary(s, i + 1)
  }

  lemma {:induction false} StripLeftShorter(s: string)
    ensures |StripLeft(s)| <= |s|
    ensures StripLeft(s) != "" ==> !IsSpace(StripLeft(s)[0]) && StripLeft(s)[|StripLeft(s)| - 1] == s[|s| - 1]
    ensures s != "" && IsSpace(s[0]) ==> |StripLeft(s)| < |s|
  {
    if s != "" && IsSpace(s[0]) {
      StripLeftShorter(s[1..]);
    }
  }

  /** The pieces between boundaries; the spaces at a boundary belong to no piece. */
  function SplitAtBoundaries(s: string): (pieces: seq<string>)
    ensures pieces != []
    decreases |s|
  {
    var b := Boundary(s, 0);
    if b == |s| then [s]
    else
      StripLeftShorter(s[b..]);
      [s[..b]] + SplitAtBoundaries(StripLeft(s[b..]))
  }

  function NonEmpty(pieces: seq<string>): seq<string> {
    if pieces == [] then []
    else (if pieces[0] == "" then [] else [pieces[0]]) + NonEmpty(pieces[1..])
  }

  function Sentences(text: string): seq<string> {
    NonEmpty(SplitAtBoundaries(Strip(text)))
  }

  /** A sentence: bounded by neither space nor boundary, and ended unless it is the last. */
  predicate IsSentence(s: string, last: bool) {
    && s != "" && !IsSpace(s[0]) && !IsSpace(s[|s| - 1])
    && (forall i :: 0 <= i <= |s| ==> !BoundaryAt(s, i))
    && (last || EndsSentence(s[|s| - 1]))
  }

  ghost predicate AreSentences(ss: seq<string>) {
    forall k :: 0 <= k < |ss| ==> IsSentence(ss[k], k == |ss| - 1)
  }

  lemma {:induction false} StripRightKeeps(s: string)
    ensures StripRight(s) <= s
    ensures StripRight(s) != "" ==> !IsSpace(StripRight(s)[|StripRight(s)| - 1])
  {
    if s != "" && IsSpace(s[|s| - 1]) {
      StripRightKeeps(s[..|s| - 1]);
    }
  }

  lemma StripTrims(text: string)
    ensures Strip(text) != "" ==> !IsSpace(Strip(text)[0]) && !IsSpace(Strip(text)[|Strip(text)| - 1])
  {
    StripLeftShorter(text);
    StripRightKeeps(StripLeft(text));
  }

  lemma {:induction false} PiecesAreSentences(s: string)
    requires s != "" && !IsSpace(s[0]) && !IsSpace(s[|s| - 1])
    ensures AreSentences(SplitAtBoundaries(s))
    decreases |s|
  {
    var b := Boundary(s, 0);
    if b == |s| {
      forall i | 0 <= i <= |s|
        ensures !BoundaryAt(s, i)
      {}
    } else {
      StripLeftShorter(s[b..]);
      var rest := StripLeft(s[b..]);
      LastIsKept(s[b..]);
      PiecesAreSentences(rest);
      var piece := s[..b];
      forall i | 0 <= i <= |piece|
        ensures !BoundaryAt(piece, i)
      {
        assert i < |piece| ==> !BoundaryAt(s, i);
      }
      assert IsSentence(piece, false);
    }
  }

  lemma {:induction false} LastIsKept(s: string)
    requires s != "" && !IsSpace(s[|s| - 1])
    ensures StripLeft(s) != ""
  {
    if IsSpace(s[0]) {
      LastIsKept(s[1..]);
    }
  }

  lemma {:induction false} NonEmptyKeepsAll(pieces: seq<string>)
    requires forall k :: 0 <= k < |pieces| ==> pieces[k] != ""
    ensures NonEmpty(pieces) == pieces
  {
    if pieces == [] {
    } else {
      NonEmptyKeepsAll(pieces[1..]);
    }
  }

  /** Splitting a text gives sentences. */
  lemma SplitGivesSentences(text: string)
    ensures AreSentences(Sentences(text))
    ensures Strip(text) != "" ==> Sentences(text) == SplitAtBoundaries(Strip(text))
  {
    StripTrims(text);
    if Strip(text) != "" {
      PiecesAreSentences(Strip(text));
      NonEmptyKeepsAll(SplitAtBoundaries(Strip(text)));
    } else {
      assert NonEmpty([""]) == NonEmpty([""][1..]);
    }
  }

  /** A single sentence is not split again. */
  lemma SentenceStaysWhole(s: string, last: bool)
    requires IsSentence(s, last)
    ensures Sentences(s) == [s]
  {
    StripKeeps(s);
    assert Boundary(s, 0) == |s|;
    assert NonEmpty([s]) == [s] + NonEmpty([s][1..]);
  }

  function JoinSpace(ss: seq<string>): string
    requires ss != []
  {
    if |ss| == 1 then ss[0] else ss[0] + " " + JoinSpace(ss[1..])
  }

  lemma {:induction false} JoinEnds(ss: seq<string>)
    requires ss != [] && AreSentences(ss)
    ensures JoinSpace(ss) != "" && JoinSpace(ss)[0] == ss[0][0]
    ensures !IsSpace(JoinSpace(ss)[0]) && !IsSpace(JoinSpace(ss)[|JoinSpace(ss)| - 1])
  {
    assert IsSentence(ss[0], |ss| == 1);
    if |ss| > 1 {
      TailSentences(ss);
      JoinEnds(ss[1..]);
    }
  }

  lemma TailSentences(ss: seq<string>)
    requires |ss| > 1 && AreSentences(ss)
    ensures AreSentences(ss[1..])
  {
    forall k | 0 <= k < |ss[1..]|
      ensures IsSentence(ss[1..][k], k == |ss[1..]| - 1)
    {
      assert IsSentence(ss[k + 1], k + 1 == |ss| - 1);
    }
  }

  lemma FirstBoundary(s: string, tail: string)
    requires IsSentence(s, false)
    ensures Boundary(s + " " + tail, 0) == |s|
  {
    var all := s + " " + tail;
    forall i | 0 <= i < |s|
      ensures !BoundaryAt(all, i)
    {
      assert !BoundaryAt(s, i);
    }
    assert BoundaryAt(all, |s|);
  }

  lemma SplitOffFirst(s: string, tail: string)
    requires IsSentence(s, false) && tail != "" && !IsSpace(tail[0])
    ensures SplitAtBoundaries(s + " " + tail) == [s] + SplitAtBoundaries(tail)
  {
    var all := s + " " + tail;
    FirstBoundary(s, tail);
    hide IsSentence, Boundary;
    assert all[..|s|] == s && all[|s|..] == " " + tail;
    assert (" " + tail)[1..] == tail;
    assert StripLeft(" " + tail) == StripLeft(tail) == tail;
  }

  /** Splitting sentences joined with spaces gives exactly those sentences. */
  lemma {:induction false} SplitOfJoin(ss: seq<string>)
    requires ss != [] && AreSentences(ss)
    ensures SplitAtBoundaries(JoinSpace(ss)) == ss
  {
    var s := ss[0];
    assert IsSentence(s, |ss| == 1);
    if |ss| == 1 {
      assert Boundary(s, 0) == |s|;
    } else {
      TailSentences(ss);
      JoinEnds(ss[1..]);
      SplitOfJoin(ss[1..]);
      hide IsSentence, Boundary, StripLeft;
      SplitOffFirst(s, JoinSpace(ss[1..]));
    }
  }

  lemma SentencesOfJoin(ss: seq<string>)
    requires ss != [] && AreSentences(ss)
    ensures Sentences(JoinSpace(ss)) == ss
  {
    JoinEnds(ss);
    StripKeeps(JoinSpace(ss));
    SplitOfJoin(ss);
    NonEmptyKeepsAll(ss);
  }

  // ----------------------------------------------------------------------
  // Focusing

  /** Keep the sentences that, parsed on their own, are commands or follow-ups. */
  function Kept(classify: Meaning, ss: seq<string>): seq<string>
    requires Singles(ss)
    decreases 0, 2, |ss|
  {
    if ss == [] then []
    else (if IsFollowUp(Parse(classify, ss[0])) then [ss[0]] else []) + Kept(classify, ss[1..])
  }

  function Parse(classify: Meaning, text: string): Parsed
    decreases if |Sentences(text)| < 2 then 0 else 1, 1, 0
  {
    classify(Focus(classify, text))
  }

  function Focus(classify: Meaning, text: string): string
    decreases if |Sentences(text)| < 2 then 0 else 1, 0, 0
  {
    var ss := Sentences(text);
    if |ss| < 2 then text
    else
      EachStaysWhole(text);
      if !IsCommand(Parse(classify, ss[0])) then text
      else
        var kept := [ss[0]] + Kept(classify, ss[1..]);
        if |kept| == |ss| then text else JoinSpace(kept)
  }

  lemma EachStaysWhole(text: string)
    ensures forall s :: s in Sentences(text) ==> Sentences(s) == [s]
  {
    SplitGivesSentences(text);
    var ss := Sentences(text);
    forall k | 0 <= k < |ss|
      ensures Sentences(ss[k]) == [ss[k]]
    {
      SentenceStaysWhole(ss[k], k == |ss| - 1);
    }
  }

  /** The same order, with gaps. */
  ghost predicate IsSubsequence(part: seq<string>, whole: seq<string>)
    decreases |whole|
  {
    if whole == [] then part == []
    else
      || IsSubsequence(part, whole[1..])
      || (part != [] && part[0] == whole[0] && IsSubsequence(part[1..], whole[1..]))
  }

  /** Every sentence of ss stays whole when parsed on its own. */
  predicate Singles(ss: seq<string>) {
    forall s :: s in ss ==> |Sentences(s)| < 2
  }

  lemma {:induction false} KeptSteps(classify: Meaning, ss: seq<string>, next: string)
    requires Singles(ss) && |Sentences(next)| < 2
    ensures Singles(ss + [next])
    ensures Kept(classify, ss + [next]) == Kept(classify, ss) +
              (if IsFollowUp(Parse(classify, next)) then [next] else [])
  {
    hide Parse, Focus, Sentences;
    assert Singles(ss + [next]);
    if ss != [] {
      KeptSteps(classify, ss[1..], next);
      assert (ss + [next])[1..] == ss[1..] + [next];
    } else {
      assert [] + [next] == [next];
    }
  }

  /** How often s stands in ss. */
  function Times(s: string, ss: seq<string>): nat {
    multiset(ss)[s]
  }

  /** The kept sentences are, in order, exactly the commands and follow-ups. */
  lemma {:induction false} KeptIsExactly(classify: Meaning, ss: seq<string>)
    requires Singles(ss)
    ensures IsSubsequence(Kept(classify, ss), ss) && |Kept(classify, ss)| <= |ss|
    ensures forall s :: s in Kept(classify, ss) <==> s in ss && IsFollowUp(Parse(classify, s))
    ensures |Kept(classify, ss)| == |ss| ==> Kept(classify, ss) == ss
  {
    hide Parse, Focus, Sentences;
    if ss == [] {
    } else {
      KeptIsExactly(classify, ss[1..]);
      var rest := Kept(classify, ss[1..]);
      assert ss == [ss[0]] + ss[1..];
      assert IsSubsequence(rest, ss);
      assert ([ss[0]] + rest)[1..] == rest;
      assert IsSubsequence([ss[0]] + rest, ss);
      assert [] + rest == rest;
    }
  }

  /** A kept sentence is kept as often as it was said. */
  lemma {:induction false} KeptAsOften(classify: Meaning, ss: seq<string>, s: string)
    requires Singles(ss) && IsFollowUp(Parse(classify, s))
    ensures Times(s, Kept(classify, ss)) == Times(s, ss)
  {
    hide Parse, Focus, Sentences, IsFollowUp;
    if ss == [] {
    } else {
      KeptAsOften(classify, ss[1..], s);
      assert ss == [ss[0]] + ss[1..];
    }
  }

  /** Keeping again drops nothing. */
  lemma {:induction false} KeptAllAgain(classify: Meaning, ss: seq<string>)
    requires Singles(ss) && forall s :: s in ss ==> IsFollowUp(Parse(classify, s))
    ensures Kept(classify, ss) == ss
  {
    hide Parse, Focus, Sentences;
    if ss == [] {
    } else {
      KeptAllAgain(classify, ss[1..]);
      assert ss == [ss[0]] + ss[1..];
    }
  }

  lemma {:induction false} SubsequenceIsPart(part: seq<string>, whole: seq<string>)
    requires IsSubsequence(part, whole)
    ensures forall s :: s in part ==> s in whole
    decreases |whole|
  {
    if whole == [] {
    } else {
      if IsSubsequence(part, whole[1..]) {
        SubsequenceIsPart(part, whole[1..]);
      } else {
        SubsequenceIsPart(part[1..], whole[1..]);
        assert part == [part[0]] + part[1..];
      }
    }
  }

  /** Taking out sentences leaves sentences. */
  lemma {:induction false} SubsequenceOfSentences(part: seq<string>, whole: seq<string>)
    requires AreSentences(whole) && IsSubsequence(part, whole)
    ensures AreSentences(part)
    decreases |whole|
  {
    hide IsSentence;
    if whole != [] && part != [] {
      if |whole| > 1 {
        TailSentences(whole);
      }
      if IsSubsequence(part, whole[1..]) {
        SubsequenceOfSentences(part, whole[1..]);
      } else {
        SubsequenceOfSentences(part[1..], whole[1..]);
        FirstOfMore(part, whole);
      }
    }
  }

  lemma FirstOfMore(part: seq<string>, whole: seq<string>)
    requires part != [] && whole != [] && part[0] == whole[0] && AreSentences(whole)
    requires AreSentences(part[1..]) && (|whole| == 1 ==> |part| == 1)
    ensures AreSentences(part)
  {
    forall k | 0 <= k < |part|
      ensures IsSentence(part[k], k == |part| - 1)
    {
      assert IsSentence(whole[0], |whole| == 1);
      assert k > 0 ==> IsSentence(part[1..][k - 1], k - 1 == |part[1..]| - 1);
    }
  }

  // ----------------------------------------------------------------------
  // The loop

  lemma FocusUnfolds(classify: Meaning, text: string)
    ensures |Sentences(text)| < 2 ==> Focus(classify, text) == text
    ensures |Sentences(text)| >= 2 ==> Singles(Sentences(text))
    ensures |Sentences(text)| >= 2 ==>
              Focus(classify, text) == (if !IsCommand(Parse(classify, Sentences(text)[0])) then text
                                        else if |Left(classify, text)| == |Sentences(text)| then text
                                        else JoinSpace(Left(classify, text)))
  {
    hide Sentences;
    EachStaysWhole(text);
  }

  method FocusOnCommand(classify: Meaning, text: string) returns (focused: string)
    ensures focused == Focus(classify, text)
  {
    hide Sentences, Focus, Parse, Kept, IsCommand, IsFollowUp;
    FocusUnfolds(classify, text);
    var ss := Sentences(text);
    if |ss| < 2 {
      return text;
    }
    if !IsCommand(Parse(classify, ss[0])) {
      return text;
    }
    var kept, dropped := [ss[0]], [];
    NothingKept(classify);
    for i := 1 to |ss|
      invariant Singles(ss[1..i]) && kept == [ss[0]] + Kept(classify, ss[1..i])
      invariant |kept| + |dropped| == i
    {
      KeptSteps(classify, ss[1..i], ss[i]);
      assert ss[1..i] + [ss[i]] == ss[1..i + 1];
      if IsFollowUp(Parse(classify, ss[i])) {
        kept := kept + [ss[i]];
      } else {
        dropped := dropped + [ss[i]];
      }
    }
    assert ss[1..|ss|] == ss[1..];
    focused := if dropped == [] then text else JoinSpace(kept);
  }

  lemma NothingKept(classify: Meaning)
    ensures Singles([]) && Kept(classify, []) == []
  {}

  // ----------------------------------------------------------------------
  // What focusing does to a text

  /** The sentences focusing leaves of a text that has several and starts with a command. */
  function Left(classify: Meaning, text: string): seq<string>
    requires |Sentences(text)| >= 2
  {
    EachStaysWhole(text);
    [Sentences(text)[0]] + Kept(classify, Sentences(text)[1..])
  }

  /** Whether some sentence after a leading command is neither command nor follow-up. */
  ghost predicate HasAside(classify: Meaning, text: string) {
    var ss := Sentences(text);
    && |ss| >= 2 && IsCommand(classify(ss[0]))
    && exists k :: 1 <= k < |ss| && !IsFollowUp(classify(ss[k]))
  }

  /** A sentence on its own means what the classifier makes of it. */
  lemma SingleMeans(classify: Meaning, text: string)
    ensures forall s :: s in Sentences(text) ==> Parse(classify, s) == classify(s) && |Sentences(s)| < 2
  {
    EachStaysWhole(text);
  }

  /** A text changes just when it has an aside. What is left then starts with
      the leading sentence, keeps the order, holds after it exactly the commands
      and follow-ups, and splits back into just these sentences. */
  lemma FocusKeepsCommands(classify: Meaning, text: string)
    ensures !HasAside(classify, text) ==> Focus(classify, text) == text
    ensures HasAside(classify, text) ==>
              var before, after := Sentences(text), Sentences(Focus(classify, text));
              && after != [] && after[0] == before[0]
              && IsSubsequence(after[1..], before[1..]) && |after| < |before|
              && (forall s :: s in after[1..] <==> s in before[1..] && IsFollowUp(classify(s)))
              && forall s :: s in after[1..] ==> Times(s, after[1..]) == Times(s, before[1..])
  {
    hide Sentences, Focus, Parse, Kept, IsCommand, IsFollowUp, IsSubsequence;
    FocusUnfolds(classify, text);
    if |Sentences(text)| >= 2 {
      var ss := Sentences(text);
      SingleMeans(classify, text);
      assert ss[0] in ss;
      LeftIsExactly(classify, text);
      if HasAside(classify, text) {
        LeftAreSentences(classify, text);
        SentencesOfJoin(Left(classify, text));
      }
    }
  }

  lemma LeftIsExactly(classify: Meaning, text: string)
    requires |Sentences(text)| >= 2
    ensures var before, left := Sentences(text), Left(classify, text);
            && left[0] == before[0]
            && IsSubsequence(left[1..], before[1..]) && |left| <= |before|
            && (forall s :: s in left[1..] <==> s in before[1..] && IsFollowUp(classify(s)))
            && (forall s :: s in left[1..] ==> Times(s, left[1..]) == Times(s, before[1..]))
            && (|left| == |before| <==> forall k :: 1 <= k < |before| ==> IsFollowUp(classify(before[k])))
  {
    hide Sentences, Focus, Parse, Kept, IsFollowUp, IsSubsequence;
    var ss := Sentences(text);
    SingleMeans(classify, text);
    var rest := ss[1..];
    assert forall s :: s in rest ==> s in ss;
    KeptIsExactly(classify, rest);
    assert Left(classify, text)[1..] == Kept(classify, rest);
    forall s | s in Kept(classify, rest)
      ensures Times(s, Kept(classify, rest)) == Times(s, rest)
    {
      KeptAsOften(classify, rest, s);
    }
    if forall k :: 1 <= k < |ss| ==> IsFollowUp(classify(ss[k])) {
      KeptAllAgain(classify, rest);
    } else {
      var k :| 1 <= k < |ss| && !IsFollowUp(classify(ss[k]));
      assert rest[k - 1] == ss[k];
    }
  }

  lemma LeftAreSentences(classify: Meaning, text: string)
    requires |Sentences(text)| >= 2
    ensures AreSentences(Left(classify, text))
  {
    hide IsSentence, Sentences, Focus, Parse, Kept;
    SplitGivesSentences(text);
    EachStaysWhole(text);
    var ss := Sentences(text);
    KeptIsExactly(classify, ss[1..]);
    var left := Left(classify, text);
    assert left[1..] == Kept(classify, ss[1..]);
    SubsequenceOfSentences(left, ss);
  }

  /** Focusing twice changes nothing more. */
  lemma FocusIsIdempotent(classify: Meaning, text: string)
    ensures Focus(classify, Focus(classify, text)) == Focus(classify, text)
    ensures Parse(classify, Focus(classify, text)) == Parse(classify, text)
  {
    FocusKeepsCommands(classify, text);
    var focused := Focus(classify, text);
    if HasAside(classify, text) {
      var after := Sentences(focused);
      assert !HasAside(classify, focused) by {
        forall k | 1 <= k < |after|
          ensures IsFollowUp(classify(after[k]))
        {
          assert after[1..][k - 1] == after[k];
        }
      }
      FocusKeepsCommands(classify, focused);
    }
  }

  /** Nothing in the text follows a full stop, an exclamation mark or a question mark after a blank, and it
      has no blank at its ends. */
  ghost predicate IsPhrase(s: string) {
    && s != "" && !Blank(s[0]) && !Blank(s[|s| - 1])
    && forall i :: 0 < i < |s| && Blank(s[i]) ==> s[i - 1] !in ".!?"
  }

  /** Of two sentences the second is dropped just when the first is a device command with a target, and the
      second neither that nor a question, an unknown command or an unknown device with a target. */
  lemma FocusOfTwo(classify: Meaning, a: string, b: string)
    requires IsPhrase(a) && a[|a| - 1] in ".!?" && IsPhrase(b)
    ensures var commands :=
      {"TurnOn", "TurnOff", "SetLevel", "SetColor", "SetTemperature", "SetMode", "SetFanSpeed"};
      var lead, next := classify(a), classify(b);
      Focus(classify, a + " " + b) ==
        if && lead.name in commands && lead.hasTarget
           && !(next.hasTarget && next.name in commands + {"Unknown", "Query", "DeviceNotFound"})
        then a else a + " " + b
  {
    hide Focus, Parse, Kept, Sentences, IsSentence;
    PhraseIsSentence(a);
    PhraseIsSentence(b);
    var ss := [a, b];
    assert ss[1..] == [b] && JoinSpace([b]) == b;
    SentencesOfJoin(ss);
    var text := a + " " + b;
    FocusUnfolds(classify, text);
    SingleMeans(classify, text);
    assert ss[0] in ss && ss[1] in ss;
    LeftOfTwo(classify, text, a, b);
  }

  lemma LeftOfTwo(classify: Meaning, text: string, a: string, b: string)
    requires Sentences(text) == [a, b]
    ensures Left(classify, text) == if IsFollowUp(Parse(classify, b)) then [a, b] else [a]
  {
    hide Focus, Parse, Sentences;
    EachStaysWhole(text);
    assert [a, b][1..] == [b];
    NothingKept(classify);
    assert b in [a, b] && [] + [b] == [b];
    KeptSteps(classify, [], b);
  }

  lemma PhraseIsSentence(s: string)
    requires IsPhrase(s)
    ensures IsSentence(s, true) && (s[|s| - 1] in ".!?" ==> IsSentence(s, false))
  {
    forall i | 0 <= i <= |s|
      ensures !BoundaryAt(s, i)
    {}
  }
}
