/** Overriding nested configuration values from environment variables. */
module ConfigOverlay {
  import opened Options
  import opened Text
  import opened Numerals
  import opened Sequences

  datatype Scalar = NoValue | Flag(b: bool) | Whole(i: int) | Fraction(d: Decimal) | Words(s: string)

  /** A configuration: a mapping or anything else. */
  datatype Tree = Leaf(value: Scalar) | Node(children: map<string, Tree>)

  type Path = seq<string>

  function Children(t: Tree): map<string, Tree> {
    if t.Node? then t.children else map[]
  }

  /** The mapping under a key, or an empty one. */
  function Child(t: Tree, key: string): (c: Tree)
    ensures c.Node?
  {
    if key in Children(t) && Children(t)[key].Node? then Children(t)[key] else Node(map[])
  }

  /** Sets the value at a path; what is in the way and not a mapping becomes an empty one. */
  function Override(t: Tree, path: Path, v: Tree): Tree
    requires path != []
    decreases |path|
  {
    Node(Children(t)[path[0] := if |path| == 1 then v else Override(Child(t, path[0]), path[1..], v)])
  }

  /** Safe access to a nested value. */
  function Lookup(t: Tree, keys: Path, default: Tree): Tree
    decreases |keys|
  {
    if keys == [] then t
    else if !t.Node? then default
    else Lookup(if keys[0] in t.children then t.children[keys[0]] else default, keys[1..], default)
  }

  method Get(t: Tree, keys: Path, default: Tree) returns (v: Tree)
    ensures v == Lookup(t, keys, default)
  {
    v := t;
    for i := 0 to |keys|
      invariant Lookup(v, keys[i..], default) == Lookup(t, keys, default)
    {
      if !v.Node? {
        return default;
      }
      v := if keys[i] in v.children then v.children[keys[i]] else default;
    }
  }

  // ----------------------------------------------------------------------
  // Names of variables

  /** A separator begins here. */
  predicate SeparatorAt(s: string, i: nat) {
    i + 1 < |s| && s[i] == '_' && s[i + 1] == '_'
  }

  /** The parts between double underscores, from the left. */
  function Split(s: string): seq<string> {
    SplitFrom(s, "")
  }

  function SplitFrom(s: string, part: string): seq<string>
    decreases |s|
  {
    if s == "" then [part]
    else if SeparatorAt(s, 0) then [part] + SplitFrom(s[2..], "")
    else SplitFrom(s[1..], part + [s[0]])
  }

  function Join(parts: seq<string>): string
    requires parts != []
  {
    if |parts| == 1 then parts[0] else parts[0] + "__" + Join(parts[1..])
  }

  /** No separator in it, and none where it meets one. */
  predicate Clean(part: string, last: bool) {
    (forall i :: 0 <= i < |part| ==> !SeparatorAt(part, i)) && (last || part == "" || part[|part| - 1] != '_')
  }

  ghost predicate AllClean(parts: seq<string>) {
    forall k :: 0 <= k < |parts| ==> Clean(parts[k], k == |parts| - 1)
  }

  /** Going on with a part that can be continued as it is. */
  lemma {:induction false} SplitFromJoin(part: string, s: string, rest: seq<string>)
    requires Clean(part + s, rest == [])
    ensures SplitFrom(s + (if rest == [] then "" else "__" + Join(rest)), part) ==
            [part + s] + (if rest == [] then [] else Split(Join(rest)))
    decreases |s|
  {
    var tail := if rest == [] then "" else "__" + Join(rest);
    var all := s + tail;
    if s == "" {
      assert all == tail && part + s == part;
      if rest != [] {
        assert tail[2..] == Join(rest);
      }
    } else {
      assert !SeparatorAt(part + s, |part|);
      assert (part + s)[|part|] == s[0];
      if |s| > 1 {
        assert (part + s)[|part| + 1] == s[1] && all[1] == s[1];
      } else {
        assert (part + s)[|part + s| - 1] == s[0];
      }
      assert !SeparatorAt(all, 0);
      assert all[1..] == s[1..] + tail;
      assert part + [s[0]] + s[1..] == part + s;
      SplitFromJoin(part + [s[0]], s[1..], rest);
    }
  }

  lemma {:induction false} SplitJoin(parts: seq<string>)
    requires parts != [] && AllClean(parts)
    ensures Split(Join(parts)) == parts
  {
    var rest := parts[1..];
    assert Clean(parts[0], rest == []);
    assert "" + parts[0] == parts[0];
    SplitFromJoin("", parts[0], rest);
    if rest != [] {
      forall k | 0 <= k < |rest|
        ensures Clean(rest[k], k == |rest| - 1)
      {
        assert Clean(parts[k + 1], k + 1 == |parts| - 1);
      }
      SplitJoin(rest);
      assert Join(parts) == parts[0] + ("__" + Join(rest));
    } else {
      assert parts[0] + "" == parts[0];
    }
  }

  /** The parts a split gives are clean. */
  lemma {:induction false} SplitFromClean(s: string, part: string)
    requires forall i :: 0 <= i < |part| ==> !SeparatorAt(part, i)
    requires part != "" && part[|part| - 1] == '_' ==> s == "" || s[0] != '_'
    ensures SplitFrom(s, part) != [] && AllClean(SplitFrom(s, part))
    decreases |s|
  {
    if s == "" {
    } else if SeparatorAt(s, 0) {
      SplitFromClean(s[2..], "");
    } else {
      var more := part + [s[0]];
      forall i | 0 <= i < |more|
        ensures !SeparatorAt(more, i)
      {
        assert i + 1 < |part| ==> !SeparatorAt(part, i);
      }
      SplitFromClean(s[1..], more);
    }
  }

  /** Joining and splitting again gives the same segments if and only if no segment contains a
      separator and none but the last ends in an underscore. */
  lemma SplitJoinIff(parts: seq<string>)
    requires parts != []
    ensures Split(Join(parts)) == parts <==> AllClean(parts)
  {
    if AllClean(parts) {
      SplitJoin(parts);
    }
    SplitFromClean(Join(parts), "");
  }

  // ----------------------------------------------------------------------
  // The environment

  const ENV_PREFIX := "HANNAH_CORE_"

  /** The value a variable's text would have had in the file. */
  function Coerce(text: string): Scalar {
    if Lower(text) in {"true", "false"} then Flag(Lower(text) == "true")
    else if ParseInt(Strip(text), 10).Some? then Whole(ParseInt(Strip(text), 10).value)
    else if ParseDecimal(Strip(text)).Some? then Fraction(ParseDecimal(Strip(text)).value)
    else Words(text)
  }

  function LowerAll(parts: seq<string>): seq<string> {
    seq(|parts|, i requires 0 <= i < |parts| => Lower(parts[i]))
  }

  /** The path a variable stands for, if it stands for one. */
  function PathOf(name: string): Option<Path> {
    if |name| < |ENV_PREFIX| || name[..|ENV_PREFIX|] != ENV_PREFIX then None
    else
      var path := LowerAll(Split(name[|ENV_PREFIX|..]));
      if path == [] || "" in path then None else Some(path)
  }

  lemma {:induction false} LowerAt(s: string)
    ensures |Lower(s)| == |s| && forall i :: 0 <= i < |s| ==> Lower(s)[i] == LowerChar(s[i])
  {
    if s == "" {
    } else {
      LowerAt(s[1..]);
    }
  }

  lemma LowerKeepsClean(part: string, last: bool)
    requires Clean(part, last)
    ensures Clean(Lower(part), last) && Lower(Lower(part)) == Lower(part)
  {
    hide Lower;
    LowerAt(part);
    LowerAt(Lower(part));
    forall i | 0 <= i < |part|
      ensures !SeparatorAt(Lower(part), i)
    {
      assert !SeparatorAt(part, i);
    }
  }

  /** A path can be reached by the variable named after it if and only if its keys are lower-case, not
      empty, and come back from splitting. */
  lemma VariableOfPath(path: Path)
    requires path != []
    ensures PathOf(ENV_PREFIX + Join(path)) == Some(path) <==>
              AllClean(path) && "" !in path && LowerAll(path) == path
  {
    var name, parts := ENV_PREFIX + Join(path), Split(Join(path));
    assert name[|ENV_PREFIX|..] == Join(path) && name[..|ENV_PREFIX|] == ENV_PREFIX;
    if AllClean(path) {
      SplitJoin(path);
    }
    if PathOf(name) == Some(path) {
      SplitFromClean(Join(path), "");
      forall k | 0 <= k < |path|
        ensures Clean(path[k], k == |path| - 1) && Lower(path[k]) == path[k]
      {
        assert path[k] == LowerAll(parts)[k] == Lower(parts[k]);
        assert Clean(parts[k], k == |parts| - 1);
        LowerKeepsClean(parts[k], k == |parts| - 1);
      }
    }
  }

  datatype Change = Change(path: Path, value: Tree)

  /** What one variable changes. */
  function ChangeOf(variable: (string, string)): seq<Change> {
    var p := PathOf(variable.0);
    if p.Some? then [Change(p.value, Leaf(Coerce(variable.1)))] else []
  }

  function Changes(env: seq<(string, string)>): (cs: seq<Change>)
    ensures forall c :: c in cs ==> c.path != []
  {
    if env == [] then [] else ChangeOf(env[0]) + Changes(env[1..])
  }

  function Overlay(t: Tree, cs: seq<Change>): Tree
    requires forall c :: c in cs ==> c.path != []
    decreases |cs|
  {
    if cs == [] then t else Overlay(Override(t, cs[0].path, cs[0].value), cs[1..])
  }

  // ----------------------------------------------------------------------
  // Paths apart

  /** Neither path is a prefix of the other. */
  predicate Apart(p: Path, q: Path) {
    !(p <= q) && !(q <= p)
  }

  lemma ApartTails(p: Path, q: Path)
    requires Apart(p, q) && p[0] == q[0]
    ensures Apart(p[1..], q[1..]) && |p| > 1 && |q| > 1
  {
    assert p == [p[0]] + p[1..] && q == [q[0]] + q[1..];
    assert p[1..] <= q[1..] <==> p <= q;
    assert q[1..] <= p[1..] <==> q <= p;
  }

  /** What an override puts under the first key of its path. */
  function Below(child: Tree, p: Path, v: Tree): Tree
    requires p != []
  {
    if |p| == 1 then v else Override(child, p[1..], v)
  }

  lemma OverrideSets(t: Tree, p: Path, v: Tree, k: string)
    requires p != []
    ensures Override(t, p, v) == Node(Children(t)[p[0] := Below(Child(t, p[0]), p, v)])
    ensures p[0] == k && |p| > 1 ==> Child(Override(t, p, v), k) == Override(Child(t, k), p[1..], v)
    ensures p[0] != k ==> Child(Override(t, p, v), k) == Child(t, k)
  {}

  /** Overrides of paths apart from each other can be made in either order. */
  lemma {:induction false} OverridesCommute(t: Tree, p: Path, v: Tree, q: Path, w: Tree)
    requires Apart(p, q)
    ensures Override(Override(t, p, v), q, w) == Override(Override(t, q, w), p, v)
    decreases |p|
  {
    hide Override, Child;
    OverrideSets(t, p, v, q[0]);
    OverrideSets(t, q, w, p[0]);
    OverrideSets(Override(t, p, v), q, w, q[0]);
    OverrideSets(Override(t, q, w), p, v, p[0]);
    var a, b := Below(Child(t, p[0]), p, v), Below(Child(t, q[0]), q, w);
    if p[0] == q[0] {
      ApartTails(p, q);
      OverridesCommute(Child(t, p[0]), p[1..], v, q[1..], w);
      SetTwiceIsLast(Children(t), p[0], a, Override(a, q[1..], w));
      SetTwiceIsLast(Children(t), p[0], b, Override(a, q[1..], w));
    } else {
      SetsCommute(Children(t), p[0], a, q[0], b);
    }
  }

  lemma SetTwiceIsLast(m: map<string, Tree>, k: string, a: Tree, b: Tree)
    ensures m[k := a][k := b] == m[k := b]
  {}

  lemma SetsCommute(m: map<string, Tree>, j: string, a: Tree, k: string, b: Tree)
    requires j != k
    ensures m[j := a][k := b] == m[k := b][j := a]
  {}

  /** Overrides with scalars commute if and only if neither path extends the other, or they are one and
      the same. */
  lemma {:induction false} OverridesCommuteIff(t: Tree, p: Path, a: Scalar, q: Path, b: Scalar)
    requires p != [] && q != []
    ensures Override(Override(t, p, Leaf(a)), q, Leaf(b)) == Override(Override(t, q, Leaf(b)), p, Leaf(a)) <==>
      Apart(p, q) || (p == q && a == b)
    decreases |p|
  {
    var v, w := Leaf(a), Leaf(b);
    if Apart(p, q) {
      OverridesCommute(t, p, v, q, w);
    } else {
      NotApartHeads(p, q);
      var pq, qp := Override(Override(t, p, v), q, w), Override(Override(t, q, w), p, v);
      OverrideBoth(t, p, v, q, w);
      OverrideBoth(t, q, w, p, v);
      if |p| > 1 && |q| > 1 {
        NotApartTails(p, q);
        OverridesCommuteIff(Child(t, p[0]), p[1..], a, q[1..], b);
        if pq.children[p[0]] == qp.children[p[0]] {
          SameUnderKey(t, p, v, q, w);
        }
      } else if p == q && a == b {
      } else {
        assert p == q ==> |p| == 1 && |q| == 1;
        assert |p| == 1 && |q| == 1 ==> p == q;
        assert pq.children[p[0]] != qp.children[p[0]];
      }
    }
  }

  lemma NotApartHeads(p: Path, q: Path)
    requires p != [] && q != [] && !Apart(p, q)
    ensures p[0] == q[0]
  {}

  lemma NotApartTails(p: Path, q: Path)
    requires |p| > 1 && |q| > 1 && p[0] == q[0]
    ensures Apart(p[1..], q[1..]) <==> Apart(p, q)
    ensures p[1..] == q[1..] <==> p == q
  {
    assert p == [p[0]] + p[1..] && q == [q[0]] + q[1..];
    assert p[1..] <= q[1..] <==> p <= q;
    assert q[1..] <= p[1..] <==> q <= p;
  }

  /** What two overrides with one first key put under it. */
  lemma OverrideBoth(t: Tree, p: Path, v: Tree, q: Path, w: Tree)
    requires p != [] && q != [] && p[0] == q[0] && v.Leaf? && w.Leaf?
    ensures var k := p[0];
      Override(Override(t, p, v), q, w).children[k] ==
        if |q| == 1 then w
        else if |p| == 1 then Override(Node(map[]), q[1..], w)
        else Override(Override(Child(t, k), p[1..], v), q[1..], w)
  {}

  lemma SameUnderKey(t: Tree, p: Path, v: Tree, q: Path, w: Tree)
    requires p != [] && q != [] && p[0] == q[0]
    requires Override(Override(t, p, v), q, w).children[p[0]] == Override(Override(t, q, w), p, v).children[p[0]]
    ensures Override(Override(t, p, v), q, w) == Override(Override(t, q, w), p, v)
  {
    var k, x := p[0], Override(Override(t, p, v), q, w).children[p[0]];
    SetTwiceIsLast(Children(t), k, Override(t, p, v).children[k], x);
    SetTwiceIsLast(Children(t), k, Override(t, q, w).children[k], x);
  }

  /** The path leads to a value. */
  predicate Has(t: Tree, q: Path)
    decreases |q|
  {
    q == [] || (t.Node? && q[0] in t.children && Has(t.children[q[0]], q[1..]))
  }

  /** An overridden path reads back its value. */
  lemma {:induction false} ReadsBack(t: Tree, p: Path, v: Tree, default: Tree)
    requires p != []
    ensures Lookup(Override(t, p, v), p, default) == v && Has(Override(t, p, v), p)
    decreases |p|
  {
    if |p| == 1 {
    } else {
      ReadsBack(Child(t, p[0]), p[1..], v, default);
    }
  }

  /** Reading on in the default gives the default again: it is no mapping, or an empty one. */
  predicate Settled(default: Tree) {
    default.Leaf? || default.children == map[]
  }

  /** Every other path reads as before, if it leads to a value or the default is settled. */
  lemma {:induction false} OthersKept(t: Tree, p: Path, v: Tree, q: Path, default: Tree)
    requires Apart(p, q) && (Settled(default) || Has(t, q))
    ensures Lookup(Override(t, p, v), q, default) == Lookup(t, q, default)
    ensures Has(t, q) ==> Has(Override(t, p, v), q)
    decreases |p|
  {
    if Settled(default) {
      SettledDefault(q[1..], default);
    }
    if p[0] == q[0] {
      ApartTails(p, q);
      OthersKept(Child(t, p[0]), p[1..], v, q[1..], default);
      if Settled(default) {
        SettledDefault(q[2..], default);
      }
      if Has(t, q) {
        assert Has(t.children[q[0]], q[1..]);
        assert t.children[q[0]] == Child(t, q[0]);
        assert Has(Override(Child(t, p[0]), p[1..], v), q[1..]);
        assert Override(t, p, v).children[q[0]] == Override(Child(t, p[0]), p[1..], v);
      }
    } else if Has(t, q) {
      assert Override(t, p, v).children[q[0]] == t.children[q[0]];
    }
  }

  lemma {:induction false} SettledDefault(q: Path, default: Tree)
    requires Settled(default)
    ensures Lookup(default, q, default) == default
    decreases |q|
  {
    if q != [] && default.Node? {
      SettledDefault(q[1..], default);
    }
  }

  ghost predicate KeepsOthers(t: Tree, p: Path, v: Tree, q: Path, default: Tree)
    requires p != []
  {
    Lookup(Override(t, p, v), q, default) == Lookup(t, q, default)
  }

  /** No override is ever seen on a path apart from it if and only if the default is settled. */
  lemma OthersKeptIff(default: Tree)
    ensures (forall t, p, v, q :: Apart(p, q) ==> KeepsOthers(t, p, v, q, default)) <==> Settled(default)
  {
    if Settled(default) {
      forall t, p, v, q | Apart(p, q)
        ensures KeepsOthers(t, p, v, q, default)
      {
        OthersKept(t, p, v, q, default);
      }
    } else {
      var key :| key in default.children;
      MappingDefaultDiffers(default, key);
    }
  }

  lemma {:induction false} ChildDiffers(t: Tree, key: string)
    requires t.Node? && key in t.children
    ensures t.children[key] != t
  {
    var child := t.children[key];
    if child.Node? && key in child.children {
      ChildDiffers(child, key);
    }
  }

  /** With a key in the default, an override beside a path that leads nowhere is seen on it: the mapping
      made on the way takes the place of the default, and the read goes on in the default one key later. */
  lemma MappingDefaultDiffers(default: Tree, key: string)
    requires default.Node? && key in default.children
    ensures var p, q := ["a", key + "b"], ["a", key];
      && Apart(p, q)
      && Lookup(Node(map[]), q, default) == default.children[key] != default
      && Lookup(Override(Node(map[]), p, Leaf(NoValue)), q, default) == default
      && !KeepsOthers(Node(map[]), p, Leaf(NoValue), q, default)
  {
    ChildDiffers(default, key);
    var t, p, q := Node(map[]), ["a", key + "b"], ["a", key];
    assert p[1] != q[1];
    assert q[1..] == [key] && [key][1..] == [] && p[1..] == [key + "b"];
    assert Lookup(t, q, default) == Lookup(default, [key], default) == Lookup(default.children[key], [], default);
    var o := Override(t, p, Leaf(NoValue));
    assert o.children["a"] == Override(Node(map[]), [key + "b"], Leaf(NoValue));
    assert |key + "b"| == |key| + 1 && key !in o.children["a"].children;
    assert Lookup(o, q, default) == Lookup(o.children["a"], [key], default) == Lookup(default, [], default);
  }

  // ----------------------------------------------------------------------
  // Any number of overrides

  /** No path is a prefix of another; a path that occurs twice has one value. */
  ghost predicate PrefixFree(cs: seq<Change>) {
    forall c, d :: c in cs && d in cs ==> c.path != [] && (c == d || Apart(c.path, d.path))
  }

  lemma OverrideTwice(t: Tree, c: Change, d: Change)
    requires c.path != [] && d.path != [] && (c == d || Apart(c.path, d.path))
    ensures Override(Override(t, c.path, c.value), d.path, d.value) ==
              Override(Override(t, d.path, d.value), c.path, c.value)
  {
    if c != d {
      OverridesCommute(t, c.path, c.value, d.path, d.value);
    }
  }

  function Forward(cs: seq<Change>, i: nat): seq<Change>
    requires i < |cs|
  {
    [cs[i]] + cs[..i] + cs[i + 1..]
  }

  lemma ForwardParts(cs: seq<Change>, i: nat)
    requires 0 < i < |cs|
    ensures var moved := cs[1..][..i - 1] + cs[1..][i..];
      Forward(cs[1..], i - 1) == [cs[i]] + moved && Forward(cs, i) == [cs[i], cs[0]] + moved
  {}

  lemma OverlayCons(t: Tree, c: Change, cs: seq<Change>)
    requires c.path != [] && forall d :: d in cs ==> d.path != []
    ensures Overlay(t, [c] + cs) == Overlay(Override(t, c.path, c.value), cs)
  {
    assert ([c] + cs)[1..] == cs;
  }

  lemma Within(cs: seq<Change>, part: seq<Change>)
    requires PrefixFree(cs) && forall c :: c in part ==> c in cs
    ensures PrefixFree(part) && forall c :: c in part ==> c.path != []
  {}

  lemma SwapFront(t: Tree, c: Change, d: Change, cs: seq<Change>)
    requires c.path != [] && d.path != [] && (c == d || Apart(c.path, d.path))
    requires forall e :: e in cs ==> e.path != []
    ensures Overlay(t, [c] + ([d] + cs)) == Overlay(t, [d, c] + cs)
  {
    hide Override, Apart, Overlay;
    OverlayCons(t, c, [d] + cs);
    OverlayCons(Override(t, c.path, c.value), d, cs);
    OverrideTwice(t, c, d);
    OverlayCons(Override(t, d.path, d.value), c, cs);
    assert [d, c] + cs == [d] + ([c] + cs);
    OverlayCons(t, d, [c] + cs);
  }

  lemma {:induction false} BringForward(t: Tree, cs: seq<Change>, i: nat)
    requires PrefixFree(cs) && i < |cs|
    ensures forall c :: c in Forward(cs, i) ==> c in cs
    ensures Overlay(t, cs) == Overlay(t, Forward(cs, i))
    decreases |cs|
  {
    hide Override, Apart, Overlay;
    if i == 0 {
      assert Forward(cs, 0) == cs;
    } else {
      var rest := cs[1..];
      var moved := rest[..i - 1] + rest[i..];
      assert cs == [cs[0]] + rest && cs[0] in cs && cs[i] in cs;
      Within(cs, rest);
      Within(cs, moved);
      BringForward(Override(t, cs[0].path, cs[0].value), rest, i - 1);
      ForwardParts(cs, i);
      OverlayCons(t, cs[0], rest);
      OverlayCons(t, cs[0], [cs[i]] + moved);
      SwapFront(t, cs[0], cs[i], moved);
    }
  }

  /** Any of the overrides can be made first. */
  lemma MadeFirst(t: Tree, cs: seq<Change>, i: nat)
    requires PrefixFree(cs) && i < |cs|
    ensures var rest := cs[..i] + cs[i + 1..];
      && PrefixFree(rest) && cs[i].path != [] && (forall c :: c in rest ==> c.path != [])
      && Overlay(t, cs) == Overlay(Override(t, cs[i].path, cs[i].value), rest)
  {
    hide Override, Apart, Overlay;
    var rest := cs[..i] + cs[i + 1..];
    assert forall c :: c in rest ==> c in cs;
    Within(cs, rest);
    BringForward(t, cs, i);
    assert cs[i] in cs && Forward(cs, i) == [cs[i]] + rest;
    OverlayCons(t, cs[i], rest);
  }

  lemma SameRest<T>(a: seq<T>, b: seq<T>) returns (i: nat)
    requires multiset(a) == multiset(b) && a != []
    ensures i < |b| && b[i] == a[0] && multiset(a[..0] + a[1..]) == multiset(b[..i] + b[i + 1..])
  {
    assert a[0] in multiset(b);
    i :| 0 <= i < |b| && b[i] == a[0];
    WithoutOne(a, 0);
    WithoutOne(b, i);
  }

  /** The overrides give the same configuration in any order. */
  lemma {:induction false} OrderFree(t: Tree, a: seq<Change>, b: seq<Change>)
    requires PrefixFree(a) && PrefixFree(b) && multiset(a) == multiset(b)
    ensures Overlay(t, a) == Overlay(t, b)
    decreases |a|
  {
    hide Override, PrefixFree;
    if a == [] {
      assert |b| == |multiset(b)| == 0;
    } else {
      var i := SameRest(a, b);
      MadeFirst(t, a, 0);
      MadeFirst(t, b, i);
      OrderFree(Override(t, a[0].path, a[0].value), a[..0] + a[1..], b[..i] + b[i + 1..]);
    }
  }

  lemma MultisetSum<T>(first: seq<T>, tail: seq<T>, one: seq<T>, rest: seq<T>)
    requires multiset(tail) == multiset(one) + multiset(rest)
    ensures multiset(first + tail) == multiset(one) + multiset(first + rest)
  {}

  lemma {:induction false} ChangesWithout(env: seq<(string, string)>, i: nat)
    requires i < |env|
    ensures multiset(Changes(env)) == multiset(ChangeOf(env[i])) + multiset(Changes(env[..i] + env[i + 1..]))
  {
    hide ChangeOf;
    var first := ChangeOf(env[0]);
    assert Changes(env) == first + Changes(env[1..]);
    if i == 0 {
      assert env[..0] + env[1..] == env[1..];
    } else {
      var tail, rest := env[1..], env[..i] + env[i + 1..];
      ChangesWithout(tail, i - 1);
      assert rest[0] == env[0] && rest[1..] == tail[..i - 1] + tail[i..] && tail[i - 1] == env[i];
      assert Changes(rest) == first + Changes(rest[1..]);
      hide Changes;
      MultisetSum(first, Changes(tail), ChangeOf(env[i]), Changes(rest[1..]));
    }
  }

  lemma {:induction false} SameChanges(a: seq<(string, string)>, b: seq<(string, string)>)
    requires multiset(a) == multiset(b)
    ensures multiset(Changes(a)) == multiset(Changes(b))
    decreases |a|
  {
    hide Changes, ChangeOf;
    if a == [] {
      assert |b| == |multiset(b)| == 0;
    } else {
      var i := SameRest(a, b);
      ChangesWithout(a, 0);
      ChangesWithout(b, i);
      SameChanges(a[..0] + a[1..], b[..i] + b[i + 1..]);
    }
  }

  /** The environment gives the same configuration in whatever order it lists its variables. */
  lemma EnvironmentOrderFree(t: Tree, a: seq<(string, string)>, b: seq<(string, string)>)
    requires multiset(a) == multiset(b) && PrefixFree(Changes(a))
    ensures Overlay(t, Changes(a)) == Overlay(t, Changes(b))
  {
    hide Overlay, Changes;
    SameChanges(a, b);
    assert forall c :: c in Changes(b) ==> c in multiset(Changes(b));
    assert PrefixFree(Changes(b));
    OrderFree(t, Changes(a), Changes(b));
  }

  /** A path apart from all overrides reads as in the file. */
  lemma {:induction false} UntouchedPaths(t: Tree, cs: seq<Change>, q: Path, default: Tree)
    requires forall c :: c in cs ==> c.path != [] && Apart(c.path, q)
    requires Settled(default) || Has(t, q)
    ensures Lookup(Overlay(t, cs), q, default) == Lookup(t, q, default)
    ensures Has(t, q) ==> Has(Overlay(t, cs), q)
    decreases |cs|
  {
    if cs == [] {
    } else {
      assert cs[0] in cs;
      OthersKept(t, cs[0].path, cs[0].value, q, default);
      UntouchedPaths(Override(t, cs[0].path, cs[0].value), cs[1..], q, default);
    }
  }

  /** Each overridden path reads back its value, whatever else was overridden. */
  lemma OverriddenPaths(t: Tree, cs: seq<Change>, c: Change, default: Tree)
    requires PrefixFree(cs) && c in cs
    ensures Lookup(Overlay(t, cs), c.path, default) == c.value
  {
    var i :| 0 <= i < |cs| && cs[i] == c;
    BringForward(t, cs, i);
    var rest := cs[..i] + cs[i + 1..];
    assert Forward(cs, i) == [c] + rest && Forward(cs, i)[1..] == rest;
    assert forall d :: d in rest ==> d in cs;
    ReadsBack(t, c.path, c.value, default);
    KeepsValue(Override(t, c.path, c.value), rest, c, default);
  }

  lemma {:induction false} KeepsValue(t: Tree, cs: seq<Change>, c: Change, default: Tree)
    requires c.path != [] && Has(t, c.path) && Lookup(t, c.path, default) == c.value
    requires forall d :: d in cs ==> d.path != [] && (d == c || Apart(d.path, c.path))
    ensures Lookup(Overlay(t, cs), c.path, default) == c.value
    decreases |cs|
  {
    if cs == [] {
    } else {
      var d := cs[0];
      assert d in cs;
      if d == c {
        ReadsBack(t, c.path, c.value, default);
      } else {
        OthersKept(t, d.path, d.value, c.path, default);
      }
      KeepsValue(Override(t, d.path, d.value), cs[1..], c, default);
    }
  }
}
