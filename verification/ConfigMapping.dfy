/** Configuration mappings as they are in memory: objects that hold scalars and
    further mappings, changed in place. */
module ConfigMappings {
  import opened Options
  import opened ConfigOverlay

  datatype Item = Scalar(s: ConfigOverlay.Scalar) | Sub(m: Mapping)

  class Mapping {
    var items: map<string, Item>
    /** The mappings reachable from here. */
    ghost var Repr: set<Mapping>

    ghost predicate Owns(k: string)
      reads this, Repr
    {
      k in items && items[k].Sub? ==>
        items[k].m in Repr && items[k].m.Repr <= Repr && this !in items[k].m.Repr
    }

    /** A tree: no mapping is reached in two ways. */
    ghost predicate Valid()
      reads this, Repr
      decreases Repr
    {
      && this in Repr
      && (forall k :: k in items && items[k].Sub? ==> Owns(k) && items[k].m.Valid())
      && (forall j, k :: j in items && k in items && j != k && items[j].Sub? && items[k].Sub? ==>
            items[j].m.Repr !! items[k].m.Repr)
    }

    ghost function Value(): (t: Tree)
      requires Valid()
      reads this, Repr
      ensures t.Node? && t.children.Keys == items.Keys
      decreases Repr
    {
      Node(map k | k in items :: ItemValue(k))
    }

    ghost function ItemValue(k: string): Tree
      requires Valid() && k in items
      reads this, Repr
      decreases Repr, 0
    {
      match items[k]
      case Scalar(s) => Leaf(s)
      case Sub(m) => assert Owns(k); m.Value()
    }

    constructor ()
      ensures Valid() && fresh(Repr) && Value() == Node(map[])
    {
      items := map[];
      Repr := {this};
    }

    /** Sets a scalar; a mapping that was there is let go. */
    method Put(k: string, s: ConfigOverlay.Scalar)
      requires Valid()
      modifies this`items
      ensures Valid() && Repr == old(Repr)
      ensures Value() == Node(old(Value()).children[k := Leaf(s)])
    {
      items := items[k := Item.Scalar(s)];
    }

    /** Sets an empty mapping. */
    method PutEmpty(k: string) returns (child: Mapping)
      requires Valid()
      modifies this
      ensures Valid() && fresh(Repr - old(Repr)) && fresh(child)
      ensures k in items && items[k] == Sub(child)
      ensures Value() == Node(old(Value()).children[k := Node(map[])])
    {
      child := new Mapping();
      Attach(k, child);
    }

    /** The walk down to the last key, making mappings on the way. */
    method SetPath(path: Path, s: ConfigOverlay.Scalar)
      requires Valid() && path != []
      modifies Repr
      ensures Valid() && fresh(Repr - old(Repr))
      ensures Value() == Override(old(Value()), path, Leaf(s))
      decreases |path|, 0
    {
      var k := path[0];
      if |path| == 1 {
        Put(k, s);
        return;
      }
      if k !in items || !items[k].Sub? {
        var _ := PutEmpty(k);
      }
      SetBelow(k, path[1..], s);
    }

    method SetBelow(k: string, path: Path, s: ConfigOverlay.Scalar)
      requires Valid() && path != [] && k in items && items[k].Sub?
      modifies Repr
      ensures Valid() && fresh(Repr - old(Repr))
      ensures Value() == Node(old(Value()).children[k := Override(old(Value()).children[k], path, Leaf(s))])
      decreases |path|, 1
    {
      hide Override;
      var child := items[k].m;
      assert Owns(k);
      child.SetPath(path, s);
      Repr := Repr + child.Repr;
    }

    /** A copy that shares no mapping with the original. */
    method DeepCopy() returns (copy: Mapping)
      requires Valid()
      ensures copy.Valid() && fresh(copy.Repr) && copy.Value() == Value()
      decreases Repr
    {
      hide *;
      copy := new Mapping();
      var rest := items.Keys;
      while rest != {}
        invariant rest <= items.Keys
        invariant copy.Valid() && fresh(copy.Repr) && copy.Value().children.Keys == items.Keys - rest
        invariant forall k :: k in items && k !in rest ==> copy.Value().children[k] == Value().children[k]
      {
        var k :| k in rest;
        rest := rest - {k};
        CopyItem(k, copy);
      }
    }

    method CopyItem(k: string, copy: Mapping)
      requires Valid() && k in items && copy.Valid() && copy.Repr !! Repr
      modifies copy
      ensures copy.Valid() && fresh(copy.Repr - old(copy.Repr))
      ensures copy.Value() == Node(old(copy.Value()).children[k := Value().children[k]])
      decreases Repr, 0
    {
      match items[k]
      case Scalar(s) => copy.Put(k, s);
      case Sub(m) =>
        assert Owns(k);
        var child := m.DeepCopy();
        copy.Attach(k, child);
    }

    /** Hangs in another tree. */
    method Attach(k: string, child: Mapping)
      requires Valid() && child.Valid() && child.Repr !! Repr
      modifies this
      ensures Valid() && Repr == old(Repr) + child.Repr
      ensures child.Valid() && child.Value() == old(child.Value())
      ensures items == old(items)[k := Sub(child)]
      ensures Value() == Node(old(Value()).children[k := child.Value()])
    {
      items := items[k := Sub(child)];
      Repr := Repr + child.Repr;
    }
  }

  /** The configuration of the file with the environment laid over it; the file's own stays as it is. */
  method ApplyEnvOverrides(cfg: Mapping, env: seq<(string, string)>) returns (result: Mapping)
    requires cfg.Valid()
    ensures result.Valid() && fresh(result.Repr)
    ensures result.Value() == Overlay(cfg.Value(), Changes(env))
  {
    hide *;
    result := cfg.DeepCopy();
    assert env[0..] == env;
    for i := 0 to |env|
      invariant result.Valid() && fresh(result.Repr)
      invariant Overlay(result.Value(), Changes(env[i..])) == Overlay(cfg.Value(), Changes(env))
    {
      NextChange(result.Value(), env, i);
      var path := PathOf(env[i].0);
      if path == None {
        continue;
      }
      result.SetPath(path.value, Coerce(env[i].1));
    }
    NoChange(result.Value(), env);
  }

  lemma NoChange(t: Tree, env: seq<(string, string)>)
    ensures Overlay(t, Changes(env[|env|..])) == t
  {}

  /** Laying over from one variable on. */
  lemma NextChange(t: Tree, env: seq<(string, string)>, i: nat)
    requires i < |env|
    ensures PathOf(env[i].0).Some? ==> PathOf(env[i].0).value != []
    ensures Overlay(t, Changes(env[i..])) ==
            match PathOf(env[i].0)
            case None => Overlay(t, Changes(env[i + 1..]))
            case Some(path) => Overlay(Override(t, path, Leaf(Coerce(env[i].1))), Changes(env[i + 1..]))
  {
    assert env[i..][0] == env[i] && env[i..][1..] == env[i + 1..];
    var rest := Changes(env[i + 1..]);
    assert [] + rest == rest;
    if PathOf(env[i].0).Some? {
      OverlayCons(t, Change(PathOf(env[i].0).value, Leaf(Coerce(env[i].1))), rest);
    }
  }
}
