/** TOML tables as finite trees, and `deepMerge`, the right-biased overlay of one on another. */
module Toml {
  import opened Wrappers

  datatype Value = Bool(b: bool) | Int(i: int) | Float(f: real) | Str(s: string) | Arr(items: seq<Node>) | Date

  /** Arrays are leaves: `deepMerge` never looks into them. */
  datatype Node = Leaf(value: Value) | Table(entries: map<string, Node>)

  type Tree = n: Node | n.Table? witness Table(map[])

  const EMPTY: Tree := Table(map[])

  type Path = seq<string>

  /** The node at a path. */
  function Get(n: Node, path: Path): Option<Node> {
    if path == [] then Some(n)
    else if n.Table? && path[0] in n.entries then Get(n.entries[path[0]], path[1..])
    else None
  }

  // ----- the overlay -----

  function Merge(base: Node, overlay: Node): (merged: Node)
    ensures overlay.Table? ==> merged.Table?
    decreases base
  {
    if base.Table? && overlay.Table? then
      Table(map k | k in base.entries.Keys + overlay.entries.Keys ::
              if k !in overlay.entries then base.entries[k]
              else if k in base.entries then Merge(base.entries[k], overlay.entries[k])
              else overlay.entries[k])
    else overlay
  }

  /** `deepMerge`: the keys of the overlay, in whatever order, go into the base one by one. */
  method DeepMerge(base0: Tree, overlay: Tree) returns (base: Tree)
    ensures base == Merge(base0, overlay)
    decreases overlay
  {
    base := base0;
    var keys := overlay.entries.Keys;
    while keys != {}
      invariant keys <= overlay.entries.Keys
      invariant base.entries.Keys == base0.entries.Keys + (overlay.entries.Keys - keys)
      invariant forall k :: k in base.entries ==>
        base.entries[k] == if k in overlay.entries.Keys - keys then Merge(base0, overlay).entries[k] else base0.entries[k]
      decreases keys
    {
      var k :| k in keys;
      var v := overlay.entries[k];
      keys := keys - {k};
      if v.Table? && k in base.entries && base.entries[k].Table? {
        var merged := DeepMerge(base.entries[k], v);
        base := Table(base.entries[k := merged]);
      } else {
        base := Table(base.entries[k := v]);
      }
    }
    assert base.entries == Merge(base0, overlay).entries;
  }

  // ----- algebra -----

  lemma {:induction false} MergeIdempotent(a: Node)
    ensures Merge(a, a) == a
    decreases a
  {
    if a.Table? {
      forall k | k in a.entries
        ensures Merge(a.entries[k], a.entries[k]) == a.entries[k]
      {
        MergeIdempotent(a.entries[k]);
      }
      assert Merge(a, a).entries == a.entries;
    }
  }

  lemma EmptyIsIdentity(a: Tree)
    ensures Merge(EMPTY, a) == a && Merge(a, EMPTY) == a
  {
    assert Merge(EMPTY, a).entries == a.entries;
    assert Merge(a, EMPTY).entries == a.entries;
  }

  /** An overlay already present, below or above, adds nothing. */
  lemma {:induction false} MergeAbsorbs(a: Node, b: Node)
    ensures Merge(a, Merge(a, b)) == Merge(a, b)
    ensures Merge(Merge(a, b), b) == Merge(a, b)
    decreases a
  {
    if a.Table? && b.Table? {
      var m := Merge(a, b);
      forall k | k in m.entries
        ensures Merge(a, m).entries[k] == m.entries[k] && Merge(m, b).entries[k] == m.entries[k]
      {
        if k !in b.entries {
          MergeIdempotent(a.entries[k]);
        } else if k in a.entries {
          MergeAbsorbs(a.entries[k], b.entries[k]);
        } else {
          MergeIdempotent(b.entries[k]);
        }
      }
      assert Merge(a, m).entries == m.entries && Merge(m, b).entries == m.entries;
    } else {
      MergeIdempotent(b);
    }
  }

  /** A prefix of the path ends at a leaf. */
  predicate LeafAbove(n: Node, path: Path) {
    n.Leaf? || (path != [] && path[0] in n.entries && LeafAbove(n.entries[path[0]], path[1..]))
  }

  /** What is at a path after merging, from what was there before. */
  lemma {:induction false} MergeAtPath(a: Tree, b: Tree, path: Path)
    ensures Get(Merge(a, b), path)
         == match Get(b, path)
            case Some(vb) => (match Get(a, path) case Some(va) => Some(Merge(va, vb)) case None => Some(vb))
            case None => if LeafAbove(b, path) then None else Get(a, path)
    decreases path
  {
    if path != [] && path[0] in a.entries && path[0] in b.entries {
      var x, y := a.entries[path[0]], b.entries[path[0]];
      if x.Table? && y.Table? {
        MergeAtPath(x, y, path[1..]);
      }
    }
  }

  /** Every leaf of the overlay wins at its path. */
  lemma OverlayLeafWins(a: Tree, b: Tree, path: Path)
    requires Get(b, path).Some? && Get(b, path).value.Leaf?
    ensures Get(Merge(a, b), path) == Get(b, path)
  {
    MergeAtPath(a, b, path);
  }

  // ----- associativity -----

  /** `c` has everything `a` has: wherever both are tables, the keys of `a` are keys of `c`. */
  predicate Covers(c: Node, a: Node)
    decreases a
  {
    a.Table? && c.Table? ==>
      a.entries.Keys <= c.entries.Keys && forall k <- a.entries :: Covers(c.entries[k], a.entries[k])
  }

  lemma {:induction false} CoversIffNothingAdded(a: Node, c: Node)
    ensures Merge(a, c) == c <==> Covers(c, a)
    decreases a
  {
    if a.Table? && c.Table? {
      forall k | k in a.entries && k in c.entries
        ensures Merge(a.entries[k], c.entries[k]) == c.entries[k] <==> Covers(c.entries[k], a.entries[k])
      {
        CoversIffNothingAdded(a.entries[k], c.entries[k]);
      }
      if Merge(a, c) == c {
        assert Merge(a, c).entries == c.entries;
        assert forall k <- a.entries :: k in Merge(a, c).entries;
      }
      if Covers(c, a) {
        assert Merge(a, c).entries == c.entries;
      }
    }
  }

  /** No leaf of `b` separates a table of `a` from a table of `c` that lacks some of it. */
  predicate Associates(a: Node, b: Node, c: Node)
    decreases a
  {
    c.Leaf? || a.Leaf?
    || (if b.Leaf? then Covers(c, a)
        else forall k <- a.entries :: k in b.entries && k in c.entries ==> Associates(a.entries[k], b.entries[k], c.entries[k]))
  }

  /** `deepMerge` is associative on three trees exactly when they associate. */
  lemma {:induction false} AssociativeExactlyWhen(a: Node, b: Node, c: Node)
    ensures Merge(Merge(a, b), c) == Merge(a, Merge(b, c)) <==> Associates(a, b, c)
    decreases a
  {
    if a.Table? && b.Leaf? && c.Table? {
      CoversIffNothingAdded(a, c);
    } else if a.Table? && b.Table? && c.Table? {
      var left, right := Merge(Merge(a, b), c), Merge(a, Merge(b, c));
      assert left.entries.Keys == right.entries.Keys;
      forall k | k in left.entries
        ensures left.entries[k] == right.entries[k]
                <==> (k in a.entries && k in b.entries && k in c.entries ==>
                        Associates(a.entries[k], b.entries[k], c.entries[k]))
      {
        if k in a.entries && k in b.entries && k in c.entries {
          AssociativeExactlyWhen(a.entries[k], b.entries[k], c.entries[k]);
        }
      }
      if Associates(a, b, c) {
        assert left.entries == right.entries;
      }
      if left == right {
        assert forall k <- a.entries :: k in left.entries;
      }
    }
  }

  /** No path is a table in one and a leaf in the other. */
  predicate Compatible(a: Node, b: Node)
    decreases a
  {
    if a.Table? then
      b.Table? && forall k <- a.entries :: k in b.entries ==> Compatible(a.entries[k], b.entries[k])
    else b.Leaf?
  }

  lemma {:induction false} CompatibleAssociates(a: Node, b: Node, c: Node)
    requires Compatible(b, c)
    ensures Associates(a, b, c)
    decreases a
  {
    if a.Table? && b.Table? {
      forall k | k in a.entries && k in b.entries && k in c.entries
        ensures Associates(a.entries[k], b.entries[k], c.entries[k])
      {
        CompatibleAssociates(a.entries[k], b.entries[k], c.entries[k]);
      }
    }
  }

  lemma MergeAssociative(a: Node, b: Node, c: Node)
    requires Compatible(b, c)
    ensures Merge(Merge(a, b), c) == Merge(a, Merge(b, c))
  {
    CompatibleAssociates(a, b, c);
    AssociativeExactlyWhen(a, b, c);
  }

  lemma {:induction false} MergeCompatible(a: Node, b: Node, c: Node)
    requires Compatible(a, c) && Compatible(b, c)
    ensures Compatible(Merge(a, b), c)
    decreases a
  {
    if a.Table? {
      var m := Merge(a, b);
      forall k | k in m.entries && k in c.entries
        ensures Compatible(m.entries[k], c.entries[k])
      {
        if k in a.entries && k in b.entries {
          MergeCompatible(a.entries[k], b.entries[k], c.entries[k]);
        }
      }
    }
  }

  /** A table, then a leaf, then a table at the same key: grouping decides whether the first table survives. */
  lemma NotAssociative()
    ensures var a: Node := Table(map["k" := Table(map["x" := Leaf(Int(1))])]);
            var b: Node := Table(map["k" := Leaf(Int(2))]);
            var c: Node := Table(map["k" := Table(map["y" := Leaf(Int(3))])]);
            Merge(Merge(a, b), c) != Merge(a, Merge(b, c))
  {
    var a: Node := Table(map["k" := Table(map["x" := Leaf(Int(1))])]);
    var b: Node := Table(map["k" := Leaf(Int(2))]);
    var c: Node := Table(map["k" := Table(map["y" := Leaf(Int(3))])]);
    assert "x" in a.entries["k"].entries && "x" !in c.entries["k"].entries by {
      assert "x" != "y";
    }
    assert !Covers(c.entries["k"], a.entries["k"]);
    assert !Associates(a.entries["k"], b.entries["k"], c.entries["k"]);
    AssociativeExactlyWhen(a, b, c);
  }
}
