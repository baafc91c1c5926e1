/** Setting and erasing a path of the overrides table, with the pruning of emptied tables. */
module OverridePaths {
  import opened Wrappers
  import opened Toml

  /** `insertOverrideValue`: behaviours and filters are tables that come with the order of their keys. */
  datatype OverrideValue = Plain(node: Node) | Behaviors(table: Tree, order: Node) | Filters(table: Tree, order: Node) {
    /** What goes to the path itself. */
    function Main(): Node {
      if Plain? then node else table
    }
  }

  function InsertValue(t: Tree, key: string, v: OverrideValue): Tree {
    match v
    case Plain(node) => Table(t.entries[key := node])
    case Behaviors(table, order) =>
      var u := t.entries[key := table];
      Table(if key == "behavior" then u["behavior_order" := order] else u)
    case Filters(table, order) =>
      var u := t.entries[key := table];
      Table(if key == "filter" then u["filter_order" := order] else u)
  }

  /** `ensureTable`: the table at a key, or an empty one in place of what is there. */
  function TableAt(n: Tree, key: string): Tree {
    if key in n.entries && n.entries[key].Table? then n.entries[key] else EMPTY
  }

  function SetAt(n: Tree, path: Path, v: OverrideValue): Tree
    requires path != []
    decreases path
  {
    if |path| == 1 then InsertValue(n, path[0], v)
    else Table(n.entries[path[0] := SetAt(TableAt(n, path[0]), path[1..], v)])
  }

  // ----- erasing -----

  /** `erase` of the last key, without pruning. */
  function RemoveAt(n: Node, path: Path): Node
    requires path != []
  {
    if n.Leaf? || path[0] !in n.entries then n
    else if |path| == 1 then Table(n.entries - {path[0]})
    else Table(n.entries[path[0] := RemoveAt(n.entries[path[0]], path[1..])])
  }

  /** The table at `depth` is empty and may go; `level` is the depth of `n` itself. */
  predicate Prunable(n: Node, path: Path, level: nat, depth: nat, preserve: nat)
    requires depth <= |path|
  {
    depth > 0 && !(preserve > 0 && level + depth <= preserve) && Get(n, path[..depth]) == Some(EMPTY)
  }

  /** The pruning loop, from the table at `depth` upwards. */
  function PruneFrom(n: Node, path: Path, level: nat, depth: nat, preserve: nat): Node
    requires depth <= |path|
    decreases depth
  {
    if Prunable(n, path, level, depth, preserve)
    then PruneFrom(RemoveAt(n, path[..depth]), path, level, depth - 1, preserve)
    else n
  }

  /** `eraseOverridePath` top-down: an ancestor goes when what is left of it is empty. */
  function Erase(n: Node, path: Path, level: nat, preserve: nat): Node
    requires path != []
    decreases path
  {
    if n.Leaf? || path[0] !in n.entries then n
    else if |path| == 1 then Table(n.entries - {path[0]})
    else
      var child := Erase(n.entries[path[0]], path[1..], level + 1, preserve);
      if child == EMPTY && Get(n, path).Some? && !(preserve > 0 && level + 1 <= preserve)
      then Table(n.entries - {path[0]})
      else Table(n.entries[path[0] := child])
  }

  method PruneEmptyOverrideTables(root0: Tree, changedPath: Path, preserveDepth: nat) returns (root: Node)
    requires changedPath != []
    ensures root == PruneFrom(root0, changedPath, 0, |changedPath| - 1, preserveDepth)
  {
    root := root0;
    if |changedPath| < 2 {
      return;
    }
    var depth := |changedPath| - 1;
    while depth > 0
      invariant 0 <= depth < |changedPath|
      invariant PruneFrom(root, changedPath, 0, depth, preserveDepth)
             == PruneFrom(root0, changedPath, 0, |changedPath| - 1, preserveDepth)
    {
      if preserveDepth > 0 && depth <= preserveDepth {
        return;
      }
      var node := Get(root, changedPath[..depth]);
      if node.None? || node.value.Leaf? || node.value.entries != map[] {
        return;
      }
      root := RemoveAt(root, changedPath[..depth]);
      depth := depth - 1;
    }
  }

  method EraseOverridePath(root0: Tree, path: Path, preserveDepth: nat) returns (root: Tree, erased: bool)
    ensures erased == (path != [] && Get(root0, path).Some?) && (!erased ==> root == root0)
    ensures root == if path != [] then Erase(root0, path, 0, preserveDepth) else root0
  {
    root := root0;
    if path == [] {
      return root0, false;
    }
    if Get(root0, path).None? {
      EraseAbsent(root0, path, 0, preserveDepth);
      return root0, false;
    }
    PruningIsErase(root0, path, 0, preserveDepth);
    var removed := RemoveAt(root0, path);
    root := PruneEmptyOverrideTables(removed, path, preserveDepth);
    erased := true;
  }

  lemma {:induction false} EraseAbsent(n: Node, path: Path, level: nat, preserve: nat)
    requires path != [] && Get(n, path).None?
    ensures Erase(n, path, level, preserve) == n
    decreases path
  {
    if n.Table? && path[0] in n.entries && |path| > 1 {
      EraseAbsent(n.entries[path[0]], path[1..], level + 1, preserve);
      assert n.entries[path[0] := n.entries[path[0]]] == n.entries;
    }
  }

  /** Removing a key and pruning upwards is erasing downwards. */
  lemma {:induction false} PruningIsErase(n: Node, path: Path, level: nat, preserve: nat)
    requires path != [] && Get(n, path).Some?
    ensures PruneFrom(RemoveAt(n, path), path, level, |path| - 1, preserve) == Erase(n, path, level, preserve)
    decreases path
  {
    if |path| > 1 {
      var k, rest := path[0], path[1..];
      PruningIsErase(n.entries[k], rest, level + 1, preserve);
      GetAfterRemove(n, path);
      PruneDescends(RemoveAt(n, path), path, level, |path| - 1, preserve);
    }
  }

  /** Pruning below the first key is pruning in the child; then the child itself may go. */
  lemma {:induction false} PruneDescends(n: Node, path: Path, level: nat, depth: nat, preserve: nat)
    requires 1 <= depth < |path| && n.Table? && path[0] in n.entries && Get(n, path[..depth]).Some?
    ensures PruneFrom(n, path, level, depth, preserve)
         == var child := PruneFrom(n.entries[path[0]], path[1..], level + 1, depth - 1, preserve);
            if child == EMPTY && !(preserve > 0 && level + 1 <= preserve) then Table(n.entries - {path[0]})
            else Table(n.entries[path[0] := child])
    decreases depth
  {
    var k, rest, c := path[0], path[1..], n.entries[path[0]];
    assert path[..depth][0] == k && path[..depth][1..] == rest[..depth - 1];
    if depth == 1 {
      assert path[..1] == [k];
      assert n.entries[k := c] == n.entries;
    } else if Prunable(n, path, level, depth, preserve) {
      assert Prunable(c, rest, level + 1, depth - 1, preserve);
      var m := RemoveAt(n, path[..depth]);
      assert m == Table(n.entries[k := RemoveAt(c, rest[..depth - 1])]);
      GetAfterRemove(n, path[..depth]);
      assert path[..depth][..depth - 1] == path[..depth - 1];
      PruneDescends(m, path, level, depth - 1, preserve);
    } else {
      assert n.entries[k := c] == n.entries;
    }
  }

  /** What is above a removed node stays. */
  lemma {:induction false} GetAfterRemove(n: Node, path: Path)
    requires path != [] && Get(n, path).Some?
    ensures Get(RemoveAt(n, path), path[..|path| - 1]).Some?
    decreases path
  {
    if |path| > 1 {
      assert path[..|path| - 1][1..] == path[1..][..|path| - 2];
      GetAfterRemove(n.entries[path[0]], path[1..]);
    }
  }

  // ----- what setting and erasing do to the tree -----

  predicate Unrelated(p: Path, q: Path) {
    !(p <= q) && !(q <= p)
  }

  /** A path with another last key. */
  function Beside(path: Path, key: string): Path
    requires path != []
  {
    path[..|path| - 1] + [key]
  }

  /** Where the order goes that is written along with behaviours and filters. */
  function OrderPath(path: Path, v: OverrideValue): Option<Path>
    requires path != []
  {
    var key := path[|path| - 1];
    if v.Behaviors? && key == "behavior" then Some(Beside(path, "behavior_order"))
    else if v.Filters? && key == "filter" then Some(Beside(path, "filter_order"))
    else None
  }

  lemma BesideDescends(path: Path, key: string)
    requires |path| > 1
    ensures Beside(path, key) == [path[0]] + Beside(path[1..], key)
    ensures Beside(path, key)[1..] == Beside(path[1..], key)
  {
  }

  /** Setting a value is setting its table and then the order of its keys, if it comes with one. */
  lemma {:induction false} SetInTwoSteps(n: Tree, path: Path, v: OverrideValue)
    requires path != []
    ensures SetAt(n, path, v)
         == var main := SetAt(n, path, Plain(v.Main()));
            if OrderPath(path, v).Some? then SetAt(main, OrderPath(path, v).value, Plain(v.order)) else main
    decreases path
  {
    if |path| > 1 {
      SetInTwoSteps(TableAt(n, path[0]), path[1..], v);
      var main := SetAt(n, path, Plain(v.Main()));
      if OrderPath(path, v).Some? {
        BesideDescends(path, OrderPath(path[1..], v).value[|path| - 2]);
        assert main.entries[path[0] := SetAt(n, path, v).entries[path[0]]] == SetAt(n, path, v).entries;
      }
    }
  }

  lemma {:induction false} PlainReadsBack(n: Tree, path: Path, v: Node)
    requires path != []
    ensures Get(SetAt(n, path, Plain(v)), path) == Some(v)
    decreases path
  {
    if |path| > 1 {
      PlainReadsBack(TableAt(n, path[0]), path[1..], v);
    }
  }

  lemma {:induction false} PlainKeepsUnrelated(n: Tree, path: Path, v: Node, q: Path)
    requires path != [] && Unrelated(path, q)
    ensures Get(SetAt(n, path, Plain(v)), q) == Get(n, q)
    decreases path
  {
    if q[0] == path[0] {
      assert path == [path[0]] + path[1..] && q == [q[0]] + q[1..];
      PlainKeepsUnrelated(TableAt(n, path[0]), path[1..], v, q[1..]);
    }
  }

  lemma OrderIsBeside(path: Path, v: OverrideValue)
    requires path != [] && OrderPath(path, v).Some?
    ensures Unrelated(path, OrderPath(path, v).value)
  {
    var w := OrderPath(path, v).value;
    assert |w| == |path| && w[|path| - 1] != path[|path| - 1];
  }

  /** A value that was set is found at its path, and the order it comes with beside it. */
  lemma SetReadsBack(n: Tree, path: Path, v: OverrideValue)
    requires path != []
    ensures Get(SetAt(n, path, v), path) == Some(v.Main())
    ensures OrderPath(path, v).Some? ==> Get(SetAt(n, path, v), OrderPath(path, v).value) == Some(v.order)
  {
    var main := SetAt(n, path, Plain(v.Main()));
    SetInTwoSteps(n, path, v);
    PlainReadsBack(n, path, v.Main());
    if OrderPath(path, v).Some? {
      OrderIsBeside(path, v);
      PlainReadsBack(main, OrderPath(path, v).value, v.order);
      PlainKeepsUnrelated(main, OrderPath(path, v).value, v.order, path);
    }
  }

  /** Setting a value there leaves this path as it is. */
  predicate Spares(path: Path, v: OverrideValue, q: Path)
    requires path != []
  {
    Unrelated(path, q) && (OrderPath(path, v).Some? ==> Unrelated(OrderPath(path, v).value, q))
  }

  /** Of the unrelated paths, setting changes those of the order that comes with the value, and no other. */
  lemma SetKeepsUnrelated(n: Tree, path: Path, v: OverrideValue, q: Path)
    requires path != [] && Unrelated(path, q)
    ensures Spares(path, v, q) ==> Get(SetAt(n, path, v), q) == Get(n, q)
    ensures !Spares(path, v, q) ==>
      OrderPath(path, v).value <= q && Get(SetAt(n, path, v), q) == Get(v.order, q[|path|..])
  {
    SetInTwoSteps(n, path, v);
    PlainKeepsUnrelated(n, path, v.Main(), q);
    if OrderPath(path, v).Some? {
      var main, w := SetAt(n, path, Plain(v.Main())), OrderPath(path, v).value;
      if Unrelated(w, q) {
        PlainKeepsUnrelated(main, w, v.order, q);
      } else {
        assert w[..|w| - 1] == path[..|path| - 1];
        PlainReadsBack(main, w, v.order);
        GetBelow(SetAt(n, path, v), w, q);
      }
    }
  }

  lemma {:induction false} GetBelow(n: Node, path: Path, q: Path)
    requires path <= q && Get(n, path).Some?
    ensures Get(n, q) == Get(Get(n, path).value, q[|path|..])
    decreases path
  {
    if path != [] {
      assert path[1..] <= q[1..] && q[1..][|path| - 1..] == q[|path|..];
      GetBelow(n.entries[path[0]], path[1..], q[1..]);
    }
  }

  lemma {:induction false} EraseKeepsUnrelated(n: Node, path: Path, level: nat, preserve: nat, q: Path)
    requires path != [] && Unrelated(path, q)
    ensures Get(Erase(n, path, level, preserve), q) == Get(n, q)
    decreases path
  {
    if n.Table? && path[0] in n.entries && q[0] == path[0] {
      assert path == [path[0]] + path[1..] && q == [q[0]] + q[1..];
      EraseKeepsUnrelated(n.entries[path[0]], path[1..], level + 1, preserve, q[1..]);
    }
  }

  lemma {:induction false} EraseRemovesBelow(n: Node, path: Path, level: nat, preserve: nat, q: Path)
    requires path != [] && path <= q
    ensures Get(Erase(n, path, level, preserve), q) == None
    decreases path
  {
    if n.Table? && path[0] in n.entries && |path| > 1 {
      assert path[1..] <= q[1..];
      EraseRemovesBelow(n.entries[path[0]], path[1..], level + 1, preserve, q[1..]);
    }
  }

  /** The tables down the path hold nothing but the path, and none of them is preserved. */
  predicate Solely(n: Node, path: Path, level: nat, preserve: nat)
    decreases path
  {
    && path != [] && n.Table? && n.entries.Keys == {path[0]}
    && !(preserve > 0 && level <= preserve)
    && (|path| == 1 || Solely(n.entries[path[0]], path[1..], level + 1, preserve))
  }

  lemma {:induction false} ErasesToEmpty(n: Node, path: Path, level: nat, preserve: nat)
    requires path != [] && Get(n, path).Some?
    ensures Erase(n, path, level, preserve) == EMPTY && !(preserve > 0 && level <= preserve)
            <==> Solely(n, path, level, preserve)
    decreases path
  {
    var left := n.entries - {path[0]};
    assert left == map[] <==> n.entries.Keys == {path[0]} by {
      assert left.Keys == n.entries.Keys - {path[0]};
      assert left == map[] <==> left.Keys == {};
    }
    if |path| > 1 {
      ErasesToEmpty(n.entries[path[0]], path[1..], level + 1, preserve);
    }
  }

  /** Erasing prunes exactly the ancestors that held nothing but the erased path, none at or above the
      preserved depth; the others stay. `j` keys of the path lead to the ancestor. */
  lemma {:induction false} ErasePrunesExactly(n: Node, path: Path, level: nat, preserve: nat, j: nat)
    requires 1 <= j < |path| && Get(n, path).Some?
    ensures Get(n, path[..j]).Some?
    ensures Get(Erase(n, path, level, preserve), path[..j]).None?
            <==> Solely(Get(n, path[..j]).value, path[j..], level + j, preserve)
    decreases path
  {
    var child, rest := n.entries[path[0]], path[1..];
    assert path[..j][1..] == rest[..j - 1] && path[j..] == rest[j - 1..];
    ErasesToEmpty(child, rest, level + 1, preserve);
    if j > 1 {
      ErasePrunesExactly(child, rest, level + 1, preserve, j - 1);
      if Solely(child, rest, level + 1, preserve) {
        SolelyDescends(child, rest, level + 1, preserve, j - 1);
      }
    }
  }

  lemma {:induction false} SolelyDescends(n: Node, path: Path, level: nat, preserve: nat, j: nat)
    requires 1 <= j < |path| && Get(n, path).Some? && Get(n, path[..j]).Some? && Solely(n, path, level, preserve)
    ensures Solely(Get(n, path[..j]).value, path[j..], level + j, preserve)
    decreases path
  {
    var child, rest := n.entries[path[0]], path[1..];
    assert path[..j][1..] == rest[..j - 1] && path[j..] == rest[j - 1..];
    if j > 1 {
      SolelyDescends(child, rest, level + 1, preserve, j - 1);
    } else {
      assert path[..1][1..] == [];
    }
  }

  // ----- setting, then erasing -----

  /** The path is absent, its ancestors are tables, an ancestor that would be pruned is not empty, and no
      ancestor that erasing preserves is missing. */
  predicate Restorable(n: Node, path: Path, level: nat, preserve: nat)
    requires path != []
    decreases path
  {
    n.Table? &&
    if path[0] !in n.entries then |path| == 1 || !(preserve > 0 && level + 1 <= preserve)
    else
      |path| > 1 && Restorable(n.entries[path[0]], path[1..], level + 1, preserve)
      && (n.entries[path[0]] != EMPTY || (preserve > 0 && level + 1 <= preserve))
  }

  lemma {:induction false} FreshPathErases(path: Path, v: Node, level: nat, preserve: nat)
    requires path != []
    ensures Get(SetAt(EMPTY, path, Plain(v)), path).Some?
    ensures !(preserve > 0 && level <= preserve) ==> Erase(SetAt(EMPTY, path, Plain(v)), path, level, preserve) == EMPTY
    decreases path
  {
    if |path| > 1 {
      FreshPathErases(path[1..], v, level + 1, preserve);
    }
  }

  lemma {:induction false} PlainRestores(n: Tree, path: Path, v: Node, level: nat, preserve: nat)
    requires path != []
    ensures Erase(SetAt(n, path, Plain(v)), path, level, preserve) == n <==> Restorable(n, path, level, preserve)
    decreases path
  {
    var k, m := path[0], SetAt(n, path, Plain(v));
    PlainReadsBack(n, path, v);
    var e := Erase(m, path, level, preserve);
    if |path| == 1 {
      assert m.entries - {k} == n.entries - {k};
      if k !in n.entries {
        assert n.entries - {k} == n.entries;
      }
    } else {
      var rest, c := path[1..], TableAt(n, k);
      PlainRestores(c, rest, v, level + 1, preserve);
      FreshPathErases(rest, v, level + 1, preserve);
      var child := Erase(m.entries[k], rest, level + 1, preserve);
      assert m.entries - {k} == n.entries - {k};
      if k !in n.entries {
        assert n.entries - {k} == n.entries;
      } else if child == n.entries[k] {
        assert m.entries[k := child] == n.entries;
      }
      assert e == n ==> (k in e.entries <==> k in n.entries);
    }
  }

  lemma {:induction false} RestorableIsAbsent(n: Node, path: Path, level: nat, preserve: nat)
    requires path != [] && Restorable(n, path, level, preserve)
    ensures Get(n, path).None?
    decreases path
  {
    if path[0] in n.entries {
      RestorableIsAbsent(n.entries[path[0]], path[1..], level + 1, preserve);
    }
  }

  /** Erasing an absent path after setting it leaves the order that was written along. */
  lemma {:induction false} EraseLeavesOrder(n: Tree, path: Path, v: OverrideValue, level: nat, preserve: nat)
    requires path != [] && Get(n, path).None? && OrderPath(path, v).Some?
    ensures Erase(SetAt(n, path, v), path, level, preserve) == SetAt(n, OrderPath(path, v).value, Plain(v.order))
    decreases path
  {
    var m, w := SetAt(n, path, v), OrderPath(path, v).value;
    SetReadsBack(n, path, v);
    if |path| == 1 {
      assert m.entries - {path[0]} == n.entries[w[0] := v.order];
    } else {
      var k := path[0];
      BesideDescends(path, w[|path| - 1]);
      EraseLeavesOrder(TableAt(n, k), path[1..], v, level + 1, preserve);
      var child := SetAt(TableAt(n, k), w[1..], Plain(v.order));
      assert child.entries != map[] by {
        PlainReadsBack(TableAt(n, k), w[1..], v.order);
      }
      assert m.entries[k := child] == n.entries[k := child];
    }
  }

  lemma SetToTheSame(n: Tree, path: Path, v: Node)
    requires path != [] && Get(n, path) == Some(v)
    ensures SetAt(n, path, Plain(v)) == n
    decreases path
  {
    if |path| > 1 {
      SetToTheSame(n.entries[path[0]], path[1..], v);
    }
    assert n.entries[path[0] := n.entries[path[0]]] == n.entries;
  }

  /** Setting a path and erasing it again restores the tree exactly when the path is restorable; when an order was
      written along, exactly when the path was absent and that very order was there. */
  lemma SetThenEraseRestores(n: Tree, path: Path, v: OverrideValue, level: nat, preserve: nat)
    requires path != []
    ensures Erase(SetAt(n, path, v), path, level, preserve) == n
            <==> if OrderPath(path, v).Some? then Get(n, path).None? && Get(n, OrderPath(path, v).value) == Some(v.order)
                 else Restorable(n, path, level, preserve)
  {
    var m := SetAt(n, path, v);
    var e := Erase(m, path, level, preserve);
    SetInTwoSteps(n, path, v);
    if OrderPath(path, v).None? {
      PlainRestores(n, path, v.Main(), level, preserve);
    } else {
      var w := OrderPath(path, v).value;
      OrderIsBeside(path, v);
      SetReadsBack(n, path, v);
      EraseRemovesBelow(m, path, level, preserve, path);
      EraseKeepsUnrelated(m, path, level, preserve, w);
      if Get(n, path).None? && Get(n, w) == Some(v.order) {
        EraseLeavesOrder(n, path, v, level, preserve);
        SetToTheSame(n, w, v.order);
      }
    }
  }

  // ----- setting, then clearing -----

  /** The order of the idle behaviours goes with them; that of the notification filters does not. */
  function Companion(path: Path): Option<Path> {
    if path == ["idle", "behavior"] then Some(["idle", "behavior_order"]) else None
  }

  function EraseWithCompanion(t: Tree, path: Path, companion: Option<Path>, preserve: nat): Tree {
    if path == [] then t
    else
      var erased := Erase(t, path, 0, preserve);
      if companion.Some? && companion.value != [] then Erase(erased, companion.value, 0, preserve) else erased
  }

  /** Clearing the idle behaviours leaves neither them nor their order, and clearing any other path is erasing it alone. */
  lemma IdleOrderGoes(t: Tree, path: Path, preserve: nat)
    requires path != []
    ensures path == ["idle", "behavior"] ==>
      var cleared := EraseWithCompanion(t, path, Companion(path), preserve);
      Get(cleared, ["idle", "behavior"]).None? && Get(cleared, ["idle", "behavior_order"]).None?
    ensures path != ["idle", "behavior"] ==>
      EraseWithCompanion(t, path, Companion(path), preserve) == Erase(t, path, 0, preserve)
  {
    if path == ["idle", "behavior"] {
      var order := ["idle", "behavior_order"];
      var erased := Erase(t, path, 0, preserve);
      assert path[1] != order[1];
      EraseRemovesBelow(t, path, 0, preserve, path);
      EraseKeepsUnrelated(erased, order, 0, preserve, path);
      EraseRemovesBelow(erased, order, 0, preserve, order);
    }
  }

  /** What the tree has to be for clearing to undo setting. */
  predicate Undoable(n: Tree, path: Path, v: OverrideValue, preserve: nat)
    requires path != []
  {
    if Companion(path).Some? then Restorable(n, path, 0, preserve) && Get(n, Companion(path).value).None?
    else if OrderPath(path, v).Some? then Get(n, path).None? && Get(n, OrderPath(path, v).value) == Some(v.order)
    else Restorable(n, path, 0, preserve)
  }

  /** Absent paths with the same parents are restorable together. */
  lemma {:induction false} RestorableBeside(n: Node, path: Path, key: string, level: nat, preserve: nat)
    requires path != [] && Get(n, path).None? && Get(n, Beside(path, key)).None?
    ensures Restorable(n, path, level, preserve) <==> Restorable(n, Beside(path, key), level, preserve)
    decreases path
  {
    if |path| > 1 {
      BesideDescends(path, key);
      if n.Table? && path[0] in n.entries {
        RestorableBeside(n.entries[path[0]], path[1..], key, level + 1, preserve);
      }
    }
  }

  /** Clearing a path that was set restores the tree exactly when it was undoable, for every value. */
  lemma SetThenClearRestores(n: Tree, path: Path, v: OverrideValue, preserve: nat)
    requires path != []
    ensures EraseWithCompanion(SetAt(n, path, v), path, Companion(path), preserve) == n <==> Undoable(n, path, v, preserve)
  {
    SetThenEraseRestores(n, path, v, 0, preserve);
    if Companion(path).Some? {
      var m, c := SetAt(n, path, v), Companion(path).value;
      var e := Erase(m, path, 0, preserve);
      var cleared := Erase(e, c, 0, preserve);
      assert c == Beside(path, "behavior_order") && Unrelated(path, c);
      EraseRemovesBelow(e, c, 0, preserve, c);
      EraseRemovesBelow(m, path, 0, preserve, path);
      EraseKeepsUnrelated(e, c, 0, preserve, path);
      if Get(n, path).None? && Get(n, c).None? {
        if OrderPath(path, v).Some? {
          EraseLeavesOrder(n, path, v, 0, preserve);
          PlainRestores(n, c, v.order, 0, preserve);
          RestorableBeside(n, path, "behavior_order", 0, preserve);
        } else {
          SetKeepsUnrelated(n, path, v, c);
          EraseKeepsUnrelated(m, path, 0, preserve, c);
          EraseAbsent(e, c, 0, preserve);
        }
      }
      if Restorable(n, path, 0, preserve) {
        RestorableIsAbsent(n, path, 0, preserve);
      }
    }
  }

  const FILTER: Path := ["notification", "filter"]

  /** The filters of an empty table are set and cleared: the order of their keys stays behind. */
  lemma ClearedFiltersLeaveTheirOrder(table: Tree, order: Node, preserve: nat)
    ensures EraseWithCompanion(SetAt(EMPTY, FILTER, Filters(table, order)), FILTER, Companion(FILTER), preserve)
         == Table(map["notification" := Table(map["filter_order" := order])])
    ensures Restorable(EMPTY, FILTER, 0, 0) && !Undoable(EMPTY, FILTER, Filters(table, order), 0)
  {
    var v, rest := Filters(table, order), FILTER[1..];
    assert rest == ["filter"] && Beside(rest, "filter_order") == ["filter_order"];
    assert OrderPath(rest, v) == Some(["filter_order"]);
    BesideDescends(FILTER, "filter_order");
    assert Beside(FILTER, "filter_order") == ["notification", "filter_order"];
    assert OrderPath(FILTER, v) == Some(["notification", "filter_order"]);
    EraseLeavesOrder(EMPTY, FILTER, v, 0, preserve);
    assert SetAt(EMPTY, ["filter_order"], Plain(order)) == Table(map["filter_order" := order]);
    assert ["notification", "filter_order"][1..] == ["filter_order"];
  }

  /** Without a preserved depth: an absent path, no proper prefix of which is a leaf or an empty table. */
  lemma {:induction false} RestorableWithoutPreserve(n: Node, path: Path, level: nat)
    requires path != []
    ensures Restorable(n, path, level, 0)
            <==> n.Table? && Get(n, path).None?
                 && forall j :: 1 <= j < |path| && Get(n, path[..j]).Some? ==>
                      Get(n, path[..j]).value.Table? && Get(n, path[..j]).value != EMPTY
    decreases path
  {
    if n.Table? && path[0] in n.entries && |path| > 1 {
      var child, rest := n.entries[path[0]], path[1..];
      RestorableWithoutPreserve(child, rest, level + 1);
      assert forall j :: 1 <= j < |path| ==> path[..j][0] == path[0] && path[..j][1..] == rest[..j - 1];
      assert Get(n, path[..1]) == Some(child);
      forall j | 1 <= j < |rest|
        ensures Get(child, rest[..j]) == Get(n, path[..j + 1])
      {
        assert path[..j + 1][1..] == rest[..j];
      }
    }
  }
}
