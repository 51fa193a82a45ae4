/**
  Parent links as a value: a map from every node to the node it hangs under, if any.
  The forest of GNodes is abstracted to such a map, and the reachability theorem of the
  components list is proved here, once, for every table of links.
 */
module ParentLinks {
  import opened Options

  ghost predicate Closed<T>(up: map<T, Option<T>>) {
    forall n | n in up && up[n].Some? :: up[n].value in up
  }

  /** The node reached from `n` by following `d` parent links. */
  ghost function Ancestor<T>(up: map<T, Option<T>>, n: T, d: nat): (a: Option<T>)
    requires Closed(up) && n in up
    ensures a.Some? ==> a.value in up
  {
    if d == 0 then Some(n)
    else match up[n]
      case None => None
      case Some(p) => Ancestor(up, p, d - 1)
  }

  /** `n` is `a` or hangs somewhere below it. */
  ghost predicate Below<T>(up: map<T, Option<T>>, n: T, a: T)
    requires Closed(up) && n in up
  {
    exists d: nat :: Ancestor(up, n, d) == Some(a)
  }

  ghost predicate HasChild<T>(up: map<T, Option<T>>, n: T) {
    exists m :: m in up && up[m] == Some(n)
  }

  lemma {:induction false} AncestorSum<T>(up: map<T, Option<T>>, n: T, i: nat, j: nat)
    requires Closed(up) && n in up && Ancestor(up, n, i).Some?
    ensures Ancestor(up, n, i + j) == Ancestor(up, Ancestor(up, n, i).value, j)
  {
    if i > 0 {
      AncestorSum(up, up[n].value, i - 1, j);
    }
  }

  /** The last step of a way upwards. */
  lemma {:induction false} LastStep<T>(up: map<T, Option<T>>, n: T, d: nat) returns (c: T)
    requires Closed(up) && n in up && d > 0 && Ancestor(up, n, d).Some?
    ensures c in up && Ancestor(up, n, d - 1) == Some(c) && up[c] == Ancestor(up, n, d)
  {
    if d == 1 {
      c := n;
      assert Ancestor(up, up[n].value, 0) == up[n];
    } else {
      c := LastStep(up, up[n].value, d - 1);
    }
  }

  /** A node has one distance at most to a node that has no parent. */
  lemma {:induction false} RootDepthUnique<T>(up: map<T, Option<T>>, n: T, r: T, i: nat, j: nat)
    requires Closed(up) && n in up && r in up && up[r].None?
    requires Ancestor(up, n, i) == Some(r) && Ancestor(up, n, j) == Some(r)
    ensures i == j
  {
    if i == 0 || j == 0 {
    } else {
      RootDepthUnique(up, up[n].value, r, i - 1, j - 1);
    }
  }

  ghost predicate Within<T>(up: map<T, Option<T>>, n: T, r: T, d: nat)
    requires Closed(up) && n in up
  {
    exists j: nat :: j <= d && Ancestor(up, n, j) == Some(r)
  }

  /** The nodes on the way to a root are distinct, so the way is shorter than the table. */
  lemma {:induction false} WayToRoot<T>(up: map<T, Option<T>>, n: T, r: T, d: nat) returns (way: set<T>)
    requires Closed(up) && n in up && r in up && up[r].None?
    requires Ancestor(up, n, d) == Some(r)
    ensures way <= up.Keys && |way| == d + 1
    ensures forall m | m in way :: Within(up, m, r, d)
  {
    if d == 0 {
      way := {n};
      assert Within(up, n, r, d);
    } else {
      var rest := WayToRoot(up, up[n].value, r, d - 1);
      if n in rest {
        var j: nat :| j <= d - 1 && Ancestor(up, n, j) == Some(r);
        RootDepthUnique(up, n, r, d, j);
      }
      way := rest + {n};
      assert Within(up, n, r, d);
    }
  }

  lemma DepthBound<T>(up: map<T, Option<T>>, n: T, r: T, d: nat)
    requires Closed(up) && n in up && r in up && up[r].None?
    requires Ancestor(up, n, d) == Some(r)
    ensures d < |up|
  {
    var way := WayToRoot(up, n, r, d);
    SubsetSize(way, up.Keys);
    assert |up.Keys| == |up|;
  }

  lemma {:induction false} SubsetSize<T>(a: set<T>, b: set<T>)
    requires a <= b
    ensures |a| <= |b|
    decreases a
  {
    if a != {} {
      var x :| x in a;
      SubsetSize(a - {x}, b - {x});
    }
  }

  /**
    What the section builder leaves behind. `full` are the links the tables ask for, `leaves`
    the components, `tops` the top-level categories. A leaf keeps its link; a category keeps its
    link exactly when something still hangs under it; a top-level category is put under the
    section root exactly when something hangs under it.
   */
  ghost predicate Pruned<T>(full: map<T, Option<T>>, leaves: set<T>, tops: set<T>, root: T,
                            pm: map<T, Option<T>>)
  {
    && Closed(full) && Closed(pm) && full.Keys == pm.Keys
    && WellPlaced(full, leaves, tops, root)
    && forall n | n in full :: pm[n] == PrunedLink(full, leaves, tops, root, pm, n)
  }

  ghost predicate WellPlaced<T>(full: map<T, Option<T>>, leaves: set<T>, tops: set<T>, root: T) {
    && root in full && full[root].None? && root !in tops && root !in leaves
    && (forall n | n in full && full[n].Some? :: full[n].value !in leaves && full[n].value != root)
    && (forall r | r in tops :: r in full && full[r].None? && r !in leaves)
    && leaves <= full.Keys
  }

  ghost function PrunedLink<T>(full: map<T, Option<T>>, leaves: set<T>, tops: set<T>, root: T,
                               pm: map<T, Option<T>>, n: T): Option<T>
    requires n in full
  {
    if n in leaves then full[n]
    else if n == root || !HasChild(pm, n) then None
    else if n in tops then Some(root)
    else full[n]
  }

  /** The chain of `full` links from `n` ends in a top-level category and a leaf is `n` or below it. */
  ghost predicate Member<T>(full: map<T, Option<T>>, leaves: set<T>, tops: set<T>, n: T)
    requires Closed(full) && n in full
  {
    && (exists r :: r in tops && Below(full, n, r))
    && (exists k :: k in leaves && k in full && Below(full, k, n))
  }

  lemma {:induction false} ChainKept<T>(full: map<T, Option<T>>, leaves: set<T>, tops: set<T>, root: T,
                                        pm: map<T, Option<T>>, n: T, r: T, d: nat)
    requires Pruned(full, leaves, tops, root, pm)
    requires n in full && (n in leaves || HasChild(pm, n)) && r in tops
    requires Ancestor(full, n, d) == Some(r)
    ensures Ancestor(pm, n, d + 1) == Some(root)
    decreases d
  {
    if d == 0 {
      assert Ancestor(pm, root, 0) == Some(root);
    } else {
      assert pm[n] == full[n];
      ChainKept(full, leaves, tops, root, pm, full[n].value, r, d - 1);
    }
  }

  lemma {:induction false} ChainOccupied<T>(full: map<T, Option<T>>, leaves: set<T>, tops: set<T>, root: T,
                                            pm: map<T, Option<T>>, k: T, n: T, d: nat)
    requires Pruned(full, leaves, tops, root, pm)
    requires k in full && (k in leaves || HasChild(pm, k))
    requires Ancestor(full, k, d) == Some(n)
    ensures n in leaves || HasChild(pm, n)
    decreases d
  {
    if d > 0 {
      assert pm[k] == full[k];
      ChainOccupied(full, leaves, tops, root, pm, full[k].value, n, d - 1);
    }
  }

  lemma {:induction false} ChainWanted<T>(full: map<T, Option<T>>, leaves: set<T>, tops: set<T>, root: T,
                                          pm: map<T, Option<T>>, n: T, d: nat) returns (r: T)
    requires Pruned(full, leaves, tops, root, pm)
    requires n in full && n != root && Ancestor(pm, n, d) == Some(root)
    ensures d > 0 && r in tops && Ancestor(full, n, d - 1) == Some(r)
    decreases d
  {
    if n in tops {
      assert pm[n] == Some(root);
      RootDepthUnique(pm, n, root, d, 1) by { assert Ancestor(pm, root, 0) == Some(root); }
      r := n;
    } else {
      r := ChainWanted(full, leaves, tops, root, pm, full[n].value, d - 1);
    }
  }

  lemma {:induction false} LeafBelow<T>(full: map<T, Option<T>>, leaves: set<T>, tops: set<T>, root: T,
                                        pm: map<T, Option<T>>, n: T, d: nat) returns (k: T)
    requires Pruned(full, leaves, tops, root, pm)
    requires n in full && n != root && Ancestor(pm, n, d) == Some(root)
    ensures k in leaves && k in full && Below(full, k, n)
    decreases |pm| - d
  {
    DepthBound(pm, n, root, d);
    if n in leaves {
      k := n;
      assert Ancestor(full, n, 0) == Some(n);
    } else {
      assert pm[n].Some?;
      var m :| m in pm && pm[m] == Some(n);
      k := LeafBelow(full, leaves, tops, root, pm, m, d + 1);
      var e: nat :| Ancestor(full, k, e) == Some(m);
      AncestorSum(full, k, e, 1);
      assert Ancestor(full, n, 0) == Some(n);
      assert Ancestor(full, k, e + 1) == Some(n);
    }
  }

  /**
    The tree under the section root holds exactly the leaves and categories whose chain ends in a
    top-level category and that have a leaf at or below them. Nothing is assumed about cycles
    among the other categories.
   */
  lemma TreeMembers<T>(full: map<T, Option<T>>, leaves: set<T>, tops: set<T>, root: T,
                       pm: map<T, Option<T>>, n: T)
    requires Pruned(full, leaves, tops, root, pm)
    requires n in full && n != root
    ensures Below(pm, n, root) <==> Member(full, leaves, tops, n)
    ensures Below(pm, n, root) ==> pm[n] == if n in tops then Some(root) else full[n]
  {
    if Below(pm, n, root) {
      var d: nat :| Ancestor(pm, n, d) == Some(root);
      var r := ChainWanted(full, leaves, tops, root, pm, n, d);
      var k := LeafBelow(full, leaves, tops, root, pm, n, d);
      assert Below(full, n, r);
    }
    if Member(full, leaves, tops, n) {
      var r :| r in tops && Below(full, n, r);
      var k :| k in leaves && k in full && Below(full, k, n);
      var d: nat :| Ancestor(full, n, d) == Some(r);
      var e: nat :| Ancestor(full, k, e) == Some(n);
      ChainOccupied(full, leaves, tops, root, pm, k, n, e);
      ChainKept(full, leaves, tops, root, pm, n, r, d);
    }
  }

  lemma BelowParent<T>(up: map<T, Option<T>>, k: T, n: T, p: T)
    requires Closed(up) && k in up && n in up && up[n] == Some(p) && Below(up, k, n)
    ensures Below(up, k, p)
  {
    var e: nat :| Ancestor(up, k, e) == Some(n);
    AncestorSum(up, k, e, 1);
    assert Ancestor(up, p, 0) == Some(p);
    assert Ancestor(up, k, e + 1) == Some(p);
  }

  lemma BelowTransitive<T>(up: map<T, Option<T>>, k: T, n: T, a: T)
    requires Closed(up) && k in up && n in up && Below(up, k, n) && Below(up, n, a)
    ensures Below(up, k, a)
  {
    var e: nat :| Ancestor(up, k, e) == Some(n);
    var d: nat :| Ancestor(up, n, d) == Some(a);
    AncestorSum(up, k, e, d);
    assert Ancestor(up, k, e + d) == Some(a);
  }

  /** All ways upwards from a node end in one place. */
  lemma {:induction false} OneEnd<T>(up: map<T, Option<T>>, n: T, a: T, b: T, i: nat, j: nat)
    requires Closed(up) && n in up && a in up && b in up && up[a].None? && up[b].None?
    requires Ancestor(up, n, i) == Some(a) && Ancestor(up, n, j) == Some(b)
    ensures a == b
  {
    if i > 0 && j > 0 {
      OneEnd(up, up[n].value, a, b, i - 1, j - 1);
    }
  }

  /** The parent of a member is a member. */
  lemma MemberUp<T>(full: map<T, Option<T>>, leaves: set<T>, tops: set<T>, n: T, p: T)
    requires Closed(full) && n in full && full[n] == Some(p) && Member(full, leaves, tops, n)
    requires forall r | r in tops && r in full :: full[r].None?
    ensures Member(full, leaves, tops, p)
  {
    var r :| r in tops && Below(full, n, r);
    var d: nat :| Ancestor(full, n, d) == Some(r);
    assert d > 0 && Ancestor(full, p, d - 1) == Some(r);
    var k :| k in leaves && k in full && Below(full, k, n);
    BelowParent(full, k, n, p);
  }
}
