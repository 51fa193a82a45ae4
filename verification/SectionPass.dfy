/** What a reader of the components list sees: statuses summed up and filters applied, per section. */
module SectionPass {
  import opened Options
  import opened ParentLinks
  import opened Statuses
  import opened Forest
  import opened NodeTrees
  import opened TreePasses

  ghost predicate OccursBelow(up: UpMap, st: StatusMap, n: Node, s: Status)
    requires Closed(up)
  {
    exists k :: k in up && Below(up, k, n) && At(st, k) == s
  }

  /** `v` is the summary of the statuses at and below `n`. */
  ghost predicate SumsBelow(up: UpMap, st: StatusMap, n: Node, v: Status)
    requires Closed(up)
  {
    Sums(v, OccursBelow(up, st, n, Installed), OccursBelow(up, st, n, NotInstalled),
         OccursBelow(up, st, n, PartiallyInstalled))
  }

  /** Everything under `root` carries its summary; nothing else has changed. */
  ghost predicate SummedUp(up: UpMap, root: Node, st: StatusMap, now: StatusMap)
    requires Closed(up)
  {
    && now.Keys == st.Keys
    && (forall n | n in up && n != root && Below(up, n, root) :: SumsBelow(up, st, n, At(now, n)))
    && (forall n | n in up && (n == root || !Below(up, n, root)) :: At(now, n) == At(st, n))
  }

  ghost predicate RootsApart(up: UpMap) {
    forall n | n in up && n.SectionRoot? :: up[n].None?
  }

  /** The tree under a root, as the two passes need it. */
  lemma RootTree(f: NodeForest, root: Node) returns (t: Tree)
    requires f.Valid() && root in f.up && f.up[root].None?
    ensures Standing(f, t) && t.node == root
    ensures forall m :: Has(t, m) <==> m in f.up && Below(f.up, m, root)
  {
    t := Unfold(f.kids, root, |f.up|);
    assert Ancestor(f.up, root, 0) == Some(root);
    UnfoldMirrors(f.up, f.kids, root, root, 0, |f.up|);
    MirrorsProper(f.up, f.kids, root, t, 0);
    forall m
      ensures Has(t, m) <==> m in f.up && Below(f.up, m, root)
    {
      HadIsBelow(f.up, f.kids, t, m);
    }
  }

  lemma HadIsBelow(up: UpMap, kids: KidMap, t: Tree, m: Node)
    requires Consistent(up, kids) && Mirrors(t, kids)
    ensures Has(t, m) <==> m in up && Below(up, m, t.node)
  {
    if Has(t, m) {
      var d := HasIsBelow(up, kids, t, m);
    }
    if m in up && Below(up, m, t.node) {
      var d: nat :| Ancestor(up, m, d) == Some(t.node);
      BelowIsHad(up, kids, t, m, d);
    }
  }

  /** A node of a settled tree heads a settled subtree. */
  lemma {:induction false} SubtreeAt(t: Tree, kids: KidMap, st: StatusMap, now: StatusMap, n: Node) returns (u: Tree)
    requires Mirrors(t, kids) && Settled(t, st, now) && Has(t, n)
    ensures u.node == n && Mirrors(u, kids) && Settled(u, st, now)
  {
    if n == t.node {
      u := t;
    } else {
      var i :| 0 <= i < |t.kids| && Has(t.kids[i], n);
      u := SubtreeAt(t.kids[i], kids, st, now, n);
    }
  }

  lemma NodeSums(up: UpMap, kids: KidMap, t: Tree, st: StatusMap, now: StatusMap, n: Node)
    requires Consistent(up, kids) && RootsApart(up)
    requires Mirrors(t, kids) && Settled(t, st, now) && Has(t, n) && n in up && !n.SectionRoot?
    ensures SumsBelow(up, st, n, At(now, n))
  {
    var u := SubtreeAt(t, kids, st, now, n);
    forall m
      ensures Has(u, m) <==> m in up && Below(up, m, n)
    {
      HadIsBelow(up, kids, u, m);
    }
    forall m | Has(u, m)
      ensures !m.SectionRoot?
    {
      var d: nat :| Ancestor(up, m, d) == Some(n);
      assert d > 0 ==> up[m].Some?;
    }
    ValueSums(u, st);
    forall s: Status
      ensures Occurs(u, st, s) <==> OccursBelow(up, st, n, s)
    {
    }
  }

  /** The status pass over a section. */
  method UpdateStatuses(f: NodeForest, root: Node)
    requires f.Valid() && root in f.up && root.SectionRoot? && RootsApart(f.up)
    modifies f`status
    ensures f.Valid()
    ensures SummedUp(f.up, root, old(f.status), f.status)
  {
    ghost var st := f.status;
    ghost var t := RootTree(f, root);
    UpdatePostOrder(f, root, t);
    SummedAtLast(f.up, f.kids, t, root, st, f.status);
  }

  lemma SummedAtLast(up: UpMap, kids: KidMap, t: Tree, root: Node, st: StatusMap, now: StatusMap)
    requires Consistent(up, kids) && RootsApart(up) && root in up && root.SectionRoot? && up.Keys == st.Keys
    requires Mirrors(t, kids) && t.node == root && Visited(t, None, st, now)
    requires forall m :: Has(t, m) <==> m in up && Below(up, m, root)
    ensures SummedUp(up, root, st, now)
  {
    forall n | n in up && n != root && Below(up, n, root)
      ensures SumsBelow(up, st, n, At(now, n))
    {
      var d: nat :| Ancestor(up, n, d) == Some(root);
      assert d > 0 && up[n].Some?;
      NodeSums(up, kids, t, st, now, n);
    }
    assert At(now, root) == Value(t, st);
  }

  /** Summing up a second time changes nothing. */
  lemma SecondPassIdle(t: Tree, st: StatusMap, now: StatusMap, again: StatusMap)
    requires Visited(t, None, st, now) && Visited(t, None, now, again)
    ensures again == now
  {
    SecondValue(t, st, now);
    forall m | m in now
      ensures again[m] == now[m]
    {
      if Has(t, m) {
        SameValue(t, now, again, m);
      }
    }
  }

  lemma {:induction false} SameValue(t: Tree, now: StatusMap, again: StatusMap, m: Node)
    requires Settled(t, now, now) && Settled(t, now, again) && Has(t, m)
    ensures At(again, m) == At(now, m)
  {
    if m != t.node {
      var i :| 0 <= i < |t.kids| && Has(t.kids[i], m);
      SameValue(t.kids[i], now, again, m);
    }
  }

  // ---------- what a filter leaves ----------

  ghost predicate Filterable(st: StatusMap) {
    forall n | n in st ::
      st[n] == NoStatus || (n.ComponentNode? && (st[n] == Installed || st[n] == NotInstalled))
  }

  function Opposite(s: Status): Status {
    if s == Installed then NotInstalled else Installed
  }

  lemma KeptMeans(up: UpMap, st: StatusMap, n: Node, v: Status, keep: Status)
    requires Closed(up) && Filterable(st) && (keep == Installed || keep == NotInstalled)
    requires SumsBelow(up, st, n, v)
    ensures !(v == Opposite(keep) || v == NoStatus) <==> OccursBelow(up, st, n, keep)
  {
  }

  lemma OccursUpwards(up: UpMap, st: StatusMap, n: Node, p: Node, s: Status)
    requires Closed(up) && n in up && up[n] == Some(p) && OccursBelow(up, st, n, s)
    ensures p in up && OccursBelow(up, st, p, s)
  {
    var k :| k in up && Below(up, k, n) && At(st, k) == s;
    BelowParent(up, k, n, p);
  }

  /** The filter's cut, said of the links alone. */
  ghost predicate FilterCut(up: UpMap, root: Node, now: StatusMap, drop: Status, cut: UpMap)
    requires Closed(up)
  {
    && cut.Keys == up.Keys
    && forall m | m in up :: cut[m] == if Below(up, m, root) && Dropped(now, drop, m) then None else up[m]
  }

  /** The filter pass over a section. */
  method FilterSection(f: NodeForest, root: Node, drop: Status)
    requires f.Valid() && root in f.up && f.up[root].None?
    modifies f`up, f`kids
    ensures f.Valid()
    ensures FilterCut(old(f.up), root, f.status, drop, f.up)
  {
    ghost var t := RootTree(f, root);
    FilterPostOrder(f, root, drop, t);
  }

  lemma LinkSurvives(up: UpMap, root: Node, st: StatusMap, now: StatusMap, keep: Status, cut: UpMap, n: Node)
    requires Closed(up) && root in up && up[root].None? && Filterable(st)
    requires keep == Installed || keep == NotInstalled
    requires SummedUp(up, root, st, now) && FilterCut(up, root, now, Opposite(keep), cut)
    requires n in up && n != root && Below(up, n, root)
    ensures cut[n] == if OccursBelow(up, st, n, keep) then up[n] else None
  {
    hide Closed, OccursBelow;
    KeptMeans(up, st, n, At(now, n), keep);
  }

  lemma {:induction false} ChainSurvives(up: UpMap, root: Node, st: StatusMap, now: StatusMap, keep: Status,
                                         cut: UpMap, n: Node, d: nat)
    requires Closed(up) && Closed(cut) && root in up && up[root].None? && Filterable(st)
    requires keep == Installed || keep == NotInstalled
    requires SummedUp(up, root, st, now) && FilterCut(up, root, now, Opposite(keep), cut)
    requires n in up && Ancestor(up, n, d) == Some(root) && (n == root || OccursBelow(up, st, n, keep))
    ensures Ancestor(cut, n, d) == Some(root)
    decreases d
  {
    hide Closed, OccursBelow, SummedUp, FilterCut, Filterable;
    if d > 0 {
      var p := up[n].value;
      LinkSurvives(up, root, st, now, keep, cut, n);
      OccursUpwards(up, st, n, p, keep);
      ChainSurvives(up, root, st, now, keep, cut, p, d - 1);
    }
  }

  lemma {:induction false} CutChain(up: UpMap, cut: UpMap, n: Node, a: Node, d: nat)
    requires Closed(up) && Closed(cut) && n in up && cut.Keys == up.Keys
    requires forall m | m in up :: cut[m] == up[m] || cut[m].None?
    requires Ancestor(cut, n, d) == Some(a)
    ensures Ancestor(up, n, d) == Some(a)
    decreases d
  {
    if d > 0 {
      CutChain(up, cut, cut[n].value, a, d - 1);
    }
  }

  /**
    The filter is exact: a node stays under the root exactly when a component of the wanted status
    is the node or hangs below it. So every category left still shows such a component.
   */
  lemma FilterExact(up: UpMap, root: Node, st: StatusMap, now: StatusMap, keep: Status, cut: UpMap, n: Node)
    requires Closed(up) && Closed(cut) && root in up && up[root].None? && Filterable(st)
    requires keep == Installed || keep == NotInstalled
    requires SummedUp(up, root, st, now) && FilterCut(up, root, now, Opposite(keep), cut)
    requires n in up && n != root
    ensures Below(cut, n, root) <==> Below(up, n, root) && OccursBelow(up, st, n, keep)
  {
    if Below(cut, n, root) {
      var d: nat :| Ancestor(cut, n, d) == Some(root);
      CutChain(up, cut, n, root, d);
      assert d > 0 && cut[n].Some?;
      LinkSurvives(up, root, st, now, keep, cut, n);
    }
    if Below(up, n, root) && OccursBelow(up, st, n, keep) {
      var d: nat :| Ancestor(up, n, d) == Some(root);
      ChainSurvives(up, root, st, now, keep, cut, n, d);
    }
  }
}
