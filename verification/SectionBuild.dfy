/** A whole section from whatever an earlier section left behind. */
module SectionBuild {
  import opened Options
  import opened ParentLinks
  import opened Statuses
  import opened Forest
  import opened SectionLinks

  /** Where a node of a section hangs: a top-level category under the root, any other node where the tables say. */
  ghost function Place(cats: Table, comps: Table, section: set<string>, root: Node, n: Node): Option<Node> {
    if n in Tops(cats) then Some(root) else WantedLink(cats, comps, section, n)
  }

  /** Under `root` hang exactly the nodes of the section, each at the place its tables give it. */
  ghost predicate SectionTree(up: UpMap, cats: Table, comps: Table, section: set<string>, root: Node)
    requires Closed(up)
  {
    && root in up && up[root].None?
    && (forall n | n in up && n != root :: Below(up, n, root) <==> InSection(cats, comps, section, n))
    && (forall n | n in up && InSection(cats, comps, section, n) ::
          up[n] == Place(cats, comps, section, root, n))
  }

  /** Two link tables that agree on the smaller one's nodes have the same ancestors there. */
  lemma {:induction false} AncestorAgree(a: UpMap, b: UpMap, n: Node, d: nat)
    requires Closed(a) && Closed(b) && n in a
    requires forall m | m in a :: m in b && b[m] == a[m]
    ensures Ancestor(a, n, d) == Ancestor(b, n, d)
    decreases d
  {
    if d > 0 && a[n].Some? {
      AncestorAgree(a, b, a[n].value, d - 1);
    }
  }

  lemma BelowAgree(a: UpMap, b: UpMap, n: Node, m: Node)
    requires Closed(a) && Closed(b) && n in a
    requires forall m | m in a :: m in b && b[m] == a[m]
    ensures Below(a, n, m) <==> Below(b, n, m)
  {
    if Below(a, n, m) {
      var d: nat :| Ancestor(a, n, d) == Some(m);
      AncestorAgree(a, b, n, d);
    }
    if Below(b, n, m) {
      var d: nat :| Ancestor(b, n, d) == Some(m);
      AncestorAgree(a, b, n, d);
    }
  }

  /** Membership does not depend on the other nodes a forest holds. */
  lemma MemberAgree(full: UpMap, cats: Table, comps: Table, section: set<string>, n: Node)
    requires Closed(full) && WantedIn(full, cats, comps, section) && Entries(full, cats, comps)
    requires n in full && !n.SectionRoot?
    ensures Member(full, Leaves(comps, section), Tops(cats), n) <==> InSection(cats, comps, section, n)
  {
    var own := Wanted(cats, comps, section);
    forall k, m | k in own
      ensures Below(own, k, m) <==> Below(full, k, m)
    {
      BelowAgree(own, full, k, m);
    }
  }

  lemma TablesWellPlaced(full: UpMap, cats: Table, comps: Table, section: set<string>, root: Node)
    requires WantedIn(full, cats, comps, section) && Entries(full, cats, comps)
    requires root in full && root.SectionRoot?
    ensures WellPlaced(full, Leaves(comps, section), Tops(cats), root)
  {
  }

  lemma PrunedAtLast(full: UpMap, mid: UpMap, now: UpMap, cats: Table, comps: Table, section: set<string>, root: Node)
    requires WantedIn(full, cats, comps, section) && Entries(full, cats, comps)
    requires Pruning(full, mid, {}) && root in full && root.SectionRoot?
    requires Gathered(mid, now, Tops(cats), root) && Closed(now)
    ensures Pruned(full, Leaves(comps, section), Tops(cats), root, now)
  {
    hide HasChild, Closed, WellPlaced;
    var leaves, tops := Leaves(comps, section), Tops(cats);
    TablesWellPlaced(full, cats, comps, section, root);
    forall n | n in full
      ensures now[n] == PrunedLink(full, leaves, tops, root, now, n)
    {
      if n != root {
        GatheredKeepsContent(mid, now, tops, root, n);
      }
    }
    hide PrunedLink;
  }

  lemma GatheredKeepsContent(was: UpMap, now: UpMap, tops: set<Node>, root: Node, n: Node)
    requires Gathered(was, now, tops, root) && n != root && forall r | r in tops && r in was :: was[r].None?
    ensures HasChild(now, n) <==> HasChild(was, n)
  {
    if HasChild(was, n) {
      var c :| c in was && was[c] == Some(n);
      assert now[c] == Some(n);
    }
  }

  lemma SectionTreeReached(full: UpMap, now: UpMap, cats: Table, comps: Table, section: set<string>, root: Node)
    requires Pruned(full, Leaves(comps, section), Tops(cats), root, now)
    requires WantedIn(full, cats, comps, section) && Entries(full, cats, comps)
    requires forall n | n in full && n.SectionRoot? && n != root :: now[n].None?
    ensures SectionTree(now, cats, comps, section, root)
  {
    forall n | n in now && n != root
      ensures Below(now, n, root) <==> InSection(cats, comps, section, n)
      ensures InSection(cats, comps, section, n) ==>
          now[n] == if n in Tops(cats) then Some(root) else WantedLink(cats, comps, section, n)
    {
      if n.SectionRoot? {
        assert Ancestor(now, n, 0) == Some(n);
      } else {
        TreeMembers(full, Leaves(comps, section), Tops(cats), root, now, n);
        MemberAgree(full, cats, comps, section, n);
      }
    }
  }

  /** Categories start a section without a status; components keep theirs. */
  ghost predicate StatusesReset(was: map<Node, Status>, now: map<Node, Status>) {
    forall n | n in was :: n in now && now[n] == if n.CategoryNode? then NoStatus else was[n]
  }

  method ResetCategoryStatuses(f: NodeForest, cats: Table, comps: Table)
    requires Covers(f, cats, comps)
    modifies f`status
    ensures Covers(f, cats, comps) && f.status.Keys == old(f.status).Keys
    ensures StatusesReset(old(f.status), f.status)
  {
    hide Consistent;
    var todo := cats.Keys;
    while todo != {}
      invariant todo <= cats.Keys && f.status.Keys == old(f.status).Keys
      invariant forall n | n in f.status ::
          f.status[n] == if n.CategoryNode? && n.name !in todo then NoStatus else old(f.status)[n]
    {
      var name :| name in todo;
      f.status := f.status[CategoryNode(name) := NoStatus];
      todo := todo - {name};
    }
  }

  /**
    Builds one section. The result says nothing of the links found on entry or of the order in
    which the tables were walked: sections are independent of what was printed before them.
   */
  method BuildSection(f: NodeForest, cats: Table, comps: Table, section: set<string>, root: Node)
    requires Covers(f, cats, comps) && root.SectionRoot? && root !in f.up
    modifies f
    ensures Covers(f, cats, comps) && f.up.Keys == old(f.up).Keys + {root}
    ensures SectionTree(f.up, cats, comps, section, root)
    ensures StatusesReset(old(f.status)[root := NoStatus], f.status)
  {
    EntriesRooted(f.up, cats, comps, root);
    hide Consistent, Closed, Entries, SectionTree, StatusesReset;
    f.NewRoot(root);
    Rebuild(f, cats, comps, section, root);
  }

  /** The steps of a section, once its root exists. */
  method Rebuild(f: NodeForest, cats: Table, comps: Table, section: set<string>, root: Node)
    requires Covers(f, cats, comps) && root.SectionRoot? && root in f.up
    modifies f
    ensures Covers(f, cats, comps) && f.up.Keys == old(f.up).Keys
    ensures SectionTree(f.up, cats, comps, section, root)
    ensures StatusesReset(old(f.status), f.status)
  {
    hide Consistent, Closed, Entries, SectionTree, StatusesReset;
    TearDown(f, cats, comps);
    RestoreCategoryLinks(f, cats, comps);
    ResetCategoryStatuses(f, cats, comps);
    LinkComponents(f, cats, comps, section);
    FillTree(f, cats, comps, section, root);
  }

  lemma EntriesRooted(up: UpMap, cats: Table, comps: Table, root: Node)
    requires Entries(up, cats, comps) && root.SectionRoot?
    ensures Entries(up[root := None], cats, comps)
  {
  }

  /** The second half: pruning, and gathering what is left under the root. */
  method FillTree(f: NodeForest, cats: Table, comps: Table, section: set<string>, root: Node)
    requires Covers(f, cats, comps) && WantedIn(f.up, cats, comps, section)
    requires root.SectionRoot? && root in f.up
    modifies f`up, f`kids
    ensures Covers(f, cats, comps) && f.up.Keys == old(f.up).Keys
    ensures SectionTree(f.up, cats, comps, section, root)
  {
    ghost var full := f.up;
    assert Closed(full);
    PruneCategories(f, cats, comps, section);
    TopsStayRoots(full, f.up, cats, comps, section);
    ghost var mid := f.up;
    hide Consistent, Closed, Pruned, HasChild, WantedIn, SectionTree, Gathered, Pruning;
    GatherTops(f, cats, comps, root);
    PrunedAtLast(full, mid, f.up, cats, comps, section, root);
    SectionTreeReached(full, f.up, cats, comps, section, root);
  }

  lemma TopsStayRoots(full: UpMap, mid: UpMap, cats: Table, comps: Table, section: set<string>)
    requires WantedIn(full, cats, comps, section) && Pruning(full, mid, {})
    ensures forall r | r in Tops(cats) && r in mid :: mid[r].None?
  {
  }

  lemma AllSevered(was: UpMap, mid: UpMap, now: UpMap, cats: Table, comps: Table)
    requires Entries(was, cats, comps)
    requires Isolates(was, mid, ComponentNodes(comps.Keys)) && Isolates(mid, now, CategoryNodes(cats.Keys))
    ensures Entries(now, cats, comps) && forall n | n in now :: now[n].None?
  {
    forall n | n in now
      ensures now[n].None?
    {
      match n
      case CategoryNode(name) => assert n in CategoryNodes(cats.Keys);
      case ComponentNode(name) => assert n in ComponentNodes(comps.Keys);
      case SectionRoot(serial) => assert mid[n].None?;
    }
  }

  method TearDown(f: NodeForest, cats: Table, comps: Table)
    requires Covers(f, cats, comps)
    modifies f`up, f`kids
    ensures Covers(f, cats, comps) && f.up.Keys == old(f.up).Keys
    ensures forall n | n in f.up :: f.up[n].None?
  {
    var compNodes := set name | name in comps.Keys :: ComponentNode(name);
    var catNodes := set name | name in cats.Keys :: CategoryNode(name);
    assert compNodes == ComponentNodes(comps.Keys) && catNodes == CategoryNodes(cats.Keys);
    assert compNodes <= f.up.Keys && catNodes <= f.up.Keys;
    hide Consistent, Entries, ComponentNodes, CategoryNodes;
    DeleteTable(f, compNodes);
    ghost var mid := f.up;
    DeleteTable(f, catNodes);
    AllSevered(old(f.up), mid, f.up, cats, comps);
  }
}
