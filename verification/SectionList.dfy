/**
  The components list, section by section: what is shown and with which statuses, said of the
  tables, the section and the component statuses alone.
 */
module SectionList {
  import opened Options
  import opened ParentLinks
  import opened Statuses
  import opened Forest
  import opened SectionLinks
  import opened SectionBuild
  import opened NodeTrees
  import opened TreePasses
  import opened SectionPass

  /** Components are installed, not installed or without packages; roots never get a status. */
  ghost predicate PlainStatuses(st: StatusMap) {
    forall n | n in st && !n.CategoryNode? ::
      st[n] == NoStatus || (n.ComponentNode? && (st[n] == Installed || st[n] == NotInstalled))
  }

  /** Some component of the section with status `s` is `n` or has `n` on its chain of categories. */
  ghost predicate OccursIn(cats: Table, comps: Table, section: set<string>, st: StatusMap, n: Node, s: Status) {
    exists name :: name in comps && name in section &&
      Below(Wanted(cats, comps, section), ComponentNode(name), n) && At(st, ComponentNode(name)) == s
  }

  /** What the section's components at or below `n` say together. */
  ghost function StatusIn(cats: Table, comps: Table, section: set<string>, st: StatusMap, n: Node): Status {
    Summary(Present(OccursIn(cats, comps, section, st, n, Installed),
                    OccursIn(cats, comps, section, st, n, NotInstalled), false))
  }

  ghost predicate SumsIn(cats: Table, comps: Table, section: set<string>, st: StatusMap, n: Node, v: Status) {
    v == StatusIn(cats, comps, section, st, n)
  }

  /** The components of a section a filter asks for. */
  ghost function Chosen(section: set<string>, st: StatusMap, keep: Option<Status>): set<string> {
    match keep
    case None => section
    case Some(s) => set name | name in section && At(st, ComponentNode(name)) == s
  }

  // ---------- chains in the tree are chains of the tables ----------

  lemma InSectionUp(cats: Table, comps: Table, section: set<string>, n: Node, p: Node)
    requires InSection(cats, comps, section, n)
    requires n in Wanted(cats, comps, section) && Wanted(cats, comps, section)[n] == Some(p)
    ensures InSection(cats, comps, section, p)
  {
    MemberUp(Wanted(cats, comps, section), Leaves(comps, section), Tops(cats), n, p);
  }

  lemma {:induction false} TreeChainWanted(up: UpMap, cats: Table, comps: Table, section: set<string>, root: Node,
                                           k: Node, n: Node, d: nat)
    requires Closed(up) && SectionTree(up, cats, comps, section, root) && root.SectionRoot?
    requires InSection(cats, comps, section, n) && n in up && k in up && Ancestor(up, k, d) == Some(n)
    ensures InSection(cats, comps, section, k)
    ensures k in Wanted(cats, comps, section) && Ancestor(Wanted(cats, comps, section), k, d) == Some(n)
    decreases d
  {
    hide Closed, InSection;
    assert n in TableNodes(cats, comps) && n != root by { InTables(cats, comps, section, n); }
    if d > 0 {
      BelowRoot(up, cats, comps, section, root, k, n, d);
      assert InSection(cats, comps, section, k);
      InTables(cats, comps, section, k);
      var p := up[k].value;
      assert p in up by { ParentIn(up, k); }
      TreeChainWanted(up, cats, comps, section, root, p, n, d - 1);
    }
  }

  lemma InTables(cats: Table, comps: Table, section: set<string>, n: Node)
    requires InSection(cats, comps, section, n)
    ensures n in TableNodes(cats, comps) && !n.SectionRoot?
  {
  }

  lemma ParentIn(up: UpMap, k: Node)
    requires Closed(up) && k in up && up[k].Some?
    ensures up[k].value in up
  {
  }

  lemma BelowRoot(up: UpMap, cats: Table, comps: Table, section: set<string>, root: Node, k: Node, n: Node, d: nat)
    requires Closed(up) && SectionTree(up, cats, comps, section, root)
    requires InSection(cats, comps, section, n) && n in up && n != root && k in up && Ancestor(up, k, d) == Some(n)
    ensures k != root && Below(up, k, root)
  {
    var e: nat :| Ancestor(up, n, e) == Some(root);
    AncestorSum(up, k, d, e);
    assert Ancestor(up, k, d + e) == Some(root);
  }

  lemma {:induction false} WantedChainTree(up: UpMap, cats: Table, comps: Table, section: set<string>, root: Node,
                                           k: Node, n: Node, d: nat)
    requires Closed(up) && SectionTree(up, cats, comps, section, root) && root.SectionRoot?
    requires InSection(cats, comps, section, k) && k in up && forall m | m in TableNodes(cats, comps) :: m in up
    requires k in Wanted(cats, comps, section) && Ancestor(Wanted(cats, comps, section), k, d) == Some(n)
    ensures Ancestor(up, k, d) == Some(n)
    decreases d
  {
    hide Closed, InSection;
    if d > 0 {
      var p := Wanted(cats, comps, section)[k].value;
      InSectionUp(cats, comps, section, k, p);
      InTables(cats, comps, section, p);
      WantedChainTree(up, cats, comps, section, root, p, n, d - 1);
    }
  }

  lemma OccursInTables(up: UpMap, cats: Table, comps: Table, section: set<string>, root: Node, st: StatusMap, n: Node, s: Status)
    requires Closed(up) && SectionTree(up, cats, comps, section, root) && root.SectionRoot?
    requires Filterable(st) && s != NoStatus && n in up && InSection(cats, comps, section, n)
    requires OccursBelow(up, st, n, s)
    ensures OccursIn(cats, comps, section, st, n, s)
  {
    var k :| k in up && Below(up, k, n) && At(st, k) == s;
    var d: nat :| Ancestor(up, k, d) == Some(n);
    hide Closed, InSection, SectionTree;
    TreeChainWanted(up, cats, comps, section, root, k, n, d);
    ComponentInSection(cats, comps, section, k);
    assert k == ComponentNode(k.name);
  }

  lemma TablesCovered(up: UpMap, cats: Table, comps: Table)
    requires Entries(up, cats, comps)
    ensures forall m | m in TableNodes(cats, comps) :: m in up
  {
  }

  lemma OccursInTree(up: UpMap, cats: Table, comps: Table, section: set<string>, root: Node, st: StatusMap, n: Node, s: Status)
    requires Closed(up) && SectionTree(up, cats, comps, section, root) && root.SectionRoot?
    requires Entries(up, cats, comps) && n in up && InSection(cats, comps, section, n)
    requires OccursIn(cats, comps, section, st, n, s)
    ensures OccursBelow(up, st, n, s)
  {
    var name :| name in comps && name in section
      && Below(Wanted(cats, comps, section), ComponentNode(name), n) && At(st, ComponentNode(name)) == s;
    var k := ComponentNode(name);
    var d: nat :| Ancestor(Wanted(cats, comps, section), k, d) == Some(n);
    LeafInSection(cats, comps, section, k, n);
    TablesCovered(up, cats, comps);
    hide Closed, InSection, SectionTree;
    WantedChainTree(up, cats, comps, section, root, k, n, d);
  }

  lemma ComponentInSection(cats: Table, comps: Table, section: set<string>, k: Node)
    requires InSection(cats, comps, section, k) && k.ComponentNode?
    ensures k.name in comps && k.name in section
  {
    var full := Wanted(cats, comps, section);
    var r :| r in Tops(cats) && Below(full, k, r);
    var d: nat :| Ancestor(full, k, d) == Some(r);
    assert d > 0 && full[k].Some?;
  }

  lemma LeafInSection(cats: Table, comps: Table, section: set<string>, k: Node, n: Node)
    requires InSection(cats, comps, section, n) && k in Leaves(comps, section) && k in Wanted(cats, comps, section)
    requires Below(Wanted(cats, comps, section), k, n)
    ensures InSection(cats, comps, section, k)
  {
    var full := Wanted(cats, comps, section);
    var r :| r in Tops(cats) && Below(full, n, r);
    BelowTransitive(full, k, n, r);
    assert Ancestor(full, k, 0) == Some(k);
  }

  // ---------- a filtered section is the section of the chosen components ----------

  lemma {:induction false} WantedAgree(cats: Table, comps: Table, section: set<string>, less: set<string>, n: Node, d: nat)
    requires less <= section && n in TableNodes(cats, comps) && (n.ComponentNode? ==> n.name in less)
    ensures Ancestor(Wanted(cats, comps, section), n, d) == Ancestor(Wanted(cats, comps, less), n, d)
    decreases d
  {
    hide *;
    WantedStep(cats, comps, section, n, d);
    WantedStep(cats, comps, less, n, d);
    WantedLinkAgree(cats, comps, section, less, n);
    var link := WantedLink(cats, comps, section, n);
    if d > 0 && link.Some? {
      WantedAgree(cats, comps, section, less, link.value, d - 1);
    }
  }

  lemma WantedStep(cats: Table, comps: Table, section: set<string>, n: Node, d: nat)
    requires n in TableNodes(cats, comps)
    ensures var full, link := Wanted(cats, comps, section), WantedLink(cats, comps, section, n);
            && (link.Some? ==> link.value in TableNodes(cats, comps) && link.value.CategoryNode?)
            && Ancestor(full, n, d) ==
                 if d == 0 then Some(n) else if link.Some? then Ancestor(full, link.value, d - 1) else None
  {
  }

  lemma WantedLinkAgree(cats: Table, comps: Table, section: set<string>, less: set<string>, n: Node)
    requires less <= section && (n.ComponentNode? ==> n.name in less)
    ensures WantedLink(cats, comps, section, n) == WantedLink(cats, comps, less, n)
  {
  }

  lemma BelowWantedAgree(cats: Table, comps: Table, section: set<string>, less: set<string>, n: Node, m: Node)
    requires less <= section && n in TableNodes(cats, comps) && (n.ComponentNode? ==> n.name in less)
    ensures Below(Wanted(cats, comps, section), n, m) <==> Below(Wanted(cats, comps, less), n, m)
  {
    var a, b := Wanted(cats, comps, section), Wanted(cats, comps, less);
    if Below(a, n, m) {
      var d: nat :| Ancestor(a, n, d) == Some(m);
      WantedAgree(cats, comps, section, less, n, d);
    }
    if Below(b, n, m) {
      var d: nat :| Ancestor(b, n, d) == Some(m);
      WantedAgree(cats, comps, section, less, n, d);
    }
  }

  /** A component is below no component but itself. */
  lemma BelowComponent(cats: Table, comps: Table, section: set<string>, k: Node, n: Node)
    requires k in TableNodes(cats, comps) && n.ComponentNode? && Below(Wanted(cats, comps, section), k, n)
    ensures k == n
  {
    var full := Wanted(cats, comps, section);
    var d: nat :| Ancestor(full, k, d) == Some(n);
    if d > 0 {
      var c := LastStep(full, k, d);
    }
  }

  lemma FilteredIsSection(cats: Table, comps: Table, section: set<string>, st: StatusMap, keep: Status, n: Node)
    requires n in TableNodes(cats, comps)
    ensures var less := Chosen(section, st, Some(keep));
            InSection(cats, comps, less, n) <==>
            InSection(cats, comps, section, n) && OccursIn(cats, comps, section, st, n, keep)
  {
    var less := Chosen(section, st, Some(keep));
    if InSection(cats, comps, less, n) {
      ChosenInSection(cats, comps, section, st, keep, n);
    }
    if InSection(cats, comps, section, n) && OccursIn(cats, comps, section, st, n, keep) {
      var name :| name in comps && name in section
        && Below(Wanted(cats, comps, section), ComponentNode(name), n) && At(st, ComponentNode(name)) == keep;
      if n.ComponentNode? {
        BelowComponent(cats, comps, section, ComponentNode(name), n);
      }
      var r :| r in Tops(cats) && Below(Wanted(cats, comps, section), n, r);
      BelowWantedAgree(cats, comps, section, less, n, r);
      BelowWantedAgree(cats, comps, section, less, ComponentNode(name), n);
      assert ComponentNode(name) in Leaves(comps, less);
    }
  }

  lemma ChosenInSection(cats: Table, comps: Table, section: set<string>, st: StatusMap, keep: Status, n: Node)
    requires InSection(cats, comps, Chosen(section, st, Some(keep)), n)
    ensures InSection(cats, comps, section, n) && OccursIn(cats, comps, section, st, n, keep)
  {
    var less := Chosen(section, st, Some(keep));
    if n.ComponentNode? {
      ComponentInSection(cats, comps, less, n);
    }
    var r :| r in Tops(cats) && Below(Wanted(cats, comps, less), n, r);
    BelowWantedAgree(cats, comps, section, less, n, r);
    var k :| k in Leaves(comps, less) && k in Wanted(cats, comps, less) && Below(Wanted(cats, comps, less), k, n);
    BelowWantedAgree(cats, comps, section, less, k, n);
    assert k in Leaves(comps, section);
    assert k == ComponentNode(k.name) && At(st, k) == keep;
  }

  // ---------- a section as it is shown ----------

  /** Under `root` stand the nodes of the chosen part of the section, each at its place and with its status. */
  ghost predicate Shown(up: UpMap, now: StatusMap, cats: Table, comps: Table, section: set<string>, root: Node,
                        st: StatusMap, keep: Option<Status>)
    requires Closed(up)
  {
    && root in up
    && (forall n | n in up && n != root ::
          Below(up, n, root) <==> InSection(cats, comps, Chosen(section, st, keep), n))
    && (forall n | n in up && InSection(cats, comps, Chosen(section, st, keep), n) ::
          up[n] == Place(cats, comps, section, root, n))
    && (forall n | n in up && InSection(cats, comps, section, n) :: SumsIn(cats, comps, section, st, n, At(now, n)))
  }

  /** Components and roots keep their statuses for good. */
  ghost predicate ComponentsKept(st: StatusMap, now: StatusMap) {
    forall n | n in st && !n.CategoryNode? :: n in now && now[n] == st[n]
  }

  /** `reset` are the statuses a section starts with when `st` were those before it. */
  ghost predicate StartsFrom(st: StatusMap, reset: StatusMap) {
    && Filterable(reset) && ComponentsKept(st, reset)
    && forall n | n in reset && n.ComponentNode? :: n in st
  }

  lemma NodeShown(up: UpMap, cats: Table, comps: Table, section: set<string>, root: Node,
                  st: StatusMap, reset: StatusMap, now: StatusMap, n: Node)
    requires Closed(up) && Entries(up, cats, comps) && root.SectionRoot?
    requires SectionTree(up, cats, comps, section, root) && SummedUp(up, root, reset, now)
    requires StartsFrom(st, reset) && n in up && InSection(cats, comps, section, n)
    ensures SumsIn(cats, comps, section, st, n, At(now, n))
  {
    hide Closed, InSection, Entries, SumsBelow, SumsIn;
    InTables(cats, comps, section, n);
    SumsTranslate(up, cats, comps, section, root, reset, n, At(now, n));
    SumsInKept(cats, comps, section, st, reset, n, At(now, n));
  }

  lemma ShownUnfiltered(up: UpMap, cats: Table, comps: Table, section: set<string>, root: Node,
                        st: StatusMap, reset: StatusMap, now: StatusMap)
    requires Closed(up) && Entries(up, cats, comps) && root.SectionRoot?
    requires SectionTree(up, cats, comps, section, root) && SummedUp(up, root, reset, now)
    requires StartsFrom(st, reset)
    ensures Shown(up, now, cats, comps, section, root, st, None)
  {
    hide Closed, InSection, Entries, SumsIn, SummedUp, StartsFrom;
    forall n | n in up && InSection(cats, comps, section, n)
      ensures SumsIn(cats, comps, section, st, n, At(now, n))
    {
      NodeShown(up, cats, comps, section, root, st, reset, now, n);
    }
  }

  lemma SumsTranslate(up: UpMap, cats: Table, comps: Table, section: set<string>, root: Node, st: StatusMap, n: Node, v: Status)
    requires Closed(up) && SectionTree(up, cats, comps, section, root) && root.SectionRoot?
    requires Entries(up, cats, comps) && Filterable(st) && n in up && InSection(cats, comps, section, n)
    requires SumsBelow(up, st, n, v)
    ensures SumsIn(cats, comps, section, st, n, v)
  {
    hide Closed, InSection, SectionTree, OccursIn;
    forall s: Status | s != NoStatus
      ensures OccursBelow(up, st, n, s) <==> OccursIn(cats, comps, section, st, n, s)
    {
      if OccursBelow(up, st, n, s) {
        OccursInTables(up, cats, comps, section, root, st, n, s);
      }
      if OccursIn(cats, comps, section, st, n, s) {
        OccursInTree(up, cats, comps, section, root, st, n, s);
      }
    }
  }

  lemma SumsInKept(cats: Table, comps: Table, section: set<string>, st: StatusMap, now: StatusMap, n: Node, v: Status)
    requires forall name | name in comps :: At(st, ComponentNode(name)) == At(now, ComponentNode(name))
    requires SumsIn(cats, comps, section, now, n, v)
    ensures SumsIn(cats, comps, section, st, n, v)
  {
    assert forall s :: OccursIn(cats, comps, section, st, n, s) <==> OccursIn(cats, comps, section, now, n, s);
  }

  lemma ShownFiltered(up: UpMap, cut: UpMap, cats: Table, comps: Table, section: set<string>, root: Node,
                      st: StatusMap, reset: StatusMap, now: StatusMap, keep: Status)
    requires Closed(up) && Closed(cut) && Entries(up, cats, comps) && root.SectionRoot?
    requires SectionTree(up, cats, comps, section, root) && SummedUp(up, root, reset, now)
    requires StartsFrom(st, reset)
    requires (keep == Installed || keep == NotInstalled) && FilterCut(up, root, now, Opposite(keep), cut)
    ensures Shown(cut, now, cats, comps, section, root, st, Some(keep))
  {
    hide Closed, InSection, Entries, SumsIn, SummedUp;
    forall n | n in up && InSection(cats, comps, section, n)
      ensures SumsIn(cats, comps, section, st, n, At(now, n))
    {
      NodeShown(up, cats, comps, section, root, st, reset, now, n);
    }
    forall n | n in cut && n != root
      ensures Below(cut, n, root) <==> InSection(cats, comps, Chosen(section, st, Some(keep)), n)
    {
      FilteredNode(up, cut, cats, comps, section, root, st, reset, now, keep, n);
    }
    forall n | n in cut && InSection(cats, comps, Chosen(section, st, Some(keep)), n)
      ensures cut[n] == Place(cats, comps, section, root, n)
    {
      FilteredPlace(up, cut, cats, comps, section, root, st, reset, now, keep, n);
    }
    hide *;
  }

  lemma FilteredNode(up: UpMap, cut: UpMap, cats: Table, comps: Table, section: set<string>, root: Node,
                     st: StatusMap, reset: StatusMap, now: StatusMap, keep: Status, n: Node)
    requires Closed(up) && Closed(cut) && Entries(up, cats, comps) && root.SectionRoot?
    requires SectionTree(up, cats, comps, section, root) && SummedUp(up, root, reset, now)
    requires StartsFrom(st, reset)
    requires (keep == Installed || keep == NotInstalled) && FilterCut(up, root, now, Opposite(keep), cut)
    requires n in up && n != root
    ensures Below(cut, n, root) <==> InSection(cats, comps, Chosen(section, st, Some(keep)), n)
  {
    hide Closed, InSection, SumsIn, OccursBelow;
    FilterExact(up, root, reset, now, keep, cut, n);
    if InSection(cats, comps, section, n) {
      InTables(cats, comps, section, n);
      if OccursBelow(up, reset, n, keep) {
        OccursInTables(up, cats, comps, section, root, reset, n, keep);
      }
      OccursInKept(cats, comps, section, st, reset, n, keep);
      if OccursIn(cats, comps, section, reset, n, keep) {
        OccursInTree(up, cats, comps, section, root, reset, n, keep);
      }
      FilteredIsSection(cats, comps, section, st, keep, n);
    } else if InSection(cats, comps, Chosen(section, st, Some(keep)), n) {
      InTables(cats, comps, Chosen(section, st, Some(keep)), n);
      FilteredIsSection(cats, comps, section, st, keep, n);
    }
  }

  /** What the filter leaves stands where it stood. */
  lemma FilteredPlace(up: UpMap, cut: UpMap, cats: Table, comps: Table, section: set<string>, root: Node,
                      st: StatusMap, reset: StatusMap, now: StatusMap, keep: Status, n: Node)
    requires Closed(up) && Closed(cut) && Entries(up, cats, comps) && root.SectionRoot?
    requires SectionTree(up, cats, comps, section, root) && SummedUp(up, root, reset, now)
    requires StartsFrom(st, reset)
    requires (keep == Installed || keep == NotInstalled) && FilterCut(up, root, now, Opposite(keep), cut)
    requires n in up && InSection(cats, comps, Chosen(section, st, Some(keep)), n)
    ensures n in cut && cut[n] == Place(cats, comps, section, root, n)
  {
    InTables(cats, comps, Chosen(section, st, Some(keep)), n);
    FilteredNode(up, cut, cats, comps, section, root, st, reset, now, keep, n);
    ChosenInSection(cats, comps, section, st, keep, n);
    hide Closed, InSection, SummedUp, StartsFrom, Entries;
    BelowHasParent(cut, n, root);
  }

  lemma BelowHasParent(up: UpMap, n: Node, root: Node)
    requires Closed(up) && n in up && n != root && Below(up, n, root)
    ensures up[n].Some?
  {
  }

  lemma OccursInKept(cats: Table, comps: Table, section: set<string>, st: StatusMap, reset: StatusMap, n: Node, s: Status)
    requires StartsFrom(st, reset)
    ensures OccursIn(cats, comps, section, st, n, s) <==> OccursIn(cats, comps, section, reset, n, s)
  {
  }

  lemma ResetStarts(st: StatusMap, reset: StatusMap, root: Node)
    requires PlainStatuses(st) && root.SectionRoot? && root !in st
    requires reset.Keys == st.Keys + {root} && StatusesReset(st[root := NoStatus], reset)
    ensures StartsFrom(st, reset)
  {
    var rooted := st[root := NoStatus];
    assert forall n | n in st :: n in rooted && rooted[n] == st[n];
    assert forall n | n in reset :: n in rooted;
  }

  lemma SummedKeeps(up: UpMap, root: Node, st: StatusMap, reset: StatusMap, now: StatusMap, cats: Table, comps: Table, section: set<string>)
    requires Closed(up) && up.Keys == reset.Keys && SummedUp(up, root, reset, now) && StartsFrom(st, reset)
    requires Entries(up, cats, comps) && SectionTree(up, cats, comps, section, root) && root.SectionRoot?
    requires PlainStatuses(st)
    ensures ComponentsKept(st, now) && PlainStatuses(now)
  {
    forall n | n in now && !n.CategoryNode?
      ensures now[n] == reset[n]
    {
      if n != root && Below(up, n, root) {
        ComponentSum(up, cats, comps, section, root, reset, now, n);
      }
    }
  }

  /** A component is alone below itself, so it sums up to its own status. */
  lemma ComponentSum(up: UpMap, cats: Table, comps: Table, section: set<string>, root: Node, reset: StatusMap, now: StatusMap, n: Node)
    requires Closed(up) && SectionTree(up, cats, comps, section, root) && root.SectionRoot? && Filterable(reset)
    requires SummedUp(up, root, reset, now) && n in up && n in reset && n in now && !n.CategoryNode? && n != root && Below(up, n, root)
    ensures now[n] == reset[n]
  {
    InTables(cats, comps, section, n);
    forall k | k in up && Below(up, k, n)
      ensures k == n
    {
      var d: nat :| Ancestor(up, k, d) == Some(n);
      TreeChainWanted(up, cats, comps, section, root, k, n, d);
      BelowComponent(cats, comps, section, k, n);
    }
    assert Ancestor(up, n, 0) == Some(n);
    assert forall s :: OccursBelow(up, reset, n, s) <==> reset[n] == s;
  }

  lemma EntriesRootsApart(up: UpMap, cats: Table, comps: Table)
    requires Entries(up, cats, comps)
    ensures RootsApart(up)
  {
  }

  lemma RootParentless(up: UpMap, cats: Table, comps: Table, section: set<string>, root: Node)
    requires Closed(up) && SectionTree(up, cats, comps, section, root)
    ensures root in up && up[root].None?
  {
  }

  lemma EntriesCut(up: UpMap, root: Node, now: StatusMap, drop: Status, cut: UpMap, cats: Table, comps: Table)
    requires Closed(up) && Entries(up, cats, comps) && FilterCut(up, root, now, drop, cut)
    ensures Entries(cut, cats, comps) && cut.Keys == up.Keys
  {
  }

  /** One section, from whatever the sections before it left in the forest. */
  method ShowSection(f: NodeForest, cats: Table, comps: Table, section: set<string>, root: Node, keep: Option<Status>)
    requires Covers(f, cats, comps) && root.SectionRoot? && root !in f.up && PlainStatuses(f.status)
    requires keep.Some? ==> keep.value == Installed || keep.value == NotInstalled
    modifies f
    ensures Covers(f, cats, comps) && f.up.Keys == old(f.up).Keys + {root}
    ensures PlainStatuses(f.status) && ComponentsKept(old(f.status), f.status)
    ensures Shown(f.up, f.status, cats, comps, section, root, old(f.status), keep)
  {
    hide Sound, Consistent, Entries, Closed, SectionTree, SummedUp, StatusesReset, PlainStatuses, ComponentsKept,
         Shown, FilterCut, StartsFrom, Below;
    ghost var st := f.status;
    SoundParts(f.up, f.kids, f.status);
    BuildSection(f, cats, comps, section, root);
    SoundParts(f.up, f.kids, f.status);
    ghost var up, reset := f.up, f.status;
    ResetStarts(st, reset, root);
    EntriesRootsApart(up, cats, comps);
    UpdateStatuses(f, root);
    SummedKeeps(up, root, st, reset, f.status, cats, comps, section);
    if keep.None? {
      ShownUnfiltered(up, cats, comps, section, root, st, reset, f.status);
    } else {
      RootParentless(up, cats, comps, section, root);
      FilterSection(f, root, Opposite(keep.value));
      SoundParts(f.up, f.kids, f.status);
      EntriesCut(up, root, f.status, Opposite(keep.value), f.up, cats, comps);
      ShownFiltered(up, f.up, cats, comps, section, root, st, reset, f.status, keep.value);
    }
  }

  /** A category whose parent name is empty counts as top-level to the linker, yet is never shown. */
  lemma EmptyParentHidden(cats: Table, comps: Table, section: set<string>, name: string, n: Node)
    requires name in cats && cats[name] == Some("")
    requires n in TableNodes(cats, comps) && Below(Wanted(cats, comps, section), n, CategoryNode(name))
    ensures !InSection(cats, comps, section, n)
  {
    var full, top := Wanted(cats, comps, section), CategoryNode(name);
    assert full[top].None? && top !in Tops(cats);
    if InSection(cats, comps, section, n) {
      var r :| r in Tops(cats) && Below(full, n, r);
      var d: nat :| Ancestor(full, n, d) == Some(r);
      var e: nat :| Ancestor(full, n, e) == Some(top);
      assert r in full && full[r].None?;
      hide Closed;
      OneEnd(full, n, r, top, d, e);
    }
  }

  // ---------- any sequence of sections ----------

  /** A section to print: its component names, and the status a filter asks for, if any. */
  datatype Section = Section(names: set<string>, keep: Option<Status>)

  ghost function Hanging(up: UpMap, root: Node): set<Node>
    requires Closed(up)
  {
    set n | n in up && n != root && Below(up, n, root)
  }

  ghost function SectionNodes(cats: Table, comps: Table, section: set<string>): set<Node> {
    set n | n in TableNodes(cats, comps) && InSection(cats, comps, section, n)
  }

  /** What is shown of a node: where it hangs, and its status. */
  datatype View = View(place: Option<Node>, status: Status)

  /** A section as the tables, the section and the first statuses alone describe it. */
  ghost function Picture(cats: Table, comps: Table, s: Section, first: StatusMap, root: Node): map<Node, View> {
    map n | n in SectionNodes(cats, comps, Chosen(s.names, first, s.keep)) ::
      View(Place(cats, comps, s.names, root, n), StatusIn(cats, comps, s.names, first, n))
  }

  /** What the forest shows under a root. */
  ghost function Sight(up: UpMap, now: StatusMap, root: Node): map<Node, View>
    requires Closed(up)
  {
    map n | n in Hanging(up, root) :: View(up[n], At(now, n))
  }

  lemma HangingIsSection(up: UpMap, now: StatusMap, cats: Table, comps: Table, section: set<string>, root: Node,
                         first: StatusMap, st: StatusMap, keep: Option<Status>)
    requires Closed(up) && Entries(up, cats, comps) && Shown(up, now, cats, comps, section, root, st, keep)
    requires Chosen(section, st, keep) == Chosen(section, first, keep) && root.SectionRoot?
    ensures Hanging(up, root) == SectionNodes(cats, comps, Chosen(section, first, keep))
  {
    TablesCovered(up, cats, comps);
    hide InSection, Chosen;
  }

  lemma ChosenKept(s: Section, first: StatusMap, st: StatusMap)
    requires ComponentsKept(first, st) && forall n | n in st && n.ComponentNode? :: n in first
    ensures Chosen(s.names, st, s.keep) == Chosen(s.names, first, s.keep)
  {
  }

  lemma SightIsPicture(up: UpMap, now: StatusMap, cats: Table, comps: Table, s: Section, root: Node,
                       first: StatusMap, st: StatusMap)
    requires Closed(up) && Entries(up, cats, comps) && root.SectionRoot?
    requires Shown(up, now, cats, comps, s.names, root, st, s.keep)
    requires ComponentsKept(first, st) && forall n | n in st && n.ComponentNode? :: n in first
    requires forall name | name in comps :: ComponentNode(name) in first
    ensures Sight(up, now, root) == Picture(cats, comps, s, first, root)
  {
    hide Closed, Entries, Shown, ComponentsKept, InSection, Place, StatusIn, Hanging, SectionNodes, Chosen, Below;
    ChosenKept(s, first, st);
    HangingIsSection(up, now, cats, comps, s.names, root, first, st, s.keep);
    forall n | n in Hanging(up, root)
      ensures n in up && up[n] == Place(cats, comps, s.names, root, n)
      ensures At(now, n) == StatusIn(cats, comps, s.names, first, n)
    {
      NodeSeen(up, now, cats, comps, s, root, first, st, n);
    }
  }

  lemma NodeSeen(up: UpMap, now: StatusMap, cats: Table, comps: Table, s: Section, root: Node,
                 first: StatusMap, st: StatusMap, n: Node)
    requires Closed(up) && Shown(up, now, cats, comps, s.names, root, st, s.keep) && n in Hanging(up, root)
    requires ComponentsKept(first, st) && forall name | name in comps :: ComponentNode(name) in first
    ensures n in up && up[n] == Place(cats, comps, s.names, root, n)
    ensures At(now, n) == StatusIn(cats, comps, s.names, first, n)
  {
    hide Closed, InSection, Place, StatusIn, Below;
    if s.keep.Some? {
      ChosenInSection(cats, comps, s.names, st, s.keep.value, n);
    }
    SumsInKept(cats, comps, s.names, first, st, n, At(now, n));
  }

  lemma SameComponents(up: UpMap, st: StatusMap, upFirst: UpMap, first: StatusMap, cats: Table, comps: Table)
    requires Entries(up, cats, comps) && Entries(upFirst, cats, comps) && st.Keys == up.Keys && first.Keys == upFirst.Keys
    ensures forall n | n in st && n.ComponentNode? :: n in first
    ensures forall name | name in comps :: ComponentNode(name) in first
  {
    forall n | n in st && n.ComponentNode?
      ensures n in first
    {
      assert n == ComponentNode(n.name);
    }
  }

  lemma KeptOn(a: StatusMap, b: StatusMap, c: StatusMap)
    requires ComponentsKept(a, b) && ComponentsKept(b, c)
    ensures ComponentsKept(a, c)
  {
  }

  /** One section after others: what is shown below its root is what the tables and the first statuses say. */
  method ShowNext(f: NodeForest, cats: Table, comps: Table, s: Section, root: Node,
                  ghost upFirst: UpMap, ghost first: StatusMap)
    returns (ghost shown: map<Node, View>)
    requires Covers(f, cats, comps) && root.SectionRoot? && root !in f.up && PlainStatuses(f.status)
    requires s.keep.Some? ==> s.keep.value == Installed || s.keep.value == NotInstalled
    requires Entries(upFirst, cats, comps) && first.Keys == upFirst.Keys && ComponentsKept(first, f.status)
    modifies f
    ensures Covers(f, cats, comps) && f.up.Keys == old(f.up).Keys + {root}
    ensures PlainStatuses(f.status) && ComponentsKept(first, f.status)
    ensures shown == Picture(cats, comps, s, first, root)
  {
    hide Sound, Consistent, Closed, Entries, Shown, PlainStatuses, ComponentsKept, Picture, Sight, Below;
    ghost var st := f.status;
    SoundParts(f.up, f.kids, f.status);
    SameComponents(f.up, st, upFirst, first, cats, comps);
    ShowSection(f, cats, comps, s.names, root, s.keep);
    SoundParts(f.up, f.kids, f.status);
    KeptOn(first, st, f.status);
    SightIsPicture(f.up, f.status, cats, comps, s, root, first, st);
    shown := Sight(f.up, f.status, root);
  }

  /**
    Every section printed in a row shows what it would show alone in a fresh forest: its nodes,
    their places and their statuses are given by the tables, the section and the statuses the
    components had at the very start.
   */
  method ShowSections(f: NodeForest, cats: Table, comps: Table, sections: seq<Section>, base: nat)
    returns (ghost shown: seq<map<Node, View>>)
    requires Covers(f, cats, comps) && PlainStatuses(f.status)
    requires forall k: nat | k >= base :: SectionRoot(k) !in f.up
    requires forall s | s in sections && s.keep.Some? :: s.keep.value == Installed || s.keep.value == NotInstalled
    modifies f
    ensures Covers(f, cats, comps) && ComponentsKept(old(f.status), f.status)
    ensures |shown| == |sections|
    ensures forall i | 0 <= i < |sections| ::
              shown[i] == Picture(cats, comps, sections[i], old(f.status), SectionRoot(base + i))
  {
    hide Sound, Consistent, Closed, Entries, PlainStatuses, ComponentsKept, Picture;
    ghost var first, upFirst := f.status, f.up;
    SoundParts(f.up, f.kids, f.status);
    KeptAtFirst(first);
    shown := [];
    for i := 0 to |sections|
      invariant Covers(f, cats, comps) && PlainStatuses(f.status) && ComponentsKept(first, f.status)
      invariant forall k: nat | k >= base + i :: SectionRoot(k) !in f.up
      invariant |shown| == i
      invariant forall j | 0 <= j < i ::
          shown[j] == Picture(cats, comps, sections[j], first, SectionRoot(base + j))
    {
      assert sections[i] in sections;
      ghost var picture := ShowNext(f, cats, comps, sections[i], SectionRoot(base + i), upFirst, first);
      shown := shown + [picture];
    }
  }

  lemma KeptAtFirst(st: StatusMap)
    ensures ComponentsKept(st, st)
  {
  }
}
