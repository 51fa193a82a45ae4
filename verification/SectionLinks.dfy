/**
  How one section of the components list is put together: links of earlier sections are torn
  down, the category tree is restored, the section's components are hung in, categories without
  content are taken out from the bottom up, and what is left of the top level goes under a root.
  Tables are walked in an arbitrary order, as hash tables are.
 */
module SectionLinks {
  import opened Options
  import opened ParentLinks
  import opened Statuses
  import opened Forest

  /** Category or component name to the name of its parent category, if it gives one. */
  type Table = map<string, Option<string>>

  /** The forest holds a node for each table entry, and roots of earlier sections, which are parentless. */
  ghost predicate Covers(f: NodeForest, cats: Table, comps: Table)
    reads f
  {
    f.Valid() && Entries(f.up, cats, comps)
  }

  ghost predicate Entries(up: UpMap, cats: Table, comps: Table) {
    && (forall name :: CategoryNode(name) in up <==> name in cats)
    && (forall name :: ComponentNode(name) in up <==> name in comps)
    && (forall serial :: SectionRoot(serial) in up ==> up[SectionRoot(serial)].None?)
  }

  lemma EntriesKept(up: UpMap, cats: Table, comps: Table, n: Node, p: Option<Node>)
    requires Entries(up, cats, comps) && n in up && !n.SectionRoot?
    ensures Entries(up[n := p], cats, comps)
  {
  }

  /** The node an element asks to hang under: none for a missing, empty or unknown category name. */
  function Target(cats: Table, category: Option<string>): (p: Option<Node>) {
    if category.None? || category.value == "" || category.value !in cats then None
    else Some(CategoryNode(category.value))
  }

  function CategoryLink(cats: Table, n: Node): Option<Node> {
    if n.CategoryNode? && n.name in cats then Target(cats, cats[n.name]) else None
  }

  /** The link a section asks for: every category its own, and every component of the section. */
  function WantedLink(cats: Table, comps: Table, section: set<string>, n: Node): Option<Node> {
    if n.ComponentNode? && n.name in comps && n.name in section then Target(cats, comps[n.name])
    else CategoryLink(cats, n)
  }

  ghost function TableNodes(cats: Table, comps: Table): set<Node> {
    CategoryNodes(cats.Keys) + ComponentNodes(comps.Keys)
  }

  ghost function Wanted(cats: Table, comps: Table, section: set<string>): (up: UpMap)
    ensures up.Keys == TableNodes(cats, comps) && Closed(up)
  {
    map n | n in TableNodes(cats, comps) :: WantedLink(cats, comps, section, n)
  }

  /** The components of a section. */
  ghost function Leaves(comps: Table, section: set<string>): set<Node> {
    set name | name in comps && name in section :: ComponentNode(name)
  }

  /** Categories that name no parent category. An empty name is not the same as none. */
  ghost function Tops(cats: Table): set<Node> {
    set name | name in cats && cats[name].None? :: CategoryNode(name)
  }

  /**
    What a section shows, said of the tables alone: the entries whose chain of parent categories
    ends in a category without one, and that are, or have below them, a component of the section.
   */
  ghost predicate InSection(cats: Table, comps: Table, section: set<string>, n: Node) {
    n in TableNodes(cats, comps) &&
    Member(Wanted(cats, comps, section), Leaves(comps, section), Tops(cats), n)
  }

  // ---------- tearing down ----------

  ghost predicate Severed(gone: set<Node>, up: UpMap, m: Node) {
    m in up && (m in gone || (up[m].Some? && up[m].value in gone))
  }

  /** All links from and to the nodes of `gone` are cut, and no others. */
  ghost predicate Isolates(was: UpMap, now: UpMap, gone: set<Node>) {
    && now.Keys == was.Keys
    && forall m | m in was :: now[m] == if Severed(gone, was, m) then None else was[m]
  }

  lemma IsolatesMore(was: UpMap, mid: UpMap, now: UpMap, gone: set<Node>, n: Node)
    requires Isolates(was, mid, gone) && Isolates(mid, now, {n})
    ensures Isolates(was, now, gone + {n})
  {
  }

  method DeleteLinks(f: NodeForest, n: Node)
    requires f.Valid() && n in f.up
    modifies f`up, f`kids
    ensures f.Valid()
    ensures Isolates(old(f.up), f.up, {n})
  {
    hide Consistent;
    f.Unlink(n);
    while f.kids[n] != []
      invariant f.Valid() && f.up.Keys == old(f.up).Keys && f.up[n].None?
      invariant forall m | m in f.up :: f.up[m] == old(f.up)[m] || (f.up[m].None? && Severed({n}, old(f.up), m))
      decreases |f.kids[n]|
    {
      FirstChild(f.up, f.kids, n);
      f.Unlink(f.kids[n][0]);
    }
    ChildlessMeans(f.up, f.kids, n);
  }

  method DeleteTable(f: NodeForest, table: set<Node>)
    requires f.Valid() && table <= f.up.Keys
    modifies f`up, f`kids
    ensures f.Valid()
    ensures Isolates(old(f.up), f.up, table)
  {
    hide Consistent;
    ghost var done: set<Node> := {};
    var todo := table;
    while todo != {}
      invariant f.Valid() && f.up.Keys == old(f.up).Keys && todo + done == table
      invariant Isolates(old(f.up), f.up, done)
    {
      var n :| n in todo;
      label before:
      DeleteLinks(f, n);
      IsolatesMore(old(f.up), old@before(f.up), f.up, done, n);
      todo, done := todo - {n}, done + {n};
    }
  }

  // ---------- restoring the category tree ----------

  method CreateCategoryLink(f: NodeForest, cats: Table, comps: Table, name: string)
    requires Covers(f, cats, comps) && name in cats && f.up[CategoryNode(name)].None?
    modifies f`up, f`kids
    ensures Covers(f, cats, comps)
    ensures f.up == old(f.up)[CategoryNode(name) := CategoryLink(cats, CategoryNode(name))]
  {
    hide Consistent;
    var target := Target(cats, cats[name]);
    if target.None? {
      assert f.up == f.up[CategoryNode(name) := None];
      return;
    }
    f.Append(target.value, CategoryNode(name));
  }

  method RestoreCategoryLinks(f: NodeForest, cats: Table, comps: Table)
    requires Covers(f, cats, comps) && forall n | n in f.up :: f.up[n].None?
    modifies f`up, f`kids
    ensures Covers(f, cats, comps) && f.up.Keys == old(f.up).Keys
    ensures forall n | n in f.up :: f.up[n] == CategoryLink(cats, n)
  {
    hide Consistent;
    var todo := cats.Keys;
    while todo != {}
      invariant Covers(f, cats, comps) && f.up.Keys == old(f.up).Keys && todo <= cats.Keys
      invariant forall n | n in f.up ::
          f.up[n] == if n.CategoryNode? && n.name in todo then None else CategoryLink(cats, n)
    {
      var name :| name in todo;
      CreateCategoryLink(f, cats, comps, name);
      todo := todo - {name};
    }
  }

  // ---------- hanging in components, taking out empty categories ----------

  /**
    The state while categories are being pruned: every link is a wanted one, components and
    occupied categories keep theirs, and only categories of `open` may be linked without content.
   */
  ghost predicate Pruning(full: UpMap, up: UpMap, open: set<Node>) {
    && full.Keys == up.Keys && Closed(full)
    && (forall n | n in up :: up[n] == full[n] || (up[n].None? && n.CategoryNode? && !HasChild(up, n)))
    && (forall n | n in up && n.CategoryNode? && n !in open && up[n].Some? :: HasChild(up, n))
  }

  ghost function LinkCount(up: UpMap): nat {
    |set n | n in up && up[n].Some?|
  }

  lemma LinkCountDrops(up: UpMap, n: Node)
    requires n in up && up[n].Some?
    ensures LinkCount(up[n := None]) < LinkCount(up)
  {
    var linked := set m | m in up && up[m].Some?;
    var now := up[n := None];
    var rest := set m | m in now && now[m].Some?;
    assert rest == linked - {n};
  }

  /** Taking out a category without content leaves at most its parent to be looked at. */
  lemma PruneStep(full: UpMap, up: UpMap, open: set<Node>, n: Node)
    requires Pruning(full, up, open + {n}) && n in up && n.CategoryNode? && !HasChild(up, n)
    requires forall m | m in full && full[m].Some? :: full[m].value.CategoryNode?
    ensures up[n].None? ==> Pruning(full, up, open)
    ensures up[n].Some? ==>
      up[n].value in up && up[n].value.CategoryNode? && Pruning(full, up[n := None], open + {up[n].value})
  {
    if up[n].Some? {
      var p, now := up[n].value, up[n := None];
      forall m | m in up && m != p && HasChild(up, m)
        ensures HasChild(now, m)
      {
        var c :| c in up && up[c] == Some(m);
        assert c in now && now[c] == Some(m);
      }
      forall m | m in now
        ensures now[m] == full[m] || (now[m].None? && m.CategoryNode? && !HasChild(now, m))
      {
        if HasChild(now, m) {
          var c :| c in now && now[c] == Some(m);
          assert up[c] == Some(m);
        }
      }
    }
  }

  /** Walks upwards from a category without content, unlinking until a category has content. */
  method PruneUp(f: NodeForest, cats: Table, comps: Table, start: Node, ghost full: UpMap, ghost open: set<Node>)
    requires Covers(f, cats, comps)
    requires start in f.up && start.CategoryNode?
    requires Pruning(full, f.up, open + {start})
    requires forall n | n in full && full[n].Some? :: full[n].value.CategoryNode?
    modifies f`up, f`kids
    ensures Covers(f, cats, comps) && f.up.Keys == old(f.up).Keys
    ensures Pruning(full, f.up, open)
  {
    hide Consistent, Pruning, HasChild;
    var current := Some(start);
    while current.Some? && f.kids[current.value] == []
      invariant Covers(f, cats, comps) && f.up.Keys == old(f.up).Keys
      invariant current.Some? ==> current.value in f.up && current.value.CategoryNode?
      invariant Pruning(full, f.up, if current.Some? then open + {current.value} else open)
      decreases LinkCount(f.up), current.Some?
    {
      ChildlessMeans(f.up, f.kids, current.value);
      PruneStep(full, f.up, open, current.value);
      var parent := f.up[current.value];
      if parent.Some? {
        LinkCountDrops(f.up, current.value);
        f.Unlink(current.value);
      }
      current := parent;
    }
    if current.Some? {
      ChildlessMeans(f.up, f.kids, current.value);
      PruneEnd(full, f.up, open, current.value);
    }
  }

  lemma PruneEnd(full: UpMap, up: UpMap, open: set<Node>, n: Node)
    requires Pruning(full, up, open + {n}) && n in up && (HasChild(up, n) || full[n].None?)
    ensures Pruning(full, up, open)
    ensures HasChild(up, n) ==> up[n] == full[n]
  {
  }

  ghost predicate WantedIn(full: UpMap, cats: Table, comps: Table, section: set<string>) {
    forall n | n in full :: full[n] == WantedLink(cats, comps, section, n)
  }

  /** The common end of the callback: moves a node behind the other children of its category. */
  method Relink(f: NodeForest, cats: Table, comps: Table, n: Node, category: Option<string>)
    requires Covers(f, cats, comps) && n in f.up && !n.SectionRoot?
    modifies f`up, f`kids
    ensures Covers(f, cats, comps) && f.up.Keys == old(f.up).Keys
    ensures f.up == var target := Target(cats, category); if target.None? then old(f.up) else old(f.up)[n := target]
  {
    hide Consistent;
    var target := Target(cats, category);
    if target.Some? {
      f.Unlink(n);
      f.Append(target.value, n);
    }
  }

  /** The callback on a component: only the components of the section are hung in. */
  method LinkComponent(f: NodeForest, cats: Table, comps: Table, section: set<string>, name: string)
    requires Covers(f, cats, comps) && name in comps
    modifies f`up, f`kids
    ensures Covers(f, cats, comps) && f.up.Keys == old(f.up).Keys
    ensures var n := ComponentNode(name); var wanted := WantedLink(cats, comps, section, n);
            f.up == if wanted.None? then old(f.up) else old(f.up)[n := wanted]
  {
    if name !in section {
      return;
    }
    Relink(f, cats, comps, ComponentNode(name), comps[name]);
  }

  lemma CategoryCovered(up: UpMap, cats: Table, comps: Table, name: string)
    requires Entries(up, cats, comps) && name in cats
    ensures CategoryNode(name) in up
  {
  }

  lemma WantedCategories(full: UpMap, cats: Table, comps: Table, section: set<string>)
    requires WantedIn(full, cats, comps, section)
    ensures forall n | n in full && full[n].Some? :: full[n].value.CategoryNode?
    ensures forall n | n in full :: full[n] == WantedLink(cats, comps, section, n)
  {
  }

  /** The callback on a category: without content it is pruned upwards, else it is moved. */
  method LinkOrPruneCategory(f: NodeForest, cats: Table, comps: Table, section: set<string>, name: string,
                             ghost full: UpMap, ghost open: set<Node>)
    requires Covers(f, cats, comps) && name in cats
    requires WantedIn(full, cats, comps, section)
    requires Pruning(full, f.up, open + {CategoryNode(name)})
    modifies f`up, f`kids
    ensures Covers(f, cats, comps) && f.up.Keys == old(f.up).Keys
    ensures Pruning(full, f.up, open)
  {
    hide Consistent, Pruning, HasChild, Closed, Entries, WantedIn;
    var n := CategoryNode(name);
    CategoryCovered(f.up, cats, comps, name);
    WantedCategories(full, cats, comps, section);
    ChildlessMeans(f.up, f.kids, n);
    PruningKeys(full, f.up, open + {n});
    if full[n].None? || HasChild(f.up, n) {
      PruneEnd(full, f.up, open, n);
    }
    if cats[name].None? || cats[name].value == "" {
      return;
    }
    if f.kids[n] == [] {
      PruneUp(f, cats, comps, n, full, open);
      return;
    }
    Relink(f, cats, comps, n, cats[name]);
    assert f.up == old(f.up);
  }

  lemma PruningKeys(full: UpMap, up: UpMap, open: set<Node>)
    requires Pruning(full, up, open)
    ensures full.Keys == up.Keys
  {
  }

  ghost function ComponentNodes(names: set<string>): set<Node> {
    set name | name in names :: ComponentNode(name)
  }

  ghost function CategoryNodes(names: set<string>): set<Node> {
    set name | name in names :: CategoryNode(name)
  }

  lemma CategoryNodesLess(names: set<string>, name: string)
    requires name in names
    ensures CategoryNodes(names) == CategoryNodes(names - {name}) + {CategoryNode(name)}
  {
  }

  /** All links are the wanted ones, but for the components of `todo`, which have none yet. */
  ghost predicate HungIn(up: UpMap, cats: Table, comps: Table, section: set<string>, todo: set<string>) {
    forall n | n in up ::
      up[n] == if n.ComponentNode? && n.name in todo then None else WantedLink(cats, comps, section, n)
  }

  lemma HungInStep(up: UpMap, cats: Table, comps: Table, section: set<string>, todo: set<string>, name: string)
    requires HungIn(up, cats, comps, section, todo) && name in todo && ComponentNode(name) in up
    ensures var n := ComponentNode(name); var wanted := WantedLink(cats, comps, section, n);
            HungIn(if wanted.None? then up else up[n := wanted], cats, comps, section, todo - {name})
  {
  }

  method LinkComponents(f: NodeForest, cats: Table, comps: Table, section: set<string>)
    requires Covers(f, cats, comps) && forall n | n in f.up :: f.up[n] == CategoryLink(cats, n)
    modifies f`up, f`kids
    ensures Covers(f, cats, comps) && f.up.Keys == old(f.up).Keys
    ensures WantedIn(f.up, cats, comps, section)
  {
    hide Consistent;
    var todo := comps.Keys;
    assert HungIn(f.up, cats, comps, section, todo);
    while todo != {}
      invariant Covers(f, cats, comps) && f.up.Keys == old(f.up).Keys && todo <= comps.Keys
      invariant HungIn(f.up, cats, comps, section, todo)
    {
      hide HungIn, WantedLink;
      var name :| name in todo;
      HungInStep(f.up, cats, comps, section, todo, name);
      LinkComponent(f, cats, comps, section, name);
      todo := todo - {name};
    }
  }

  method PruneCategories(f: NodeForest, cats: Table, comps: Table, section: set<string>)
    requires Covers(f, cats, comps) && WantedIn(f.up, cats, comps, section)
    modifies f`up, f`kids
    ensures Covers(f, cats, comps)
    ensures Pruning(old(f.up), f.up, {})
  {
    ghost var full := f.up;
    var todo := cats.Keys;
    assert Closed(full);
    hide Consistent, Pruning, WantedIn, CategoryNodes;
    PruningStarts(f.up, cats);
    while todo != {}
      invariant Covers(f, cats, comps) && f.up.Keys == full.Keys && todo <= cats.Keys
      invariant Pruning(full, f.up, CategoryNodes(todo))
    {
      var name :| name in todo;
      CategoryNodesLess(todo, name);
      LinkOrPruneCategory(f, cats, comps, section, name, full, CategoryNodes(todo - {name}));
      todo := todo - {name};
    }
    PruningEnds(full, f.up);
  }

  lemma PruningStarts(up: UpMap, cats: Table)
    requires Closed(up) && forall name :: CategoryNode(name) in up <==> name in cats
    ensures Pruning(up, up, CategoryNodes(cats.Keys))
  {
  }

  lemma PruningEnds(full: UpMap, up: UpMap)
    requires Pruning(full, up, CategoryNodes({}))
    ensures Pruning(full, up, {})
  {
  }

  /** The top-level categories with content go under the section root. */
  ghost predicate Gathered(was: UpMap, now: UpMap, tops: set<Node>, root: Node) {
    && now.Keys == was.Keys
    && forall n | n in was :: now[n] == if n in tops && HasChild(was, n) then Some(root) else was[n]
  }

  /** The top-level categories already visited. */
  ghost function TopsBut(cats: Table, todo: set<string>): set<Node> {
    set name | name in cats && name !in todo && cats[name].None? :: CategoryNode(name)
  }

  lemma GatheredStep(was: UpMap, now: UpMap, cats: Table, todo: set<string>, root: Node, name: string)
    requires Gathered(was, now, TopsBut(cats, todo), root) && root.SectionRoot? && name in cats && name in todo
    requires root in was && CategoryNode(name) in was
    requires forall r | r in Tops(cats) && r in was :: was[r].None?
    ensures var n := CategoryNode(name);
            && root in now && n in now && (HasChild(now, n) <==> HasChild(was, n))
            && (cats[name].None? ==> now[n].None?)
            && Gathered(was, if cats[name].None? && HasChild(now, n) then now[n := Some(root)] else now,
                        TopsBut(cats, todo - {name}), root)
  {
    var n := CategoryNode(name);
    if HasChild(was, n) {
      var c :| c in was && was[c] == Some(n);
      assert now[c] == Some(n);
    }
    assert TopsBut(cats, todo - {name}) == TopsBut(cats, todo) + if cats[name].None? then {n} else {};
  }

  lemma GatheredStarts(was: UpMap, cats: Table, root: Node)
    ensures Gathered(was, was, TopsBut(cats, cats.Keys), root)
    ensures TopsBut(cats, {}) == Tops(cats)
  {
  }

  /** One category of the last walk: put under the root if it is a top-level one with content. */
  method HangTop(f: NodeForest, cats: Table, comps: Table, root: Node, name: string)
    requires Covers(f, cats, comps) && root in f.up && name in cats && CategoryNode(name) in f.up
    requires cats[name].None? ==> f.up[CategoryNode(name)].None?
    modifies f`up, f`kids
    ensures Covers(f, cats, comps)
    ensures var n := CategoryNode(name);
            f.up == if cats[name].None? && HasChild(old(f.up), n) then old(f.up)[n := Some(root)] else old(f.up)
  {
    hide Consistent, Entries, HasChild;
    var n := CategoryNode(name);
    ChildlessMeans(f.up, f.kids, n);
    if cats[name].None? && f.kids[n] != [] {
      EntriesKept(f.up, cats, comps, n, Some(root));
      f.Append(root, n);
    }
  }

  method GatherTops(f: NodeForest, cats: Table, comps: Table, root: Node)
    requires Covers(f, cats, comps) && root in f.up && root.SectionRoot?
    requires forall r | r in Tops(cats) && r in f.up :: f.up[r].None?
    modifies f`up, f`kids
    ensures Covers(f, cats, comps)
    ensures Gathered(old(f.up), f.up, Tops(cats), root)
  {
    GatheredStarts(f.up, cats, root);
    assert forall name | name in cats :: CategoryNode(name) in f.up;
    hide Consistent, Entries, HasChild, Gathered, TopsBut, Tops;
    var todo := cats.Keys;
    while todo != {}
      invariant Covers(f, cats, comps) && todo <= cats.Keys
      invariant Gathered(old(f.up), f.up, TopsBut(cats, todo), root)
    {
      var name :| name in todo;
      GatheredStep(old(f.up), f.up, cats, todo, root, name);
      HangTop(f, cats, comps, root, name);
      todo := todo - {name};
    }
  }
}
