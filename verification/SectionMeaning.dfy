/**
  What a section shows, said of category names alone: which entries, where each hangs, and with
  which status, by the chains of names that lead from a component to a category without a parent.
 */
module SectionMeaning {
  import opened Options
  import opened ParentLinks
  import opened Statuses
  import opened Forest
  import opened SectionLinks
  import opened SectionBuild
  import opened NodeTrees
  import opened SectionList

  /** Each name is a category that names the next one as its parent; the last names none. */
  ghost predicate Chain(cats: Table, chain: seq<string>) {
    && chain != []
    && forall i | 0 <= i < |chain| :: chain[i] in cats && cats[chain[i]] == Next(chain, i)
  }

  function Next(chain: seq<string>, i: nat): Option<string> {
    if i + 1 < |chain| then Some(chain[i + 1]) else None
  }

  /** The chain of a component: it names the first category, and no name in it is empty. */
  ghost predicate ChainOf(cats: Table, comps: Table, name: string, chain: seq<string>) {
    && name in comps && Chain(cats, chain) && comps[name] == Some(chain[0])
    && forall i | 0 <= i < |chain| :: chain[i] != ""
  }

  // ---------- one link up ----------

  lemma CategoryUp(cats: Table, comps: Table, section: set<string>, c: string)
    requires c in cats
    ensures CategoryNode(c) in TableNodes(cats, comps)
    ensures WantedLink(cats, comps, section, CategoryNode(c)) ==
            match cats[c]
            case Some(p) => (if p != "" && p in cats then Some(CategoryNode(p)) else None)
            case None => None
    ensures CategoryNode(c) in Tops(cats) <==> cats[c].None?
  {
  }

  lemma ComponentUp(cats: Table, comps: Table, section: set<string>, name: string)
    requires name in comps && name in section
    ensures ComponentNode(name) in TableNodes(cats, comps)
    ensures WantedLink(cats, comps, section, ComponentNode(name)) ==
            match comps[name]
            case Some(p) => (if p != "" && p in cats then Some(CategoryNode(p)) else None)
            case None => None
    ensures ComponentNode(name) !in Tops(cats)
  {
  }

  // ---------- whole ways up ----------

  lemma ChainTail(cats: Table, chain: seq<string>)
    requires Chain(cats, chain) && |chain| > 1
    ensures Chain(cats, chain[1..]) && chain[0] in cats && cats[chain[0]] == Some(chain[1]) && chain[1] in cats
  {
    var rest := chain[1..];
    forall j | 0 <= j < |rest|
      ensures rest[j] in cats && cats[rest[j]] == Next(rest, j)
    {
      assert chain[j + 1] in cats;
    }
    assert chain[0] in cats && chain[1] in cats;
  }

  lemma ChainMore(cats: Table, c: string, rest: seq<string>)
    requires c in cats && Chain(cats, rest) && cats[c] == Some(rest[0])
    ensures Chain(cats, [c] + rest)
  {
    var chain := [c] + rest;
    forall i | 0 <= i < |chain|
      ensures chain[i] in cats && cats[chain[i]] == Next(chain, i)
    {
      if i > 0 {
        assert rest[i - 1] in cats;
      }
    }
  }

  /** The links of the tables follow a chain. */
  lemma {:induction false} UpAlong(cats: Table, comps: Table, section: set<string>, chain: seq<string>, i: nat)
    requires Chain(cats, chain) && i < |chain| && forall j | 1 <= j < |chain| :: chain[j] != ""
    ensures CategoryNode(chain[0]) in TableNodes(cats, comps)
    ensures Ancestor(Wanted(cats, comps, section), CategoryNode(chain[0]), i) == Some(CategoryNode(chain[i]))
    decreases i
  {
    hide *;
    ChainHead(cats, chain);
    CategoryUp(cats, comps, section, chain[0]);
    WantedStep(cats, comps, section, CategoryNode(chain[0]), i);
    if i > 0 {
      ChainTail(cats, chain);
      var rest := chain[1..];
      assert forall j | 1 <= j < |rest| :: rest[j] == chain[j + 1];
      UpAlong(cats, comps, section, rest, i - 1);
    }
  }

  lemma ChainHead(cats: Table, chain: seq<string>)
    requires Chain(cats, chain)
    ensures chain != [] && chain[0] in cats
  {
    assert chain[0] in cats;
  }

  /** A way up from a category to one without a parent is a chain. */
  lemma {:induction false} ChainFrom(cats: Table, comps: Table, section: set<string>, c: string, d: nat, r: Node)
    returns (chain: seq<string>)
    requires c in cats && r in Tops(cats) && CategoryNode(c) in TableNodes(cats, comps)
    requires Ancestor(Wanted(cats, comps, section), CategoryNode(c), d) == Some(r)
    ensures Chain(cats, chain) && chain[0] == c && |chain| == d + 1
    ensures forall j | 1 <= j < |chain| :: chain[j] != ""
    decreases d
  {
    hide *;
    CategoryUp(cats, comps, section, c);
    WantedStep(cats, comps, section, CategoryNode(c), d);
    TopCategory(cats, r);
    if d == 0 {
      chain := [c];
      ChainOfOne(cats, c);
    } else {
      var p := cats[c].value;
      CategoryUp(cats, comps, section, p);
      var rest := ChainFrom(cats, comps, section, p, d - 1, r);
      ChainMore(cats, c, rest);
      chain := [c] + rest;
      assert forall j | 1 <= j < |chain| :: chain[j] == rest[j - 1];
    }
  }

  lemma ChainOfOne(cats: Table, c: string)
    requires c in cats && cats[c].None?
    ensures Chain(cats, [c])
  {
  }

  lemma TopCategory(cats: Table, r: Node)
    requires r in Tops(cats)
    ensures r.CategoryNode? && r.name in cats && cats[r.name].None?
  {
  }

  /** A component's way up is its chain: the category at distance `i` is the `i`th name. */
  lemma ComponentAlong(cats: Table, comps: Table, section: set<string>, name: string, chain: seq<string>, i: nat)
    requires ChainOf(cats, comps, name, chain) && name in section && i < |chain|
    ensures ComponentNode(name) in TableNodes(cats, comps)
    ensures Ancestor(Wanted(cats, comps, section), ComponentNode(name), i + 1) == Some(CategoryNode(chain[i]))
  {
    ComponentUp(cats, comps, section, name);
    WantedStep(cats, comps, section, ComponentNode(name), i + 1);
    hide Wanted, WantedLink, TableNodes, Ancestor;
    UpAlong(cats, comps, section, chain, i);
  }

  /** A component's way up to a category without a parent is its chain. */
  lemma ChainOfComponent(cats: Table, comps: Table, section: set<string>, name: string, d: nat, r: Node)
    returns (chain: seq<string>)
    requires name in comps && name in section && r in Tops(cats) && ComponentNode(name) in TableNodes(cats, comps)
    requires Ancestor(Wanted(cats, comps, section), ComponentNode(name), d) == Some(r)
    ensures ChainOf(cats, comps, name, chain) && |chain| == d
  {
    hide *;
    ComponentUp(cats, comps, section, name);
    WantedStep(cats, comps, section, ComponentNode(name), d);
    var p := comps[name].value;
    CategoryUp(cats, comps, section, p);
    chain := ChainFrom(cats, comps, section, p, d - 1, r);
    IsChainOf(cats, comps, name, chain);
  }

  lemma IsChainOf(cats: Table, comps: Table, name: string, chain: seq<string>)
    requires name in comps && Chain(cats, chain) && comps[name] == Some(chain[0]) && chain[0] != ""
    requires forall j | 1 <= j < |chain| :: chain[j] != ""
    ensures ChainOf(cats, comps, name, chain)
  {
  }

  // ---------- which entries ----------

  /** A component is in a section if and only if it is of the section and has a chain. */
  lemma ComponentShown(cats: Table, comps: Table, section: set<string>, name: string)
    ensures InSection(cats, comps, section, ComponentNode(name)) <==>
            name in section && exists chain :: ChainOf(cats, comps, name, chain)
  {
    var full, n := Wanted(cats, comps, section), ComponentNode(name);
    hide Wanted, WantedLink, TableNodes, Ancestor, Tops, ChainOf;
    if InSection(cats, comps, section, n) {
      ComponentInSection(cats, comps, section, n);
      var r :| r in Tops(cats) && Below(full, n, r);
      var d: nat :| Ancestor(full, n, d) == Some(r);
      var chain := ChainOfComponent(cats, comps, section, name, d, r);
    }
    if name in section && exists chain :: ChainOf(cats, comps, name, chain) {
      var chain :| ChainOf(cats, comps, name, chain);
      ChainEnds(cats, comps, name, chain);
      ComponentAlong(cats, comps, section, name, chain, |chain| - 1);
      assert Below(full, n, CategoryNode(chain[|chain| - 1]));
      BelowItself(full, n);
      assert n in Leaves(comps, section);
    }
  }

  lemma ChainEnds(cats: Table, comps: Table, name: string, chain: seq<string>)
    requires ChainOf(cats, comps, name, chain)
    ensures name in comps && chain != [] && CategoryNode(chain[|chain| - 1]) in Tops(cats)
    ensures forall i | 0 <= i < |chain| :: chain[i] in cats
  {
    assert chain[|chain| - 1] in cats;
  }

  lemma BelowItself(up: UpMap, n: Node)
    requires Closed(up) && n in up
    ensures Below(up, n, n)
  {
    assert Ancestor(up, n, 0) == Some(n);
  }

  /** A category is in a section if and only if the chain of some component of the section runs through it. */
  lemma CategoryShown(cats: Table, comps: Table, section: set<string>, c: string)
    ensures InSection(cats, comps, section, CategoryNode(c)) <==>
            exists name, chain, i :: name in section && ChainOf(cats, comps, name, chain) && 0 <= i < |chain| && chain[i] == c
  {
    hide InSection, ChainOf;
    if InSection(cats, comps, section, CategoryNode(c)) {
      var name, chain, i := ChainThrough(cats, comps, section, c);
    }
    if exists name, chain, i :: name in section && ChainOf(cats, comps, name, chain) && 0 <= i < |chain| && chain[i] == c {
      var name, chain, i :| name in section && ChainOf(cats, comps, name, chain) && 0 <= i < |chain| && chain[i] == c;
      OnChainShown(cats, comps, section, name, chain, i);
    }
  }

  lemma ChainThrough(cats: Table, comps: Table, section: set<string>, c: string)
    returns (name: string, chain: seq<string>, i: nat)
    requires InSection(cats, comps, section, CategoryNode(c))
    ensures name in section && ChainOf(cats, comps, name, chain) && i < |chain| && chain[i] == c
  {
    var full, n := Wanted(cats, comps, section), CategoryNode(c);
    hide Wanted, WantedLink, TableNodes, Ancestor, Tops, ChainOf;
    var r :| r in Tops(cats) && Below(full, n, r);
    var k :| k in Leaves(comps, section) && k in full && Below(full, k, n);
    name := k.name;
    var e: nat :| Ancestor(full, k, e) == Some(n);
    chain, i := JoinedChain(cats, comps, section, name, c, e, r);
  }

  lemma JoinedChain(cats: Table, comps: Table, section: set<string>, name: string, c: string, e: nat, r: Node)
    returns (chain: seq<string>, i: nat)
    requires name in comps && name in section && ComponentNode(name) in TableNodes(cats, comps) && r in Tops(cats)
    requires Ancestor(Wanted(cats, comps, section), ComponentNode(name), e) == Some(CategoryNode(c))
    requires CategoryNode(c) in TableNodes(cats, comps) && Below(Wanted(cats, comps, section), CategoryNode(c), r)
    ensures ChainOf(cats, comps, name, chain) && i < |chain| && chain[i] == c
  {
    var full, k := Wanted(cats, comps, section), ComponentNode(name);
    hide *;
    var d := Distance(full, CategoryNode(c), r);
    NoStepUp(cats, comps, section, k);
    AncestorSum(full, k, e, d);
    chain := ChainOfComponent(cats, comps, section, name, e + d, r);
    i := e - 1;
    ComponentAlong(cats, comps, section, name, chain, i);
  }

  lemma Distance(up: UpMap, n: Node, a: Node) returns (d: nat)
    requires Closed(up) && n in up && Below(up, n, a)
    ensures Ancestor(up, n, d) == Some(a)
  {
    d :| Ancestor(up, n, d) == Some(a);
  }

  lemma NoStepUp(cats: Table, comps: Table, section: set<string>, k: Node)
    requires k in TableNodes(cats, comps)
    ensures Ancestor(Wanted(cats, comps, section), k, 0) == Some(k)
  {
  }

  lemma OnChainShown(cats: Table, comps: Table, section: set<string>, name: string, chain: seq<string>, i: nat)
    requires name in section && ChainOf(cats, comps, name, chain) && i < |chain|
    ensures InSection(cats, comps, section, CategoryNode(chain[i]))
  {
    var full, k, n := Wanted(cats, comps, section), ComponentNode(name), CategoryNode(chain[i]);
    ChainEnds(cats, comps, name, chain);
    CategoryUp(cats, comps, section, chain[i]);
    AlongChain(cats, comps, section, name, chain, i);
    hide Wanted, WantedLink, TableNodes, Ancestor, Below, Tops, ChainOf;
    assert k in Leaves(comps, section);
  }

  lemma AlongChain(cats: Table, comps: Table, section: set<string>, name: string, chain: seq<string>, i: nat)
    requires name in section && ChainOf(cats, comps, name, chain) && i < |chain| && name in comps
    ensures ComponentNode(name) in TableNodes(cats, comps) && CategoryNode(chain[i]) in TableNodes(cats, comps)
    ensures Below(Wanted(cats, comps, section), ComponentNode(name), CategoryNode(chain[i]))
    ensures Below(Wanted(cats, comps, section), CategoryNode(chain[i]), CategoryNode(chain[|chain| - 1]))
  {
    hide *;
    var full, k, n, last := Wanted(cats, comps, section), ComponentNode(name), CategoryNode(chain[i]), |chain| - 1;
    ChainEnds(cats, comps, name, chain);
    CategoryUp(cats, comps, section, chain[i]);
    ComponentAlong(cats, comps, section, name, chain, i);
    ComponentAlong(cats, comps, section, name, chain, last);
    AncestorSum(full, k, i + 1, last - i);
    IsBelow(full, k, n, i + 1);
    IsBelow(full, n, CategoryNode(chain[last]), last - i);
  }

  lemma IsBelow(up: UpMap, n: Node, a: Node, d: nat)
    requires Closed(up) && n in up && Ancestor(up, n, d) == Some(a)
    ensures Below(up, n, a)
  {
  }

  /** A root of a section is never an entry of one. */
  lemma RootNotShown(cats: Table, comps: Table, section: set<string>, serial: nat)
    ensures !InSection(cats, comps, section, SectionRoot(serial))
  {
  }

  // ---------- where they hang ----------

  /** A component hangs under the category it names, and a category under the next one of its chain or the root. */
  lemma PlaceOnChain(cats: Table, comps: Table, section: set<string>, root: Node, name: string, chain: seq<string>)
    requires name in section && ChainOf(cats, comps, name, chain)
    ensures Place(cats, comps, section, root, ComponentNode(name)) == Some(CategoryNode(chain[0]))
    ensures forall i | 0 <= i < |chain| ::
              Place(cats, comps, section, root, CategoryNode(chain[i])) ==
              Some(if i + 1 < |chain| then CategoryNode(chain[i + 1]) else root)
  {
    ComponentUp(cats, comps, section, name);
    hide WantedLink, Tops;
    forall i | 0 <= i < |chain|
      ensures Place(cats, comps, section, root, CategoryNode(chain[i])) ==
              Some(if i + 1 < |chain| then CategoryNode(chain[i + 1]) else root)
    {
      assert chain[i] in cats && (i + 1 < |chain| ==> chain[i + 1] in cats && chain[i + 1] != "");
      CategoryUp(cats, comps, section, chain[i]);
    }
  }

  // ---------- with which status ----------

  /** The chain of a component of the section with status `s` runs through a category. */
  ghost predicate HasUnder(cats: Table, comps: Table, section: set<string>, st: StatusMap, c: string, s: Status) {
    exists name, chain, i ::
      name in section && ChainOf(cats, comps, name, chain) && 0 <= i < |chain| && chain[i] == c && At(st, ComponentNode(name)) == s
  }

  /** What a category of the section shows. */
  lemma CategoryStatus(cats: Table, comps: Table, section: set<string>, st: StatusMap, c: string)
    requires InSection(cats, comps, section, CategoryNode(c))
    ensures StatusIn(cats, comps, section, st, CategoryNode(c)) ==
            if HasUnder(cats, comps, section, st, c, Installed) && HasUnder(cats, comps, section, st, c, NotInstalled)
            then PartiallyInstalled
            else if HasUnder(cats, comps, section, st, c, Installed) then Installed
            else if HasUnder(cats, comps, section, st, c, NotInstalled) then NotInstalled
            else NoStatus
  {
    OccursIsUnder(cats, comps, section, st, c, Installed);
    OccursIsUnder(cats, comps, section, st, c, NotInstalled);
    hide OccursIn, HasUnder, InSection;
  }

  lemma OccursAbove(cats: Table, comps: Table, section: set<string>, st: StatusMap, n: Node, s: Status)
    returns (name: string, e: nat)
    requires OccursIn(cats, comps, section, st, n, s)
    ensures name in comps && name in section && At(st, ComponentNode(name)) == s
    ensures ComponentNode(name) in TableNodes(cats, comps)
    ensures Ancestor(Wanted(cats, comps, section), ComponentNode(name), e) == Some(n)
  {
    var full := Wanted(cats, comps, section);
    name :| name in comps && name in section && Below(full, ComponentNode(name), n) && At(st, ComponentNode(name)) == s;
    e :| Ancestor(full, ComponentNode(name), e) == Some(n);
  }

  lemma OccursIsUnder(cats: Table, comps: Table, section: set<string>, st: StatusMap, c: string, s: Status)
    requires InSection(cats, comps, section, CategoryNode(c))
    ensures OccursIn(cats, comps, section, st, CategoryNode(c), s) <==> HasUnder(cats, comps, section, st, c, s)
  {
    var full, n := Wanted(cats, comps, section), CategoryNode(c);
    hide Wanted, WantedLink, TableNodes, Ancestor, Tops, ChainOf;
    if OccursIn(cats, comps, section, st, n, s) {
      var name, e := OccursAbove(cats, comps, section, st, n, s);
      var r :| r in Tops(cats) && Below(full, n, r);
      var chain, i := JoinedChain(cats, comps, section, name, c, e, r);
    }
    if HasUnder(cats, comps, section, st, c, s) {
      var name, chain, i :| name in section && ChainOf(cats, comps, name, chain) && 0 <= i < |chain| && chain[i] == c
                            && At(st, ComponentNode(name)) == s;
      ChainEnds(cats, comps, name, chain);
      ComponentAlong(cats, comps, section, name, chain, i);
      assert Below(full, ComponentNode(name), n);
    }
  }

  /** A component shows its own status. */
  lemma ComponentStatus(cats: Table, comps: Table, section: set<string>, st: StatusMap, name: string)
    requires InSection(cats, comps, section, ComponentNode(name))
    requires At(st, ComponentNode(name)) != PartiallyInstalled
    ensures StatusIn(cats, comps, section, st, ComponentNode(name)) == At(st, ComponentNode(name))
  {
    var full, n := Wanted(cats, comps, section), ComponentNode(name);
    ComponentInSection(cats, comps, section, n);
    BelowItself(full, n);
    forall s
      ensures OccursIn(cats, comps, section, st, n, s) <==> At(st, n) == s
    {
      OwnStatusOnly(cats, comps, section, st, name, s);
    }
    hide OccursIn, InSection;
  }

  lemma OwnStatusOnly(cats: Table, comps: Table, section: set<string>, st: StatusMap, name: string, s: Status)
    requires name in comps && name in section
    requires Below(Wanted(cats, comps, section), ComponentNode(name), ComponentNode(name))
    ensures OccursIn(cats, comps, section, st, ComponentNode(name), s) <==> At(st, ComponentNode(name)) == s
  {
    var full, n := Wanted(cats, comps, section), ComponentNode(name);
    if OccursIn(cats, comps, section, st, n, s) {
      var other :| other in comps && other in section && Below(full, ComponentNode(other), n) && At(st, ComponentNode(other)) == s;
      BelowComponent(cats, comps, section, ComponentNode(other), n);
    }
  }

  // ---------- the picture of a section ----------

  /** A component of the section that the filter asks for, if there is one. */
  ghost predicate Asked(s: Section, first: StatusMap, name: string) {
    name in s.names && (s.keep.Some? ==> At(first, ComponentNode(name)) == s.keep.value)
  }

  lemma ChosenAreAsked(s: Section, first: StatusMap)
    ensures forall name :: name in Chosen(s.names, first, s.keep) <==> Asked(s, first, name)
  {
  }

  /** A component is shown if and only if it is asked for and has a chain: under the category it names, with its status. */
  lemma PictureOfComponent(cats: Table, comps: Table, s: Section, first: StatusMap, root: Node, name: string)
    requires At(first, ComponentNode(name)) != PartiallyInstalled
    ensures var picture, n := Picture(cats, comps, s, first, root), ComponentNode(name);
            && (n in picture <==> Asked(s, first, name) && exists chain :: ChainOf(cats, comps, name, chain))
            && forall chain | n in picture && ChainOf(cats, comps, name, chain) ::
                 picture[n] == View(Some(CategoryNode(chain[0])), At(first, n))
  {
    var less, n := Chosen(s.names, first, s.keep), ComponentNode(name);
    ChosenAreAsked(s, first);
    ComponentShown(cats, comps, less, name);
    ComponentShown(cats, comps, s.names, name);
    PictureKeys(cats, comps, s, first, root, n);
    if InSection(cats, comps, s.names, n) {
      ComponentStatus(cats, comps, s.names, first, name);
    }
    hide InSection, Chosen, Place, StatusIn, ChainOf, Picture;
    forall chain | n in Picture(cats, comps, s, first, root) && ChainOf(cats, comps, name, chain)
      ensures Picture(cats, comps, s, first, root)[n] == View(Some(CategoryNode(chain[0])), At(first, n))
    {
      PlaceOnChain(cats, comps, s.names, root, name, chain);
    }
  }

  lemma PictureKeys(cats: Table, comps: Table, s: Section, first: StatusMap, root: Node, n: Node)
    ensures var picture := Picture(cats, comps, s, first, root);
            && (n in picture <==> InSection(cats, comps, Chosen(s.names, first, s.keep), n))
            && (n in picture ==>
                  picture[n] == View(Place(cats, comps, s.names, root, n), StatusIn(cats, comps, s.names, first, n)))
  {
    hide Chosen, Place, StatusIn;
  }

  /**
    A category is shown if and only if the chain of a component that is asked for runs through it:
    under the next category of that chain or the root, with the status of all components of the
    section whose chains run through it.
   */
  lemma PictureOfCategory(cats: Table, comps: Table, s: Section, first: StatusMap, root: Node, c: string)
    ensures var picture, n := Picture(cats, comps, s, first, root), CategoryNode(c);
            && (n in picture <==>
                  exists name, chain, i ::
                    Asked(s, first, name) && ChainOf(cats, comps, name, chain) && 0 <= i < |chain| && chain[i] == c)
            && forall name, chain, i |
                 Asked(s, first, name) && ChainOf(cats, comps, name, chain) && 0 <= i < |chain| && chain[i] == c ::
                 n in picture
                 && picture[n].place == Some(if i + 1 < |chain| then CategoryNode(chain[i + 1]) else root)
                 && picture[n].status == StatusIn(cats, comps, s.names, first, n)
  {
    var picture, n := Picture(cats, comps, s, first, root), CategoryNode(c);
    ChosenAreAsked(s, first);
    CategoryShown(cats, comps, Chosen(s.names, first, s.keep), c);
    PictureKeys(cats, comps, s, first, root, n);
    hide InSection, Chosen, Place, StatusIn, ChainOf, Picture;
    forall name, chain, i | Asked(s, first, name) && ChainOf(cats, comps, name, chain) && 0 <= i < |chain| && chain[i] == c
      ensures n in picture
      ensures picture[n].place == Some(if i + 1 < |chain| then CategoryNode(chain[i + 1]) else root)
      ensures picture[n].status == StatusIn(cats, comps, s.names, first, n)
    {
      PlaceOnChain(cats, comps, s.names, root, name, chain);
    }
  }
}
