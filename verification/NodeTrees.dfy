/** The part of a forest under one node, as a value, and the status each of its nodes sums up to. */
module NodeTrees {
  import opened Options
  import opened ParentLinks
  import opened Statuses
  import opened Forest

  datatype Tree = Tree(node: Node, kids: seq<Tree>)

  type StatusMap = map<Node, Status>

  ghost predicate Has(t: Tree, m: Node) {
    m == t.node || HasAmong(t.kids, m)
  }

  ghost predicate HasAmong(ts: seq<Tree>, m: Node) {
    exists i :: 0 <= i < |ts| && Has(ts[i], m)
  }

  /** The child lists under `t.node` have the shape of `t`. */
  ghost predicate Mirrors(t: Tree, kids: KidMap) {
    && t.node in kids
    && |t.kids| == |kids[t.node]|
    && forall i | 0 <= i < |t.kids| :: t.kids[i].node == kids[t.node][i] && Mirrors(t.kids[i], kids)
  }

  /** No node occurs twice. */
  ghost predicate Proper(t: Tree) {
    && !HasAmong(t.kids, t.node)
    && (forall i, j, m | 0 <= i < j < |t.kids| :: !(Has(t.kids[i], m) && Has(t.kids[j], m)))
    && forall i | 0 <= i < |t.kids| :: Proper(t.kids[i])
  }

  ghost function At(st: StatusMap, n: Node): Status {
    if n in st then st[n] else NoStatus
  }

  /**
    The status of `t.node` once its subtree has been visited in post-order: what it was, joined with
    the final status of each child in turn. A root carries no element and is never written.
   */
  ghost function Value(t: Tree, st: StatusMap): Status
    decreases t
  {
    if t.node.SectionRoot? then At(st, t.node) else JoinKids(t.kids, |t.kids|, st, At(st, t.node))
  }

  ghost function JoinKids(ts: seq<Tree>, i: nat, st: StatusMap, own: Status): Status
    requires i <= |ts|
    decreases ts, i
  {
    if i == 0 then own else Join(JoinKids(ts, i - 1, st, own), Value(ts[i - 1], st))
  }

  /** Every node of `t` has in `now` the value its subtree has in `st`. */
  ghost predicate Settled(t: Tree, st: StatusMap, now: StatusMap) {
    && At(now, t.node) == Value(t, st)
    && forall i | 0 <= i < |t.kids| :: Settled(t.kids[i], st, now)
  }

  ghost predicate SameOn(t: Tree, a: StatusMap, b: StatusMap) {
    forall m | Has(t, m) :: At(a, m) == At(b, m)
  }

  lemma {:induction false} SettledFrame(t: Tree, st: StatusMap, st': StatusMap, now: StatusMap, now': StatusMap)
    requires Settled(t, st, now) && SameOn(t, st, st') && SameOn(t, now, now')
    ensures Settled(t, st', now')
  {
    ValueFrame(t, st, st');
    forall i | 0 <= i < |t.kids|
      ensures Settled(t.kids[i], st', now')
    {
      assert forall m | Has(t.kids[i], m) :: Has(t, m);
      SettledFrame(t.kids[i], st, st', now, now');
    }
  }

  lemma {:induction false} ValueFrame(t: Tree, st: StatusMap, st': StatusMap)
    requires SameOn(t, st, st')
    ensures Value(t, st) == Value(t, st')
    decreases t
  {
    assert forall i, m | 0 <= i < |t.kids| && Has(t.kids[i], m) :: Has(t, m);
    JoinFrame(t.kids, |t.kids|, st, st', At(st, t.node));
  }

  lemma {:induction false} JoinFrame(ts: seq<Tree>, i: nat, st: StatusMap, st': StatusMap, own: Status)
    requires i <= |ts| && forall j | 0 <= j < i :: SameOn(ts[j], st, st')
    ensures JoinKids(ts, i, st, own) == JoinKids(ts, i, st', own)
    decreases ts, i
  {
    if i > 0 {
      JoinFrame(ts, i - 1, st, st', own);
      ValueFrame(ts[i - 1], st, st');
    }
  }

  lemma {:induction false} MirrorsFrame(t: Tree, kids: KidMap, kids': KidMap)
    requires Mirrors(t, kids) && forall m | Has(t, m) && m in kids :: m in kids' && kids'[m] == kids[m]
    ensures Mirrors(t, kids')
  {
    assert Has(t, t.node);
    forall i | 0 <= i < |t.kids|
      ensures Mirrors(t.kids[i], kids')
    {
      assert forall m | Has(t.kids[i], m) :: Has(t, m);
      MirrorsFrame(t.kids[i], kids, kids');
    }
  }

  // ---------- what a value means ----------

  /** The statuses found in a subtree. */
  ghost predicate Occurs(t: Tree, st: StatusMap, s: Status) {
    exists m :: Has(t, m) && At(st, m) == s
  }

  ghost predicate OccursAmong(ts: seq<Tree>, i: nat, st: StatusMap, s: Status)
    requires i <= |ts|
  {
    exists j :: 0 <= j < i && Occurs(ts[j], st, s)
  }

  function Present(installed: bool, not: bool, partially: bool): set<Status> {
    (if installed then {Installed} else {}) + (if not then {NotInstalled} else {})
    + (if partially then {PartiallyInstalled} else {})
  }

  /** `v` is what the present statuses say together; see `Summary`. */
  ghost predicate Sums(v: Status, installed: bool, not: bool, partially: bool) {
    v == Summary(Present(installed, not, partially))
  }

  lemma JoinSums(a: Status, b: Status, i1: bool, n1: bool, p1: bool, i2: bool, n2: bool, p2: bool)
    requires Sums(a, i1, n1, p1) && Sums(b, i2, n2, p2)
    ensures Sums(Join(a, b), i1 || i2, n1 || n2, p1 || p2)
  {
    var x, y := Present(i1, n1, p1), Present(i2, n2, p2);
    assert x + y == Present(i1 || i2, n1 || n2, p1 || p2);
    hide Join, Summary, Present;
    JoinIsUnion(x, y);
  }

  /** The value of a subtree is the summary of all statuses in it, in whatever order children come. */
  lemma {:induction false} ValueSums(t: Tree, st: StatusMap)
    requires !t.node.SectionRoot?
    requires forall m | Has(t, m) :: !m.SectionRoot?
    ensures Sums(Value(t, st), Occurs(t, st, Installed), Occurs(t, st, NotInstalled), Occurs(t, st, PartiallyInstalled))
    decreases t
  {
    var own := At(st, t.node);
    assert forall i, m | 0 <= i < |t.kids| && Has(t.kids[i], m) :: Has(t, m);
    JoinKidsSums(t.kids, |t.kids|, st, own);
    forall s: Status
      ensures Occurs(t, st, s) <==> own == s || OccursAmong(t.kids, |t.kids|, st, s)
    {
      OccursSplit(t, st, s);
    }
  }

  lemma OccursSplit(t: Tree, st: StatusMap, s: Status)
    ensures Occurs(t, st, s) <==> At(st, t.node) == s || OccursAmong(t.kids, |t.kids|, st, s)
  {
    if At(st, t.node) == s {
      assert Has(t, t.node);
    }
    if OccursAmong(t.kids, |t.kids|, st, s) {
      var j :| 0 <= j < |t.kids| && Occurs(t.kids[j], st, s);
      var m :| Has(t.kids[j], m) && At(st, m) == s;
      assert Has(t, m);
    }
    if Occurs(t, st, s) && At(st, t.node) != s {
      var m :| Has(t, m) && At(st, m) == s;
      assert m != t.node && HasAmong(t.kids, m);
      var j :| 0 <= j < |t.kids| && Has(t.kids[j], m);
      assert Occurs(t.kids[j], st, s);
    }
  }

  lemma {:induction false} JoinKidsSums(ts: seq<Tree>, i: nat, st: StatusMap, own: Status)
    requires i <= |ts| && forall j, m | 0 <= j < |ts| && Has(ts[j], m) :: !m.SectionRoot?
    ensures Sums(JoinKids(ts, i, st, own),
                 own == Installed || OccursAmong(ts, i, st, Installed),
                 own == NotInstalled || OccursAmong(ts, i, st, NotInstalled),
                 own == PartiallyInstalled || OccursAmong(ts, i, st, PartiallyInstalled))
    decreases ts, i
  {
    if i > 0 {
      var t := ts[i - 1];
      assert Has(t, t.node);
      JoinKidsSums(ts, i - 1, st, own);
      ValueSums(t, st);
      forall s: Status
        ensures OccursAmong(ts, i, st, s) <==> OccursAmong(ts, i - 1, st, s) || Occurs(t, st, s)
      {
        OccursAmongStep(ts, i, st, s);
      }
      hide OccursAmong, Occurs;
      JoinSums(JoinKids(ts, i - 1, st, own), Value(t, st),
               own == Installed || OccursAmong(ts, i - 1, st, Installed),
               own == NotInstalled || OccursAmong(ts, i - 1, st, NotInstalled),
               own == PartiallyInstalled || OccursAmong(ts, i - 1, st, PartiallyInstalled),
               Occurs(t, st, Installed), Occurs(t, st, NotInstalled), Occurs(t, st, PartiallyInstalled));
    }
  }

  lemma OccursAmongStep(ts: seq<Tree>, i: nat, st: StatusMap, s: Status)
    requires 0 < i <= |ts|
    ensures OccursAmong(ts, i, st, s) <==> OccursAmong(ts, i - 1, st, s) || Occurs(ts[i - 1], st, s)
  {
    if OccursAmong(ts, i, st, s) && !Occurs(ts[i - 1], st, s) {
      var j :| 0 <= j < i && Occurs(ts[j], st, s);
      assert j < i - 1;
    }
    if OccursAmong(ts, i - 1, st, s) {
      var j :| 0 <= j < i - 1 && Occurs(ts[j], st, s);
      assert j < i;
    }
  }

  // ---------- a second pass ----------

  /** What has been joined in once is absorbed from then on. */
  lemma {:induction false} JoinAbsorbs(ts: seq<Tree>, i: nat, st: StatusMap, own: Status, j: nat)
    requires j < i <= |ts|
    ensures Join(JoinKids(ts, i, st, own), Value(ts[j], st)) == JoinKids(ts, i, st, own)
    decreases i
  {
    if j < i - 1 {
      JoinAbsorbs(ts, i - 1, st, own, j);
    }
  }

  lemma {:induction false} SecondJoin(ts: seq<Tree>, i: nat, st: StatusMap, now: StatusMap, own: Status)
    requires i <= |ts| && forall j | 0 <= j < |ts| :: Value(ts[j], now) == Value(ts[j], st)
    ensures var v := JoinKids(ts, |ts|, st, own); JoinKids(ts, i, now, v) == v
    decreases i
  {
    if i > 0 {
      SecondJoin(ts, i - 1, st, now, own);
      JoinAbsorbs(ts, |ts|, st, own, i - 1);
    }
  }

  lemma {:induction false} SecondValue(t: Tree, st: StatusMap, now: StatusMap)
    requires Settled(t, st, now)
    ensures Value(t, now) == At(now, t.node) && Settled(t, now, now)
    decreases t
  {
    forall i | 0 <= i < |t.kids|
      ensures Value(t.kids[i], now) == Value(t.kids[i], st) && Settled(t.kids[i], now, now)
    {
      SecondValue(t.kids[i], st, now);
    }
    SecondJoin(t.kids, |t.kids|, st, now, At(st, t.node));
  }

  // ---------- the tree under a root exists ----------

  /** The subtree of `n`, cut off `fuel` levels down. */
  ghost function Unfold(kids: KidMap, n: Node, fuel: nat): Tree
    requires n in kids && forall m, i | m in kids && 0 <= i < |kids[m]| :: kids[m][i] in kids
    decreases fuel
  {
    if fuel == 0 then Tree(n, []) else Tree(n, seq(|kids[n]|, i requires 0 <= i < |kids[n]| => Unfold(kids, kids[n][i], fuel - 1)))
  }

  /** Nothing hangs deeper than the forest has nodes, so enough fuel reaches every leaf. */
  lemma {:induction false} UnfoldMirrors(up: UpMap, kids: KidMap, root: Node, n: Node, d: nat, fuel: nat)
    requires Consistent(up, kids) && root in up && up[root].None?
    requires n in up && Ancestor(up, n, d) == Some(root) && d + fuel >= |up|
    ensures Mirrors(Unfold(kids, n, fuel), kids)
    decreases fuel
  {
    DepthBound(up, n, root, d);
    var t := Unfold(kids, n, fuel);
    forall i | 0 <= i < |t.kids|
      ensures t.kids[i].node == kids[n][i] && Mirrors(t.kids[i], kids)
    {
      UnfoldMirrors(up, kids, root, kids[n][i], d + 1, fuel - 1);
    }
  }

  lemma {:induction false} HasIsBelow(up: UpMap, kids: KidMap, t: Tree, m: Node) returns (d: nat)
    requires Consistent(up, kids) && Mirrors(t, kids) && Has(t, m)
    ensures m in up && Ancestor(up, m, d) == Some(t.node)
  {
    if m == t.node {
      d := 0;
    } else {
      var i :| 0 <= i < |t.kids| && Has(t.kids[i], m);
      var e := HasIsBelow(up, kids, t.kids[i], m);
      assert up[kids[t.node][i]] == Some(t.node);
      AncestorSum(up, m, e, 1);
      assert Ancestor(up, t.node, 0) == Some(t.node);
      d := e + 1;
    }
  }

  lemma {:induction false} BelowIsHad(up: UpMap, kids: KidMap, t: Tree, m: Node, d: nat)
    requires Consistent(up, kids) && Mirrors(t, kids) && m in up && Ancestor(up, m, d) == Some(t.node)
    ensures Has(t, m)
    decreases d
  {
    if d > 0 {
      // the last step into `t.node` comes from one of its children
      var c := LastStep(up, m, d);
      var i :| 0 <= i < |kids[t.node]| && kids[t.node][i] == c;
      BelowIsHad(up, kids, t.kids[i], m, d - 1);
      assert HasAmong(t.kids, m);
    }
  }

  lemma NotUnderItself(up: UpMap, kids: KidMap, root: Node, t: Tree, d: nat, i: nat)
    requires Consistent(up, kids) && root in up && up[root].None?
    requires Mirrors(t, kids) && Ancestor(up, t.node, d) == Some(root) && i < |t.kids|
    ensures !Has(t.kids[i], t.node)
  {
    if Has(t.kids[i], t.node) {
      var e := HasIsBelow(up, kids, t.kids[i], t.node);
      assert up[kids[t.node][i]] == Some(t.node);
      AncestorSum(up, t.node, e, d + 1);
      RootDepthUnique(up, t.node, root, d, e + (d + 1));
    }
  }

  lemma TwoKids(up: UpMap, kids: KidMap, t: Tree, i: nat, j: nat)
    requires Consistent(up, kids) && Mirrors(t, kids) && i < j < |t.kids|
    ensures var a, b := t.kids[i].node, t.kids[j].node;
            && a != b && Closed(up) && t.node in up && a in up && b in up
            && up[a] == Some(t.node) && up[b] == Some(t.node) && Mirrors(t.kids[i], kids) && Mirrors(t.kids[j], kids)
  {
    assert kids[t.node][i] != kids[t.node][j];
  }

  lemma OneUp(up: UpMap, n: Node, d: nat)
    requires Closed(up) && n in up && up[n].Some?
    ensures up[n].value in up && Ancestor(up, n, d + 1) == Ancestor(up, up[n].value, d)
  {
  }

  lemma SiblingsApart(up: UpMap, kids: KidMap, root: Node, t: Tree, d: nat, i: nat, j: nat, m: Node)
    requires Consistent(up, kids) && root in up && up[root].None?
    requires Mirrors(t, kids) && Ancestor(up, t.node, d) == Some(root) && i < j < |t.kids|
    ensures !(Has(t.kids[i], m) && Has(t.kids[j], m))
  {
    hide *;
    TwoKids(up, kids, t, i, j);
    OneUp(up, t.kids[i].node, d);
    OneUp(up, t.kids[j].node, d);
    if Has(t.kids[i], m) && Has(t.kids[j], m) {
      var a := HasIsBelow(up, kids, t.kids[i], m);
      var b := HasIsBelow(up, kids, t.kids[j], m);
      AncestorSum(up, m, a, d + 1);
      AncestorSum(up, m, b, d + 1);
      RootDepthUnique(up, m, root, a + (d + 1), b + (d + 1));
    }
  }

  lemma {:induction false} MirrorsProper(up: UpMap, kids: KidMap, root: Node, t: Tree, d: nat)
    requires Consistent(up, kids) && root in up && up[root].None?
    requires Mirrors(t, kids) && Ancestor(up, t.node, d) == Some(root)
    ensures Proper(t)
    decreases t
  {
    forall i | 0 <= i < |t.kids|
      ensures Proper(t.kids[i]) && !Has(t.kids[i], t.node)
    {
      assert up[kids[t.node][i]] == Some(t.node);
      assert Ancestor(up, t.kids[i].node, d + 1) == Some(root);
      MirrorsProper(up, kids, root, t.kids[i], d + 1);
      NotUnderItself(up, kids, root, t, d, i);
    }
    forall i, j, m | 0 <= i < j < |t.kids|
      ensures !(Has(t.kids[i], m) && Has(t.kids[j], m))
    {
      SiblingsApart(up, kids, root, t, d, i, j, m);
    }
  }
}
