/** The two post-order passes over a section: summing up statuses, and cutting filtered nodes. */
module TreePasses {
  import opened Options
  import opened ParentLinks
  import opened Statuses
  import opened Forest
  import opened NodeTrees

  // ---------- status propagation ----------

  /** What `st` becomes when the subtree `t` hanging under `p` has been visited. */
  ghost predicate Visited(t: Tree, p: Option<Node>, st: StatusMap, now: StatusMap) {
    && now.Keys == st.Keys
    && Settled(t, st, now)
    && (forall m | m in st && !Has(t, m) && p != Some(m) :: now[m] == st[m])
    && (p.Some? && !p.value.SectionRoot? ==> At(now, p.value) == Join(At(st, p.value), Value(t, st)))
    && (p.Some? && p.value.SectionRoot? ==> At(now, p.value) == At(st, p.value))
  }

  /** The callback on one node: the parent, unless it is a root, takes the node's status in. */
  method UpdateParent(f: NodeForest, n: Node)
    requires n in f.up && n in f.status && (f.up[n].Some? ==> f.up[n].value in f.status)
    modifies f`status
    ensures f.status == if f.up[n].None? || f.up[n].value.SectionRoot? then old(f.status)
                        else old(f.status)[f.up[n].value := Join(old(f.status)[f.up[n].value], old(f.status)[n])]
  {
    var parent := f.up[n];
    if parent.None? || parent.value.SectionRoot? {
      return;
    }
    var p := parent.value;
    match f.status[n] {
      case Installed | NotInstalled =>
        if f.status[p] == NoStatus {
          f.status := f.status[p := f.status[n]];
        } else if f.status[p] != f.status[n] {
          f.status := f.status[p := PartiallyInstalled];
        }
      case PartiallyInstalled =>
        f.status := f.status[p := PartiallyInstalled];
      case NoStatus =>
    }
    assert f.status == old(f.status)[p := Join(old(f.status)[p], old(f.status)[n])];
  }

  /** Where a visit of `n` stands after its first `i` children. */
  ghost predicate KidsVisited(t: Tree, i: nat, st: StatusMap, now: StatusMap) {
    && i <= |t.kids|
    && now.Keys == st.Keys
    && (forall j | 0 <= j < i :: Settled(t.kids[j], st, now))
    && (forall m | m in st && m != t.node && (forall j | 0 <= j < i :: !Has(t.kids[j], m)) :: now[m] == st[m])
    && At(now, t.node) == if t.node.SectionRoot? then At(st, t.node) else JoinKids(t.kids, i, st, At(st, t.node))
  }

  lemma KidsVisitedStep(t: Tree, i: nat, st: StatusMap, mid: StatusMap, now: StatusMap)
    requires Proper(t) && i < |t.kids| && KidsVisited(t, i, st, mid)
    requires Visited(t.kids[i], Some(t.node), mid, now)
    ensures KidsVisited(t, i + 1, st, now)
  {
    var k := t.kids[i];
    assert !Has(k, t.node);
    forall m | Has(k, m)
      ensures At(mid, m) == At(st, m)
    {
      assert forall j | 0 <= j < i :: !Has(t.kids[j], m);
      assert m != t.node;
    }
    SettledFrame(k, mid, st, now, now);
    ValueFrame(k, mid, st);
    forall j | 0 <= j < i
      ensures Settled(t.kids[j], st, now)
    {
      forall m | Has(t.kids[j], m)
        ensures At(now, m) == At(mid, m)
      {
        assert !Has(k, m) && m != t.node;
      }
      SettledFrame(t.kids[j], st, st, mid, now);
    }
  }

  lemma KidsVisitedNone(t: Tree, st: StatusMap)
    ensures KidsVisited(t, 0, st, st)
  {
  }

  lemma VisitedAtLast(t: Tree, p: Option<Node>, st: StatusMap, mid: StatusMap, now: StatusMap)
    requires KidsVisited(t, |t.kids|, st, mid) && t.node in st
    requires p.Some? ==> p.value in st && !Has(t, p.value)
    requires now == if p.None? || p.value.SectionRoot? then mid else mid[p.value := Join(mid[p.value], mid[t.node])]
    ensures Visited(t, p, st, now)
  {
    assert Has(t, t.node);
    assert forall j, m | 0 <= j < |t.kids| && Has(t.kids[j], m) :: Has(t, m);
    forall j | 0 <= j < |t.kids|
      ensures Settled(t.kids[j], st, now)
    {
      SettledFrame(t.kids[j], st, st, mid, now);
    }
    if p.Some? {
      assert forall j | 0 <= j < |t.kids| :: !Has(t.kids[j], p.value);
    }
  }

  ghost predicate Standing(f: NodeForest, t: Tree)
    reads f
  {
    f.Valid() && Mirrors(t, f.kids) && Proper(t) && t.node in f.up
  }

  lemma StandingChild(f: NodeForest, t: Tree, i: nat)
    requires Standing(f, t) && i < |t.kids|
    ensures i < |f.kids[t.node]| && t.kids[i].node == f.kids[t.node][i]
    ensures Standing(f, t.kids[i]) && f.up[t.kids[i].node] == Some(t.node) && !Has(t.kids[i], t.node)
  {
  }

  method UpdatePostOrder(f: NodeForest, n: Node, ghost t: Tree)
    requires Standing(f, t) && n == t.node && (f.up[n].Some? ==> !Has(t, f.up[n].value))
    modifies f`status
    ensures f.Valid() && Visited(t, f.up[n], old(f.status), f.status)
    decreases t
  {
    hide Consistent, Visited, KidsVisited, Proper, Settled, Mirrors;
    ghost var st := f.status;
    assert |f.kids[n]| == |t.kids| && n in f.status && (f.up[n].Some? ==> f.up[n].value in f.status) by {
      StandingShape(f, t);
    }
    KidsVisitedNone(t, st);
    var i := 0;
    while i < |f.kids[n]|
      invariant i <= |t.kids| && f.Valid() && KidsVisited(t, i, st, f.status)
    {
      ghost var mid := f.status;
      StandingChild(f, t, i);
      UpdatePostOrder(f, f.kids[n][i], t.kids[i]);
      KidsVisitedStep(t, i, st, mid, f.status);
      i := i + 1;
    }
    ghost var mid := f.status;
    UpdateParent(f, n);
    VisitedAtLast(t, f.up[n], st, mid, f.status);
  }

  lemma StandingShape(f: NodeForest, t: Tree)
    requires Standing(f, t)
    ensures t.node in f.kids && |f.kids[t.node]| == |t.kids| && t.node in f.status && Consistent(f.up, f.kids)
    ensures f.up[t.node].Some? ==> f.up[t.node].value in f.status && f.up[t.node].value in f.kids
  {
  }

  // ---------- the installed and uninstalled filters ----------

  /** A filter drops the nodes with the unwanted status and those without any. */
  ghost predicate Dropped(st: StatusMap, drop: Status, m: Node) {
    At(st, m) == drop || At(st, m) == NoStatus
  }

  /** The dropped nodes of `t` have lost their parent; no other link has changed. */
  ghost predicate Cut(t: Tree, drop: Status, st: StatusMap, was: UpMap, now: UpMap) {
    && now.Keys == was.Keys
    && forall m | m in was :: now[m] == if Has(t, m) && Dropped(st, drop, m) then None else was[m]
  }

  ghost predicate KidsCut(t: Tree, i: nat, drop: Status, st: StatusMap, was: UpMap, now: UpMap)
    requires i <= |t.kids|
  {
    && now.Keys == was.Keys
    && forall m | m in was ::
         now[m] == if HasAmong(t.kids[..i], m) && Dropped(st, drop, m) then None else was[m]
  }

  ghost predicate KidsFrame(t: Tree, i: nat, was: KidMap, now: KidMap)
    requires i <= |t.kids|
  {
    && now.Keys == was.Keys
    && forall m | m in was && m != t.node && !HasAmong(t.kids[..i], m) :: now[m] == was[m]
  }

  ghost predicate CutFrame(t: Tree, p: Option<Node>, was: KidMap, now: KidMap) {
    && now.Keys == was.Keys
    && forall m | m in was && p != Some(m) && !Has(t, m) :: now[m] == was[m]
  }

  lemma HasAmongStep(ts: seq<Tree>, i: nat, m: Node)
    requires i < |ts|
    ensures HasAmong(ts[..i + 1], m) <==> HasAmong(ts[..i], m) || Has(ts[i], m)
  {
    if HasAmong(ts[..i + 1], m) && !Has(ts[i], m) {
      var j :| 0 <= j < |ts[..i + 1]| && Has(ts[..i + 1][j], m);
      assert ts[..i][j] == ts[j];
    }
    if HasAmong(ts[..i], m) {
      var j :| 0 <= j < |ts[..i]| && Has(ts[..i][j], m);
      assert ts[..i + 1][j] == ts[j];
    }
    if Has(ts[i], m) {
      assert ts[..i + 1][i] == ts[i];
    }
  }

  lemma KidsCutStep(t: Tree, i: nat, drop: Status, st: StatusMap, was: UpMap, mid: UpMap, now: UpMap,
                    kidsWas: KidMap, kidsMid: KidMap, kidsNow: KidMap)
    requires Proper(t) && i < |t.kids|
    requires KidsCut(t, i, drop, st, was, mid) && Cut(t.kids[i], drop, st, mid, now)
    requires KidsFrame(t, i, kidsWas, kidsMid) && CutFrame(t.kids[i], Some(t.node), kidsMid, kidsNow)
    ensures KidsCut(t, i + 1, drop, st, was, now) && KidsFrame(t, i + 1, kidsWas, kidsNow)
  {
    hide Dropped, HasAmong, Has, Proper;
    forall m
      ensures HasAmong(t.kids[..i + 1], m) <==> HasAmong(t.kids[..i], m) || Has(t.kids[i], m)
    {
      HasAmongStep(t.kids, i, m);
    }
  }

  /** The part of the tree still to be visited is as it was. */
  lemma RestStands(t: Tree, i: nat, drop: Status, st: StatusMap, was: UpMap, now: UpMap, kidsWas: KidMap, kidsNow: KidMap)
    requires Proper(t) && i < |t.kids| && Mirrors(t, kidsWas) && Consistent(was, kidsWas)
    requires KidsCut(t, i, drop, st, was, now) && KidsFrame(t, i, kidsWas, kidsNow)
    ensures t.kids[i].node == kidsWas[t.node][i]
    ensures t.kids[i].node in now && now[t.kids[i].node] == Some(t.node) && !Has(t.kids[i], t.node)
    ensures Mirrors(t.kids[i], kidsNow) && Proper(t.kids[i])
  {
    var k := t.kids[i];
    assert was[kidsWas[t.node][i]] == Some(t.node);
    hide Consistent;
    forall m | Has(k, m)
      ensures !HasAmong(t.kids[..i], m) && m != t.node
    {
    }
    assert Has(k, k.node);
    MirrorsFrame(k, kidsWas, kidsNow);
  }

  lemma CutAtLast(t: Tree, drop: Status, st: StatusMap, was: UpMap, mid: UpMap, now: UpMap)
    requires Proper(t) && t.node in was
    requires KidsCut(t, |t.kids|, drop, st, was, mid)
    requires now == if was[t.node].Some? && Dropped(st, drop, t.node) then mid[t.node := None] else mid
    ensures Cut(t, drop, st, was, now)
  {
    assert t.kids[..|t.kids|] == t.kids;
    hide Dropped;
  }

  lemma FrameAtLast(t: Tree, p: Option<Node>, was: KidMap, mid: KidMap, now: KidMap)
    requires KidsFrame(t, |t.kids|, was, mid)
    requires now.Keys == mid.Keys && forall m | m in mid && p != Some(m) :: now[m] == mid[m]
    ensures CutFrame(t, p, was, now)
  {
    assert t.kids[..|t.kids|] == t.kids;
  }

  /** At most `n` itself has gone from the children of its parent. */
  ghost predicate ParentFrame(p: Option<Node>, n: Node, was: KidMap, now: KidMap) {
    p.Some? ==>
      && p.value in was && p.value in now
      && (now[p.value] == was[p.value] || now[p.value] == Without(was[p.value], n))
  }

  method FilterPostOrder(f: NodeForest, n: Node, drop: Status, ghost t: Tree)
    requires Standing(f, t) && n == t.node && (f.up[n].Some? ==> !Has(t, f.up[n].value))
    modifies f`up, f`kids
    ensures f.Valid() && Cut(t, drop, f.status, old(f.up), f.up)
    ensures CutFrame(t, old(f.up)[n], old(f.kids), f.kids) && ParentFrame(old(f.up)[n], n, old(f.kids), f.kids)
    decreases t, 1
  {
    hide Sound, Consistent, Cut, CutFrame, KidsCut, KidsFrame, ParentFrame, Proper, Mirrors, Has;
    ghost var was, kidsWas := f.up, f.kids;
    StandingShape(f, t);
    FilterKids(f, n, drop, t, was, kidsWas);
    RootUncut(t, drop, f.status, was, f.up);
    FilterNode(f, n, drop, t, was, kidsWas);
  }

  /** What is left of a list from the `i`th element on is still at its end. */
  ghost predicate StillAhead(now: seq<Node>, was: seq<Node>, i: nat) {
    i <= |was| <= |now| + i && now[|now| - (|was| - i)..] == was[i..]
  }

  /** The children still to be visited, and the next of them, whether or not this one goes. */
  lemma AheadStep(now: seq<Node>, later: seq<Node>, was: seq<Node>, i: nat)
    requires Distinct(now) && i < |was| && StillAhead(now, was, i)
    requires later == now || later == Without(now, was[i])
    ensures StillAhead(later, was, i + 1)
    ensures Follower(now, was[i]) == if i + 1 < |was| then Some(was[i + 1]) else None
  {
    var k := |now| - (|was| - i);
    var front, rest := now[..k], now[k + 1..];
    assert now[k] == now[k..][0] == was[i..][0] == was[i];
    assert rest == now[k..][1..] == was[i..][1..] == was[i + 1..];
    assert now == front + ([was[i]] + rest);
    assert was[i] !in front && was[i] !in rest;
    hide Without, Follower;
    FollowerAt(front, was[i], rest);
    WithoutAt(front, was[i], rest);
    assert (front + rest)[|front|..] == rest;
  }

  lemma FirstAhead(kids: KidMap, n: Node)
    requires n in kids
    ensures StillAhead(kids[n], kids[n], 0)
  {
  }

  lemma KidsDistinct(up: UpMap, kids: KidMap, status: StatusMap, n: Node)
    requires Sound(up, kids, status) && n in kids
    ensures Distinct(kids[n])
  {
  }

  /** The children one by one; the next one is looked up before the present one may be unlinked. */
  method FilterKids(f: NodeForest, n: Node, drop: Status, ghost t: Tree, ghost was: UpMap, ghost kidsWas: KidMap)
    requires Standing(f, t) && was == f.up && kidsWas == f.kids && n == t.node
    modifies f`up, f`kids
    ensures f.Valid() && KidsCut(t, |t.kids|, drop, f.status, was, f.up) && KidsFrame(t, |t.kids|, kidsWas, f.kids)
    decreases t, 0
  {
    hide Sound, Consistent, Cut, CutFrame, KidsCut, KidsFrame, Proper, Mirrors, Has, Distinct, StillAhead, Follower, Without;
    StandingShape(f, t);
    KidsCutNone(t, drop, f.status, was, kidsWas);
    FirstAhead(kidsWas, n);
    ghost var i := 0;
    KidIs(t, kidsWas, 0);
    var child := if f.kids[n] == [] then None else Some(f.kids[n][0]);
    while child.Some?
      invariant i <= |t.kids| && child == KidAt(t, i)
      invariant f.Valid() && KidsCut(t, i, drop, f.status, was, f.up) && KidsFrame(t, i, kidsWas, f.kids)
      invariant n in f.kids && StillAhead(f.kids[n], kidsWas[n], i)
      decreases |t.kids| - i
    {
      var current := child.value;
      ghost var mid, kidsMid := f.up, f.kids;
      RestStands(t, i, drop, f.status, was, mid, kidsWas, kidsMid);
      KidsDistinct(mid, kidsMid, f.status, n);
      KidIs(t, kidsWas, i);
      child := f.NextSibling(current);
      FilterPostOrder(f, current, drop, t.kids[i]);
      KidsCutStep(t, i, drop, f.status, was, mid, f.up, kidsWas, kidsMid, f.kids);
      AheadStep(kidsMid[n], f.kids[n], kidsWas[n], i);
      i := i + 1;
      KidIs(t, kidsWas, i);
    }
  }

  ghost function KidAt(t: Tree, i: nat): Option<Node> {
    if i < |t.kids| then Some(t.kids[i].node) else None
  }

  lemma KidIs(t: Tree, kids: KidMap, i: nat)
    requires Mirrors(t, kids)
    ensures t.node in kids && |kids[t.node]| == |t.kids|
    ensures KidAt(t, i) == if i < |kids[t.node]| then Some(kids[t.node][i]) else None
  {
  }

  /** The callback on one node: a node with an unwanted status leaves its parent. */
  method FilterNode(f: NodeForest, n: Node, drop: Status, ghost t: Tree, ghost was: UpMap, ghost kidsWas: KidMap)
    requires f.Valid() && n == t.node && n in f.up && n in was && Proper(t)
    requires was[n].Some? ==> !Has(t, was[n].value) && was[n].value in kidsWas
    requires KidsCut(t, |t.kids|, drop, f.status, was, f.up) && KidsFrame(t, |t.kids|, kidsWas, f.kids)
    modifies f`up, f`kids
    ensures f.Valid() && Cut(t, drop, f.status, was, f.up)
    ensures CutFrame(t, was[n], kidsWas, f.kids) && ParentFrame(was[n], n, kidsWas, f.kids)
  {
    hide Consistent, Cut, CutFrame, KidsCut, KidsFrame, Proper, Dropped;
    ghost var mid, kidsMid := f.up, f.kids;
    RootUncut(t, drop, f.status, was, mid);
    if f.up[n].Some? && (f.status[n] == drop || f.status[n] == NoStatus) {
      f.Unlink(n);
    }
    assert Dropped(f.status, drop, n) <==> f.status[n] == drop || f.status[n] == NoStatus by {
      DroppedMeans(f.status, drop, n);
    }
    CutAtLast(t, drop, f.status, was, mid, f.up);
    FrameAtLast(t, was[n], kidsWas, kidsMid, f.kids);
    ParentUntouched(t, was[n], kidsWas, kidsMid);
  }

  lemma ParentUntouched(t: Tree, p: Option<Node>, was: KidMap, mid: KidMap)
    requires KidsFrame(t, |t.kids|, was, mid) && (p.Some? ==> !Has(t, p.value) && p.value in was)
    ensures p.Some? ==> p.value in mid && mid[p.value] == was[p.value]
  {
    assert t.kids[..|t.kids|] == t.kids;
  }

  lemma DroppedMeans(st: StatusMap, drop: Status, m: Node)
    requires m in st
    ensures Dropped(st, drop, m) <==> st[m] == drop || st[m] == NoStatus
  {
  }

  lemma RootUncut(t: Tree, drop: Status, st: StatusMap, was: UpMap, now: UpMap)
    requires Proper(t) && t.node in was && KidsCut(t, |t.kids|, drop, st, was, now)
    ensures now.Keys == was.Keys && now[t.node] == was[t.node]
  {
    assert t.kids[..|t.kids|] == t.kids;
  }

  lemma KidsCutNone(t: Tree, drop: Status, st: StatusMap, was: UpMap, kidsWas: KidMap)
    ensures KidsCut(t, 0, drop, st, was, was) && KidsFrame(t, 0, kidsWas, kidsWas)
  {
  }
}
