/**
  The mutable forest of the components list. A node is a category, a component or the root of a
  section; every node has a parent link, an ordered list of children and an installation status,
  which unlinking, appending and the tree passes change in place.
 */
module Forest {
  import opened Options
  import opened ParentLinks
  import opened Statuses

  datatype Node =
    | CategoryNode(name: string)
    | ComponentNode(name: string)
    | SectionRoot(serial: nat)

  type UpMap = map<Node, Option<Node>>
  type KidMap = map<Node, seq<Node>>

  ghost predicate Distinct<T>(s: seq<T>) {
    forall i, j | 0 <= i < j < |s| :: s[i] != s[j]
  }

  /** Parent links and child lists say the same thing. */
  ghost predicate Consistent(up: UpMap, kids: KidMap) {
    && up.Keys == kids.Keys
    && Closed(up)
    && (forall n | n in up && up[n].Some? :: n in kids[up[n].value])
    && (forall n, i | n in kids && 0 <= i < |kids[n]| :: kids[n][i] in up && up[kids[n][i]] == Some(n))
    && (forall n | n in kids :: Distinct(kids[n]))
  }

  function Without<T(==, !new)>(s: seq<T>, x: T): (r: seq<T>)
    ensures forall y :: y in r <==> y in s && y != x
    ensures x !in s ==> r == s
    ensures x in s ==> |r| < |s|
    ensures Distinct(s) ==> Distinct(r)
  {
    if s == [] then []
    else
      assert Distinct(s) ==> Distinct(s[1..]) && s[0] !in s[1..];
      var rest := Without(s[1..], x);
      assert Distinct(s) ==> s[0] !in rest;
      if s[0] == x then rest else [s[0]] + rest
  }

  /** What comes right behind `x`. */
  function Follower<T(==)>(s: seq<T>, x: T): Option<T> {
    if s == [] then None
    else if s[0] == x then if |s| > 1 then Some(s[1]) else None
    else Follower(s[1..], x)
  }

  lemma {:induction false} FollowerAt<T>(front: seq<T>, x: T, rest: seq<T>)
    requires x !in front
    ensures Follower(front + ([x] + rest), x) == if rest == [] then None else Some(rest[0])
    decreases |front|
  {
    var s := front + ([x] + rest);
    if front == [] {
      assert s == [x] + rest;
    } else {
      assert s[1..] == front[1..] + ([x] + rest);
      FollowerAt(front[1..], x, rest);
    }
  }

  lemma {:induction false} WithoutAt<T(!new)>(front: seq<T>, x: T, rest: seq<T>)
    requires x !in front && x !in rest
    ensures Without(front + ([x] + rest), x) == front + rest
    decreases |front|
  {
    var s := front + ([x] + rest);
    if front == [] {
      assert s == [x] + rest && s[1..] == rest && front + rest == rest;
    } else {
      assert s[1..] == front[1..] + ([x] + rest);
      WithoutAt(front[1..], x, rest);
      assert [front[0]] + (front[1..] + rest) == front + rest;
    }
  }

  /** The child lists once `n` has been taken away from its parent. */
  function WithoutNode(up: UpMap, kids: KidMap, n: Node): (r: KidMap)
    requires Consistent(up, kids) && n in up
    ensures Consistent(up[n := None], r)
  {
    match up[n]
    case None => kids
    case Some(p) =>
      var r := kids[p := Without(kids[p], n)];
      assert forall m, i | m in r && 0 <= i < |r[m]| :: r[m][i] in kids[m];
      r
  }

  lemma AppendConsistent(up: UpMap, kids: KidMap, p: Node, n: Node)
    requires Consistent(up, kids) && p in up && n in up && up[n].None?
    ensures Consistent(up[n := Some(p)], kids[p := kids[p] + [n]])
  {
    var kids' := kids[p := kids[p] + [n]];
    assert n !in kids[p];
    assert kids'[p][|kids[p]|] == n;
  }

  lemma FirstChild(up: UpMap, kids: KidMap, n: Node)
    requires Consistent(up, kids) && n in up && kids[n] != []
    ensures kids[n][0] in up && up[kids[n][0]] == Some(n)
    ensures |WithoutNode(up, kids, kids[n][0])[n]| < |kids[n]|
  {
  }

  lemma ChildlessMeans(up: UpMap, kids: KidMap, n: Node)
    requires Consistent(up, kids) && n in up
    ensures HasChild(up, n) <==> kids[n] != []
  {
    if kids[n] != [] {
      assert up[kids[n][0]] == Some(n);
    }
    if HasChild(up, n) {
      var m :| m in up && up[m] == Some(n);
      assert m in kids[n];
    }
  }

  ghost predicate Sound(up: UpMap, kids: KidMap, status: map<Node, Status>) {
    up.Keys == kids.Keys == status.Keys && Consistent(up, kids)
  }

  lemma SoundParts(up: UpMap, kids: KidMap, status: map<Node, Status>)
    requires Sound(up, kids, status)
    ensures up.Keys == status.Keys && Closed(up)
  {
  }

  class NodeForest {
    var up: UpMap
    var kids: KidMap
    var status: map<Node, Status>

    ghost predicate Valid()
      reads this
    {
      Sound(up, kids, status)
    }

    constructor (status: map<Node, Status>)
      ensures Valid() && this.status == status
      ensures up == map n | n in status :: None
    {
      this.status := status;
      up := map n | n in status :: None;
      kids := map n | n in status :: [];
    }

    method NewRoot(root: Node)
      requires Valid() && root !in up
      modifies this
      ensures Valid()
      ensures up == old(up)[root := None] && kids == old(kids)[root := []]
      ensures status == old(status)[root := NoStatus]
      ensures up.Keys == old(up).Keys + {root}
    {
      up, kids, status := up[root := None], kids[root := []], status[root := NoStatus];
    }

    /** Takes a node, with all that hangs under it, away from its parent; nothing happens to a root. */
    method Unlink(n: Node)
      requires Valid() && n in up
      modifies this`up, this`kids
      ensures Valid()
      ensures up == old(up)[n := None]
      ensures kids == WithoutNode(old(up), old(kids), n)
    {
      if up[n].Some? {
        var p := up[n].value;
        kids := WithoutNode(up, kids, n);
        up := up[n := None];
      }
    }

    /** The node behind `n` among the children of its parent. */
    function NextSibling(n: Node): Option<Node>
      requires n in up && (up[n].Some? ==> up[n].value in kids)
      reads this
    {
      match up[n]
      case None => None
      case Some(p) => Follower(kids[p], n)
    }

    /** Hangs a root under `p`, behind the children `p` already has. */
    method Append(p: Node, n: Node)
      requires Valid() && p in up && n in up && up[n].None?
      modifies this`up, this`kids
      ensures Valid()
      ensures up == old(up)[n := Some(p)]
      ensures kids == old(kids)[p := old(kids)[p] + [n]]
    {
      AppendConsistent(up, kids, p, n);
      kids := kids[p := kids[p] + [n]];
      up := up[n := Some(p)];
    }
  }
}
