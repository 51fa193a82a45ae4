/** What is used of lists everywhere: reversing, concatenating and regrouping them. */
module Lists {
  function Reversed<T>(list: seq<T>): seq<T> {
    if list == [] then [] else [list[|list| - 1]] + Reversed(list[..|list| - 1])
  }

  lemma ReversedMore<T>(list: seq<T>, x: T)
    ensures Reversed(list + [x]) == [x] + Reversed(list)
  {
    assert (list + [x])[..|list|] == list;
  }

  lemma {:induction false} ReversedFront<T>(x: T, list: seq<T>)
    ensures Reversed([x] + list) == Reversed(list) + [x]
    decreases |list|
  {
    if list == [] {
      assert [x] + [] == [x] && [x][..0] == [];
    } else {
      var front, last := list[..|list| - 1], list[|list| - 1];
      ReversedFront(x, front);
      assert [x] + list == ([x] + front) + [last];
      ReversedMore([x] + front, last);
      assert [last] + (Reversed(front) + [x]) == ([last] + Reversed(front)) + [x];
    }
  }

  lemma {:induction false} ReversedTwice<T>(list: seq<T>)
    ensures Reversed(Reversed(list)) == list
    decreases |list|
  {
    if list != [] {
      var front := list[..|list| - 1];
      ReversedTwice(front);
      ReversedFront(list[|list| - 1], Reversed(front));
    }
  }

  lemma Regroup<T>(a: seq<T>, b: seq<T>, c: seq<T>)
    ensures (a + b) + c == a + (b + c)
  {
  }

  /** The first element of a list moved to the end of what precedes it. */
  lemma FirstAcross<T>(front: seq<T>, list: seq<T>)
    ensures front + list == if list == [] then front else (front + [list[0]]) + list[1..]
  {
  }

  function Concat(texts: seq<string>): string {
    if texts == [] then "" else Concat(texts[..|texts| - 1]) + texts[|texts| - 1]
  }

  lemma ConcatLast(texts: seq<string>)
    requires texts != []
    ensures Concat(texts) == Concat(texts[..|texts| - 1]) + texts[|texts| - 1]
  {
  }
}
