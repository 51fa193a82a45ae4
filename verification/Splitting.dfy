/** Splitting a string at every one of a set of characters. */
module Splitting {

  predicate Free(part: string, stops: set<char>) {
    forall i | 0 <= i < |part| :: part[i] !in stops
  }

  function FirstOf(s: string, stops: set<char>): (k: nat)
    ensures k <= |s| && Free(s[..k], stops) && (k < |s| ==> s[k] in stops)
  {
    if s == "" || s[0] in stops then 0
    else
      var k := FirstOf(s[1..], stops);
      assert s[..1 + k] == [s[0]] + s[1..][..k];
      1 + k
  }

  /** What lies between the stops. */
  function Split(s: string, stops: set<char>): (parts: seq<string>)
    ensures parts != []
    decreases |s|
  {
    var k := FirstOf(s, stops);
    if k == |s| then [s] else [s[..k]] + Split(s[k + 1..], stops)
  }

  lemma {:induction false} FirstOfAt(part: string, rest: string, stops: set<char>)
    requires Free(part, stops) && (rest == "" || rest[0] in stops)
    ensures FirstOf(part + rest, stops) == |part|
    decreases |part|
  {
    if part != "" {
      assert (part + rest)[1..] == part[1..] + rest;
      FirstOfAt(part[1..], rest, stops);
    } else {
      assert part + rest == rest;
    }
  }

  lemma SplitMore(part: string, stop: char, rest: string, stops: set<char>)
    requires Free(part, stops) && stop in stops
    ensures Split(part + ([stop] + rest), stops) == [part] + Split(rest, stops)
  {
    var s := part + ([stop] + rest);
    FirstOfAt(part, [stop] + rest, stops);
    assert s[..|part|] == part && s[|part| + 1..] == rest;
  }

  lemma SplitLast(part: string, stops: set<char>)
    requires Free(part, stops)
    ensures Split(part, stops) == [part]
  {
    FirstOfAt(part, "", stops);
    assert part + "" == part;
  }

  lemma {:induction false} PartsAreFree(s: string, stops: set<char>)
    ensures forall i | 0 <= i < |Split(s, stops)| :: Free(Split(s, stops)[i], stops)
    decreases |s|
  {
    var k := FirstOf(s, stops);
    if k < |s| {
      PartsAreFree(s[k + 1..], stops);
    } else {
      assert s[..k] == s;
    }
  }
}
