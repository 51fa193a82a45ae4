/** The command line of a method: a template with parameters in braces, split, checked and filled in. */
module CommandTemplate {
  import opened Splitting

  // ---------- checking and splitting ----------

  const BRACES: set<char> := {'{', '}'}

  predicate IsBrace(c: char) {
    c in BRACES
  }

  /** Opening and closing braces take turns; `open` tells which is next. */
  predicate Alternates(s: string, open: bool) {
    if s == "" then !open
    else if IsBrace(s[0]) then s[0] == (if open then '}' else '{') && Alternates(s[1..], !open)
    else Alternates(s[1..], open)
  }

  method CheckExecuteString(s: string) returns (ok: bool)
    ensures ok <==> |s| >= 2 && Alternates(s, false)
  {
    if |s| < 2 {
      return false;
    }
    var braces := false;
    for i := 0 to |s|
      invariant Alternates(s, false) == Alternates(s[i..], braces)
    {
      assert s[i..][1..] == s[i + 1..];
      if s[i] == '{' && braces {
        return false;
      } else if s[i] == '{' && !braces {
        braces := true;
      } else if s[i] == '}' && !braces {
        return false;
      } else if s[i] == '}' && braces {
        braces := false;
      }
    }
    ok := !braces;
  }

  /** The parts with braces put back between them, in turn. */
  function Join(parts: seq<string>, open: bool): string
    requires parts != []
  {
    if |parts| == 1 then parts[0]
    else parts[0] + Brace(open) + Join(parts[1..], !open)
  }

  lemma {:induction false} AlternatesFrom(part: string, rest: string, open: bool)
    requires Free(part, BRACES)
    ensures Alternates(part + rest, open) == Alternates(rest, open)
    decreases |part|
  {
    if part == "" {
      assert part + rest == rest;
    } else {
      AlternatesFrom(part[1..], rest, open);
      assert (part + rest)[1..] == part[1..] + rest;
    }
  }

  function Brace(open: bool): string {
    if open then "}" else "{"
  }

  lemma JoinMore(part: string, parts: seq<string>, open: bool)
    requires parts != []
    ensures Join([part] + parts, open) == part + (Brace(open) + Join(parts, !open))
  {
    assert ([part] + parts)[1..] == parts;
  }

  lemma AlternatesMore(part: string, c: char, rest: string, open: bool)
    requires Free(part, BRACES) && IsBrace(c)
    ensures Alternates(part + ([c] + rest), open) <==> [c] == Brace(open) && Alternates(rest, !open)
  {
    AlternatesFrom(part, [c] + rest, open);
    assert ([c] + rest)[1..] == rest;
  }

  /** Splitting a string whose braces take turns gives brace-free parts that join to it again. */
  lemma {:induction false} SplitRestores(s: string, open: bool)
    requires Alternates(s, open)
    ensures Join(Split(s, BRACES), open) == s
    ensures |Split(s, BRACES)| % 2 == if open then 0 else 1
    ensures forall i | 0 <= i < |Split(s, BRACES)| :: Free(Split(s, BRACES)[i], BRACES)
    decreases |s|
  {
    hide Alternates, Free, Join, IsBrace, Split, FirstOf;
    var k := FirstOf(s, BRACES);
    if k < |s| {
      var part, rest := s[..k], s[k + 1..];
      assert s == part + ([s[k]] + rest);
      AlternatesMore(part, s[k], rest, open);
      SplitRestores(rest, !open);
      SplitMore(part, s[k], rest, BRACES);
      JoinMore(part, Split(rest, BRACES), open);
    } else {
      assert s[..k] == s;
      NoBraces(s, open);
    }
  }

  lemma NoBraces(part: string, open: bool)
    requires Free(part, BRACES)
    ensures Alternates(part, open) <==> !open
    ensures Split(part, BRACES) == [part] && Join([part], open) == part
  {
    AlternatesFrom(part, "", open);
    SplitLast(part, BRACES);
    assert part + "" == part;
  }

  /** Brace-free parts are what splitting their join gives back; its braces take turns if they end closed. */
  lemma {:induction false} JoinRestored(parts: seq<string>, open: bool)
    requires parts != [] && forall i | 0 <= i < |parts| :: Free(parts[i], BRACES)
    ensures Split(Join(parts, open), BRACES) == parts
    ensures Alternates(Join(parts, open), open) <==> |parts| % 2 == if open then 0 else 1
    decreases |parts|
  {
    hide Alternates, Free, Join, Split;
    if |parts| == 1 {
      NoBraces(parts[0], open);
      assert [parts[0]] == parts;
    } else {
      var rest := Join(parts[1..], !open);
      JoinRestored(parts[1..], !open);
      assert [parts[0]] + parts[1..] == parts;
      JoinMore(parts[0], parts[1..], open);
      SplitMore(parts[0], Brace(open)[0], rest, BRACES);
      AlternatesMore(parts[0], Brace(open)[0], rest, open);
    }
  }

  /** The check accepts exactly the strings of two or more characters that are joins of an odd number of parts. */
  lemma AcceptedAreJoins(s: string)
    ensures Alternates(s, false) <==>
            exists parts: seq<string> ::
              |parts| % 2 == 1 && (forall i | 0 <= i < |parts| :: Free(parts[i], BRACES)) && Join(parts, false) == s
  {
    if Alternates(s, false) {
      SplitRestores(s, false);
    }
    forall parts: seq<string> |
      |parts| % 2 == 1 && (forall i | 0 <= i < |parts| :: Free(parts[i], BRACES)) && Join(parts, false) == s
      ensures Alternates(s, false)
    {
      JoinRestored(parts, false);
    }
  }
}
