/**
  The lines the remote agent prints, and that reading them back by their keys gives what was put
  in. A line is seen as the stretches between its quotes: a quoted word occurs in it exactly where
  one of these stretches, but for the first and the last, is that word.
 */
module JsonMessages {
  import opened Options
  import opened Lists
  import opened Splitting
  import opened Characters
  import opened JsonText

  const QUOTE: set<char> := {'"'}

  predicate QuoteFree(s: string) {
    Free(s, QUOTE)
  }

  /** Stretches with a quote before each. */
  function Tail(stretches: seq<string>): string {
    if stretches == [] then "" else "\"" + stretches[0] + Tail(stretches[1..])
  }

  function Key(word: string): string {
    "\"" + word + "\""
  }

  lemma TailOne(s: string, rest: seq<string>)
    ensures Tail([s] + rest) == "\"" + (s + Tail(rest))
  {
    assert ([s] + rest)[1..] == rest;
    assert "\"" + s + Tail(rest) == "\"" + (s + Tail(rest));
  }

  /** Nothing is found up to the next quote. */
  lemma {:induction false} FindPast(s: string, rest: string, word: string)
    requires QuoteFree(s)
    ensures After(s + rest, Key(word)) == After(rest, Key(word))
    decreases |s|
  {
    if s == "" {
      assert s + rest == rest;
    } else {
      var text := s + rest;
      assert text[1..] == s[1..] + rest;
      assert Key(word)[0] == '"' && text[0] != '"';
      FindPast(s[1..], rest, word);
      FindNext(text, word);
    }
  }

  lemma FindNext(text: string, word: string)
    requires text != "" && !(Key(word) <= text)
    ensures After(text, Key(word)) == After(text[1..], Key(word))
  {
    var k := Find(text[1..], Key(word));
    if k.Some? {
      assert text[1..][k.value + |Key(word)|..] == text[1 + k.value + |Key(word)|..];
    }
  }

  lemma IsKeyHere(s: string, rest: string, word: string)
    requires QuoteFree(s) && QuoteFree(word)
    ensures Key(word) <= "\"" + (s + ("\"" + rest)) <==> s == word
  {
    var text, key := "\"" + (s + ("\"" + rest)), Key(word);
    assert text[1 + |s|] == '"' && key[1 + |word|] == '"';
    if key <= text {
      assert forall i | 0 <= i < |key| :: key[i] == text[i];
      assert forall i | 0 <= i < |word| :: key[1 + i] == word[i];
      assert forall i | 0 <= i < |s| :: text[1 + i] == s[i];
      if |s| == |word| {
        assert forall i | 0 <= i < |s| :: s[i] == word[i];
      }
    }
    if s == word {
      assert text == key + rest;
    }
  }

  /** What follows the first stretch that is a word and has a quote on both sides. */
  function Rest(stretches: seq<string>, word: string): Option<string> {
    if |stretches| < 2 then None
    else if stretches[0] == word then Some(stretches[1] + Tail(stretches[2..]))
    else Rest(stretches[1..], word)
  }

  predicate AllQuoteFree(stretches: seq<string>) {
    forall i | 0 <= i < |stretches| :: QuoteFree(stretches[i])
  }

  /** Searching for a quoted word is searching among the stretches. */
  lemma {:induction false} SearchByStretch(first: string, stretches: seq<string>, word: string)
    requires QuoteFree(first) && AllQuoteFree(stretches) && QuoteFree(word)
    ensures After(first + Tail(stretches), Key(word)) == Rest(stretches, word)
    decreases |stretches|
  {
    hide After, Rest;
    FindPast(first, Tail(stretches), word);
    if |stretches| < 2 {
      FewStretches(stretches, word);
    } else {
      var s, rest := stretches[0], stretches[1..];
      var more := rest[0] + Tail(rest[1..]);
      assert [s] + rest == stretches && [rest[0]] + rest[1..] == rest;
      TailOne(s, rest);
      TailOne(rest[0], rest[1..]);
      hide Tail;
      var text := "\"" + (s + ("\"" + more));
      assert Tail(stretches) == text && Tail(rest) == "\"" + more;
      IsKeyHere(s, more, word);
      if s == word {
        FindHere(s, more);
        FirstIsWord(stretches);
      } else {
        FindNext(text, word);
        assert text[1..] == s + Tail(rest);
        SearchByStretch(s, rest, word);
        FirstIsNot(stretches, word);
      }
    }
  }

  lemma FirstIsWord(stretches: seq<string>)
    requires |stretches| >= 2
    ensures Rest(stretches, stretches[0]) == Some(stretches[1..][0] + Tail(stretches[1..][1..]))
  {
    assert stretches[1..][1..] == stretches[2..];
  }

  lemma FirstIsNot(stretches: seq<string>, word: string)
    requires |stretches| >= 2 && stretches[0] != word
    ensures Rest(stretches, word) == Rest(stretches[1..], word)
  {
  }

  lemma FindHere(s: string, more: string)
    ensures After("\"" + (s + ("\"" + more)), Key(s)) == Some(more)
  {
    var text := "\"" + (s + ("\"" + more));
    assert text == Key(s) + more;
    assert text[..|Key(s)|] == Key(s) && text[|Key(s)|..] == more;
  }

  lemma NotUnclosed(s: string, word: string)
    requires QuoteFree(s)
    ensures !(Key(word) <= "\"" + s)
  {
    var text := "\"" + s;
    assert Key(word)[|word| + 1] == '"';
    assert forall k | 1 <= k < |text| :: text[k] == s[k - 1];
  }

  lemma FewStretches(stretches: seq<string>, word: string)
    requires |stretches| < 2 && AllQuoteFree(stretches)
    ensures After(Tail(stretches), Key(word)) == None && Rest(stretches, word) == None
  {
    NothingToFind(word);
    if |stretches| == 1 {
      var s := stretches[0];
      assert Tail(stretches) == "\"" + s;
      assert ("\"" + s)[1..] == s && s + "" == s;
      FindPast(s, "", word);
      NotUnclosed(s, word);
      FindNext("\"" + s, word);
    }
  }

  lemma NothingToFind(word: string)
    ensures After("", Key(word)) == None
  {
  }

  // ---------- stretches of values ----------

  /** What stands between the quotes of a text and around them. */
  function Parts(text: string): (parts: seq<string>)
    ensures parts != []
  {
    Split(text, QUOTE)
  }

  lemma {:induction false} TailTwo(a: seq<string>, b: seq<string>)
    ensures Tail(a + b) == Tail(a) + Tail(b)
    decreases |a|
  {
    if a == [] {
      assert a + b == b;
      NoTail();
    } else {
      var s, rest := a[0], a[1..];
      assert [s] + rest == a && [s] + (rest + b) == a + b;
      hide *;
      TailOne(s, rest);
      TailOne(s, rest + b);
      TailTwo(rest, b);
      Regroup(s, Tail(rest), Tail(b));
      Regroup("\"", s + Tail(rest), Tail(b));
    }
  }

  lemma NoTail()
    ensures Tail([]) == "" && forall b: string :: Tail([]) + b == b
  {
  }

  /** The parts of a text, with quotes between them, are the text. */
  lemma {:induction false} PartsRestore(text: string)
    ensures Tail(Parts(text)) == "\"" + text
    decreases |text|
  {
    var k := FirstOf(text, QUOTE);
    if k == |text| {
      assert text[..k] == text && text + "" == text && [text] + [] == [text];
      TailOne(text, []);
      NoTail();
    } else {
      var s, rest := text[..k], text[k + 1..];
      assert text == s + ("\"" + rest) && Parts(text) == [s] + Parts(rest);
      hide *;
      PartsRestore(rest);
      TailOne(s, Parts(rest));
    }
  }

  lemma TailParts(text: string, more: seq<string>)
    ensures Tail(Parts(text) + more) == "\"" + (text + Tail(more))
  {
    hide *;
    PartsRestore(text);
    TailTwo(Parts(text), more);
    Regroup("\"", text, Tail(more));
  }

  lemma PartsQuoteFree(text: string)
    ensures AllQuoteFree(Parts(text))
  {
    PartsAreFree(text, QUOTE);
  }

  /** What follows the last quote of a text, or all of it. */
  function LastPart(text: string): string {
    Parts(text)[|Parts(text)| - 1]
  }

  /** Every quote of a text comes behind a backslash, counting one before the text. */
  predicate Escaped(s: string, previous: char) {
    forall i {:trigger s[i]} | 0 <= i < |s| && s[i] == '"' :: (if i == 0 then previous else s[i - 1]) == '\\'
  }

  /** Unlike a word of a key, every part of an escaped text but the last ends in a backslash. */
  lemma {:induction false} PartsEndEscaped(text: string, previous: char, word: string)
    requires Escaped(text, previous) && previous != '\\' && !EndsEscaped(word, '\0')
    ensures word !in Parts(text)[..|Parts(text)| - 1]
    decreases |text|
  {
    var k := FirstOf(text, QUOTE);
    if k < |text| {
      var s, rest := text[..k], text[k + 1..];
      assert (if k == 0 then previous else text[k - 1]) == '\\' by { assert text[k] == '"'; }
      assert s[|s| - 1] == text[k - 1] && s != word;
      assert forall i | 0 <= i < |rest| :: rest[i] == text[k + 1 + i];
      PartsEndEscaped(rest, '"', word);
      assert Parts(text) == [s] + Parts(rest);
      assert Parts(text)[..|Parts(text)| - 1] == [s] + Parts(rest)[..|Parts(rest)| - 1];
    }
  }

  lemma {:induction false} RestSkips(front: seq<string>, rest: seq<string>, word: string)
    requires rest != [] && word !in front
    ensures Rest(front + rest, word) == Rest(rest, word)
    decreases |front|
  {
    if front == [] {
      assert front + rest == rest;
    } else {
      assert (front + rest)[1..] == front[1..] + rest;
      RestSkips(front[1..], rest, word);
    }
  }

  lemma RestHere(word: string, next: string, rest: seq<string>)
    ensures Rest([word] + ([next] + rest), word) == Some(next + Tail(rest))
  {
    assert ([word] + ([next] + rest))[2..] == rest;
  }

  lemma {:induction false} RestAnyway(front: seq<string>, word: string, next: string, rest: seq<string>)
    ensures Rest(front + ([word] + ([next] + rest)), word).Some?
    decreases |front|
  {
    var tail := [word] + ([next] + rest);
    if front == [] {
      assert front + tail == tail;
      RestHere(word, next, rest);
    } else {
      assert (front + tail)[1..] == front[1..] + tail;
      RestAnyway(front[1..], word, next, rest);
    }
  }

  /** Searching past an escaped value: only its last part can be the word. */
  lemma RestPastValue(value: string, next: string, rest: seq<string>, word: string)
    requires Escaped(value, '\0') && !EndsEscaped(word, '\0')
    ensures Rest(Parts(value) + ([next] + rest), word) ==
            if LastPart(value) == word then Some(next + Tail(rest)) else Rest([next] + rest, word)
  {
    PartsEndEscaped(value, '\0', word);
    var parts := Parts(value);
    var front, more := parts[..|parts| - 1], [next] + rest;
    assert parts == front + [LastPart(value)] && parts + more == front + ([LastPart(value)] + more);
    hide Rest, Tail, Parts, Escaped, EndsEscaped;
    if LastPart(value) == word {
      RestSkips(front, [word] + more, word);
      RestHere(word, next, rest);
    } else {
      RestSkips(parts, more, word);
    }
  }

  // ---------- reading one value ----------

  predicate Printable(s: string) {
    forall i | 0 <= i < |s| :: IsPrint(s[i])
  }

  /** Whether a backslash comes last, counting one before the text. */
  predicate EndsEscaped(s: string, previous: char) {
    (if s == "" then previous else s[|s| - 1]) == '\\'
  }

  /** A value is copied as it is if and only if it is printable and just the quote behind it has no backslash before it. */
  lemma {:induction false} CopiedExactly(value: string, more: string, previous: char)
    ensures Copied(value + ("\"" + more), previous) == Some(value) <==>
            Printable(value) && Escaped(value, previous) && !EndsEscaped(value, previous)
    decreases |value|
  {
    var text := value + ("\"" + more);
    if value == "" {
      assert text == "\"" + more;
    } else if value[0] == '"' && previous != '\\' {
      assert text[0] == value[0] && Copied(text, previous) == Some("");
      assert !Escaped(value, previous);
    } else {
      var rest := value[1..] + ("\"" + more);
      assert text[1..] == rest && text[0] == value[0];
      CopiedExactly(value[1..], more, value[0]);
      CleanStep(value, previous);
      assert [value[0]] + value[1..] == value;
      hide Copied, Printable, Escaped, EndsEscaped;
      CopiedStep(text, previous);
      var copied := Copied(rest, value[0]);
      if copied.Some? {
        assert ([value[0]] + copied.value)[1..] == copied.value;
      }
    }
  }

  lemma CleanStep(value: string, previous: char)
    requires value != "" && (value[0] == '"' ==> previous == '\\')
    ensures EndsEscaped(value, previous) == EndsEscaped(value[1..], value[0])
    ensures Printable(value) <==> IsPrint(value[0]) && Printable(value[1..])
    ensures Escaped(value, previous) <==> Escaped(value[1..], value[0])
  {
    var rest := value[1..];
    assert forall i | 0 <= i < |rest| :: rest[i] == value[i + 1];
    assert forall i | 1 <= i < |value| :: value[i] == rest[i - 1];
  }

  lemma CopiedStep(text: string, previous: char)
    requires text != "" && (text[0] == '"' ==> previous == '\\')
    ensures Copied(text, previous) ==
            if IsPrint(text[0]) then Prefixed([text[0]], Copied(text[1..], text[0])) else None
  {
  }

  /** Printable, with every quote escaped and the closing one not. */
  predicate Clean(value: string) {
    Printable(value) && Escaped(value, '\0') && !EndsEscaped(value, '\0')
  }

  /** What ValueStr reads after its key: a colon, a quote and a value. */
  function ReadStr(text: Option<string>): Option<string> {
    var at := Then(Then(text, ':'), '"');
    if at.Some? then Copied(at.value, '\0') else None
  }

  /** The value after a separator that has a colon and otherwise only spaces. */
  lemma ReadClean(colon: string, value: string, more: seq<string>)
    requires colon == ": " || colon == " : "
    requires more != []
    ensures ReadStr(Some(colon + Tail(Parts(value) + more))) == Some(value) <==> Clean(value)
  {
    var rest := more[0] + Tail(more[1..]);
    assert [more[0]] + more[1..] == more;
    TailParts(value, more);
    TailOne(more[0], more[1..]);
    hide Tail, Copied, Parts;
    var tail := "\"" + (value + ("\"" + rest));
    assert Tail(Parts(value) + more) == tail;
    PastColon(colon, tail);
    assert tail[1..] == value + ("\"" + rest);
    CopiedExactly(value, rest, '\0');
  }

  lemma PastColon(colon: string, tail: string)
    requires colon == ": " || colon == " : "
    requires tail != "" && tail[0] == '"'
    ensures Then(Past(colon + tail, ':'), '"') == Some(tail[1..])
  {
    PastSpace(tail, '"');
    assert ":" + (" " + tail) == ": " + tail && (":" + (" " + tail))[1..] == " " + tail;
    PastSpace(": " + tail, ':');
    assert " " + (": " + tail) == " : " + tail;
  }

  lemma PastSpace(text: string, c: char)
    requires c != ' '
    ensures Past(" " + text, c) == Past(text, c)
  {
    assert (" " + text)[1..] == text;
  }

  /** A word that is followed by a comma instead is not taken for a key. */
  lemma CommaIsNoColon(more: string)
    ensures Past(", " + more, ':') == None
  {
  }
}
