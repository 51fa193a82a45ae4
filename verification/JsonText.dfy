/** Picking values out of a line of JSON by looking for their keys, quotes included. */
module JsonText {
  import opened Options
  import opened Lists
  import opened Splitting
  import opened Characters

  // ---------- the scans, as functions ----------

  /** Where a text has a word for the first time. */
  function Find(text: string, word: string): (r: Option<nat>)
    ensures r.Some? ==> r.value + |word| <= |text| && text[r.value..r.value + |word|] == word
  {
    if word <= text then Some(0)
    else if text == "" then None
    else
      match Find(text[1..], word)
      case Some(k) =>
        assert text[1 + k..1 + k + |word|] == text[1..][k..k + |word|];
        Some(1 + k)
      case None => None
  }

  /** What follows the first occurrence of a word. */
  function After(text: string, word: string): Option<string> {
    match Find(text, word)
    case Some(k) => Some(text[k + |word|..])
    case None => None
  }

  /** What follows a character that only spaces precede. */
  function Past(text: string, c: char): Option<string> {
    if text == "" then None
    else if text[0] == c then Some(text[1..])
    else if IsSpace(text[0]) then Past(text[1..], c)
    else None
  }

  /** What precedes the first quote that no backslash precedes, if it is all printable. */
  function Copied(text: string, previous: char): Option<string> {
    if text == "" then None
    else if text[0] == '"' && previous != '\\' then Some("")
    else if IsPrint(text[0]) then
      match Copied(text[1..], text[0])
      case Some(rest) => Some([text[0]] + rest)
      case None => None
    else None
  }

  function Then(text: Option<string>, c: char): Option<string> {
    if text.Some? then Past(text.value, c) else None
  }

  function ValueStr(json: string, key: string): Option<string> {
    var text := Then(Then(After(json, key), ':'), '"');
    if text.Some? then Copied(text.value, '\0') else None
  }

  predicate IsBlank(c: char) {
    c == ' ' || c == '\t' || c == '\n' || c == '\r' || c == 12 as char
  }

  function Stripped(s: string): string {
    if s != "" && IsBlank(s[0]) then Stripped(s[1..])
    else if s != "" && IsBlank(s[|s| - 1]) then Stripped(s[..|s| - 1])
    else s
  }

  /** A text in quotes, without them and the blanks around them. */
  function Unquoted(s: string): Option<string> {
    var t := Stripped(s);
    if |t| < 2 || t[0] != '"' || t[|t| - 1] != '"' then None else Some(t[1..|t| - 1])
  }

  function AllUnquoted(parts: seq<string>): Option<seq<string>> {
    if parts == [] then Some([])
    else
      match (Unquoted(parts[0]), AllUnquoted(parts[1..]))
      case (Some(first), Some(rest)) => Some([first] + rest)
      case _ => None
  }

  const COMMA: set<char> := {','}

  function Elements(text: string): Option<seq<string>> {
    match Find(text, "]")
    case Some(end) => if end == 0 then None else AllUnquoted(Split(text[..end], COMMA))
    case None => None
  }

  function ValueList(json: string, key: string): Option<seq<string>> {
    var text := Then(Then(After(json, key), ':'), '[');
    if text.Some? then Elements(text.value) else None
  }

  // ---------- the same with a pointer ----------

  function Suffix(text: string, at: Option<nat>): Option<string>
    requires at.Some? ==> at.value <= |text|
  {
    if at.Some? then Some(text[at.value..]) else None
  }

  /** Steps over spaces to a character and past it. */
  method StepPast(json: string, from: nat, c: char) returns (at: Option<nat>)
    requires from <= |json| && c != '\0'
    ensures at.Some? ==> at.value <= |json|
    ensures Suffix(json, at) == Past(json[from..], c)
  {
    var s := from;
    while CharAt(json, s) != c
      invariant from <= s <= |json|
      invariant Past(json[from..], c) == Past(json[s..], c)
      decreases |json| - s
    {
      if s == |json| || !IsSpace(CharAt(json, s)) {
        return None;
      }
      assert json[s..][1..] == json[s + 1..];
      s := s + 1;
    }
    if s == |json| {
      return None;
    }
    assert json[s..][1..] == json[s + 1..];
    return Some(s + 1);
  }

  method GetJsonValueStr(json: string, key: string) returns (result: Option<string>)
    ensures result == ValueStr(json, key)
  {
    var found := Find(json, key);
    if found.None? {
      return None;
    }
    var at := StepPast(json, found.value + |key|, ':');
    if at.None? {
      return None;
    }
    at := StepPast(json, at.value, '"');
    if at.None? {
      return None;
    }
    result := CopyValue(json, at.value);
  }

  method CopyValue(json: string, from: nat) returns (result: Option<string>)
    requires from <= |json|
    ensures result == Copied(json[from..], '\0')
  {
    var s, previous, value := from, '\0', "";
    NothingInFront(Copied(json[s..], previous));
    while s < |json|
      invariant from <= s <= |json|
      invariant Copied(json[from..], '\0') == Prefixed(value, Copied(json[s..], previous))
    {
      assert json[s..][1..] == json[s + 1..];
      if json[s] == '"' && previous != '\\' {
        assert value + "" == value;
        return Some(value);
      } else if IsPrint(json[s]) {
        Appended(value, json[s], Copied(json[s + 1..], json[s]));
        value := value + [json[s]];
        previous := json[s];
        s := s + 1;
      } else {
        return None;
      }
    }
    return None;
  }

  lemma NothingInFront(rest: Option<string>)
    ensures Prefixed("", rest) == rest
  {
    assert rest.Some? ==> "" + rest.value == rest.value;
  }

  function Prefixed(front: string, rest: Option<string>): Option<string> {
    if rest.Some? then Some(front + rest.value) else None
  }

  lemma Appended(front: string, c: char, rest: Option<string>)
    ensures Prefixed(front, Prefixed([c], rest)) == Prefixed(front + [c], rest)
  {
    if rest.Some? {
      assert front + ([c] + rest.value) == (front + [c]) + rest.value;
    }
  }

  method GetJsonValueArrStr(json: string, key: string) returns (result: Option<seq<string>>)
    ensures result == ValueList(json, key)
  {
    var found := Find(json, key);
    if found.None? {
      return None;
    }
    var at := StepPast(json, found.value + |key|, ':');
    if at.None? {
      return None;
    }
    at := StepPast(json, at.value, '[');
    if at.None? {
      return None;
    }
    var end := Find(json[at.value..], "]");
    if end.None? || end.value == 0 {
      return None;
    }
    result := UnquoteAll(Split(json[at.value..][..end.value], COMMA));
  }

  /** The list is built newest first and reversed at the end. */
  method UnquoteAll(parts: seq<string>) returns (result: Option<seq<string>>)
    ensures result == AllUnquoted(parts)
  {
    var list: seq<string> := [];
    assert parts[0..] == parts;
    assert AllUnquoted(parts).Some? ==> [] + AllUnquoted(parts).value == AllUnquoted(parts).value;
    for i := 0 to |parts|
      invariant AllUnquoted(parts) == Joined(Reversed(list), AllUnquoted(parts[i..]))
    {
      assert parts[i..][1..] == parts[i + 1..];
      var name := Unquoted(parts[i]);
      if name.None? {
        return None;
      }
      OneMoreName(list, name.value, AllUnquoted(parts[i + 1..]));
      list := [name.value] + list;
    }
    assert Reversed(list) + [] == Reversed(list);
    return Some(Reversed(list));
  }

  function Joined(front: seq<string>, rest: Option<seq<string>>): Option<seq<string>> {
    if rest.Some? then Some(front + rest.value) else None
  }

  lemma OneMoreName(list: seq<string>, name: string, rest: Option<seq<string>>)
    ensures Joined(Reversed(list), Joined([name], rest)) == Joined(Reversed([name] + list), rest)
  {
    ReversedFront(name, list);
    if rest.Some? {
      assert Reversed(list) + ([name] + rest.value) == (Reversed(list) + [name]) + rest.value;
    }
  }

  // ---------- what unquoting means ----------

  /** Blanks are the spaces but for the vertical tab. */
  lemma BlanksExact(c: char)
    ensures IsBlank(c) <==> IsSpace(c) && c as int != 11
  {
  }

  predicate AllBlank(s: string) {
    forall i | 0 <= i < |s| :: IsBlank(s[i])
  }

  lemma {:induction false} StrippedSplits(s: string) returns (front: string, back: string)
    ensures s == front + Stripped(s) + back && AllBlank(front) && AllBlank(back)
    decreases |s|
  {
    front, back := "", "";
    if s != "" && IsBlank(s[0]) {
      front, back := StrippedSplits(s[1..]);
      assert s == [s[0]] + s[1..];
      assert [s[0]] + (front + Stripped(s[1..]) + back) == ([s[0]] + front) + Stripped(s[1..]) + back;
      front := [s[0]] + front;
    } else if s != "" && IsBlank(s[|s| - 1]) {
      var last := s[|s| - 1];
      front, back := StrippedSplits(s[..|s| - 1]);
      assert s == s[..|s| - 1] + [last];
      assert (front + Stripped(s[..|s| - 1]) + back) + [last] == front + Stripped(s[..|s| - 1]) + (back + [last]);
      back := back + [last];
    } else {
      assert "" + s + "" == s;
    }
  }

  lemma {:induction false} StripAround(front: string, core: string, back: string)
    requires AllBlank(front) && AllBlank(back) && core != "" && !IsBlank(core[0]) && !IsBlank(core[|core| - 1])
    ensures Stripped(front + core + back) == core
    decreases |front| + |back|
  {
    var s := front + core + back;
    if front != "" {
      assert s[1..] == front[1..] + core + back;
      StripAround(front[1..], core, back);
    } else if back != "" {
      assert s[0] == core[0] && s[|s| - 1] == back[|back| - 1];
      assert s[..|s| - 1] == front + core + back[..|back| - 1];
      StripAround(front, core, back[..|back| - 1]);
    } else {
      assert s == core;
    }
  }

  /** A text is unquoted to `u` if and only if it is `u` in quotes with blanks around them. */
  lemma UnquotedExact(s: string, u: string)
    ensures Unquoted(s) == Some(u) <==>
            exists front, back :: AllBlank(front) && AllBlank(back) && s == front + ("\"" + u + "\"") + back
  {
    var core := "\"" + u + "\"";
    if Unquoted(s) == Some(u) {
      var front, back := StrippedSplits(s);
      assert Stripped(s) == core;
      assert s == front + core + back;
    }
    if exists front, back :: AllBlank(front) && AllBlank(back) && s == front + core + back {
      var front, back :| AllBlank(front) && AllBlank(back) && s == front + core + back;
      StripAround(front, core, back);
      assert core[1..|core| - 1] == u;
    }
  }

  /** A list is unquoted element by element, or not at all. */
  lemma {:induction false} AllUnquotedExact(parts: seq<string>, texts: seq<string>)
    ensures AllUnquoted(parts) == Some(texts) <==>
            |parts| == |texts| && forall i | 0 <= i < |parts| :: Unquoted(parts[i]) == Some(texts[i])
    decreases |parts|
  {
    hide Unquoted;
    if parts != [] && texts != [] {
      AllUnquotedExact(parts[1..], texts[1..]);
      assert [texts[0]] + texts[1..] == texts;
      var rest := AllUnquoted(parts[1..]);
      if AllUnquoted(parts) == Some(texts) {
        assert ([Unquoted(parts[0]).value] + rest.value)[1..] == rest.value;
      }
      assert forall i | 1 <= i < |parts| :: parts[i] == parts[1..][i - 1];
      assert forall i | 1 <= i < |texts| :: texts[i] == texts[1..][i - 1];
      if |parts| == |texts| {
        AllFromTail(parts, texts);
      }
    }
  }

  lemma AllFromTail(parts: seq<string>, texts: seq<string>)
    requires parts != [] && |parts| == |texts|
    ensures (forall i | 0 <= i < |parts| :: Unquoted(parts[i]) == Some(texts[i])) <==>
            Unquoted(parts[0]) == Some(texts[0]) &&
            forall i | 0 <= i < |parts[1..]| :: Unquoted(parts[1..][i]) == Some(texts[1..][i])
  {
    hide Unquoted;
    assert forall i | 1 <= i < |parts| :: parts[i] == parts[1..][i - 1] && texts[i] == texts[1..][i - 1];
  }
}
