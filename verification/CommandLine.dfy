/** Filling a split template with a call's parameters, and the input arguments published for it. */
module CommandLine {
  import opened Options
  import opened Splitting
  import opened Characters
  import opened Lists
  import opened ExecutorReply
  import opened CommandTemplate

  datatype Param = One(text: string) | Many(texts: seq<string>)

  function TypeOf(p: Param): string {
    if p.Many? then "as" else "s"
  }

  /** Every second part of a split template is the name of a parameter. */
  function Placeholders(parts: seq<string>): (names: seq<string>)
    ensures |names| == |parts| / 2 && forall j | 0 <= j < |names| :: names[j] == parts[2 * j + 1]
  {
    seq(|parts| / 2, j requires 0 <= j < |parts| / 2 => parts[2 * j + 1])
  }

  // ---------- what is published ----------

  predicate CorrectName(name: string) {
    |name| >= 2 && BareName(name) != "" && forall i | 0 <= i < |BareName(name)| :: IsWordChar(BareName(name)[i])
  }

  /** The name is at least two characters, and its first `len` are letters, digits or underscores. */
  method IsCorrectName(name: string, len: nat) returns (ok: bool)
    requires len <= |name|
    ensures ok <==> |name| >= 2 && len != 0 && forall i | 0 <= i < len :: IsWordChar(name[i])
  {
    if |name| < 2 || len == 0 {
      return false;
    }
    for i := 0 to len
      invariant forall k | 0 <= k < i :: IsWordChar(name[k])
    {
      if !IsAlnum(name[i]) && name[i] != '_' {
        return false;
      }
    }
    return true;
  }

  method IsCorrectExecute(parts: seq<string>) returns (ok: bool)
    ensures ok <==> (parts != [] ==> |parts[0]| >= 2) &&
                    forall j | 0 <= j < |parts| / 2 :: CorrectName(Placeholders(parts)[j])
  {
    for i := 0 to |parts|
      invariant i > 0 ==> |parts[0]| >= 2
      invariant forall j | 0 <= j < i / 2 :: CorrectName(Placeholders(parts)[j])
    {
      if i == 0 && |parts[i]| < 2 {
        return false;
      }
      if i % 2 == 1 {
        var correct: bool;
        if IsArrayName(parts[i]) {
          correct := IsCorrectName(parts[i], |parts[i]| - 2);
        } else {
          correct := IsCorrectName(parts[i], |parts[i]|);
        }
        assert parts[i] == Placeholders(parts)[i / 2];
        if !correct {
          return false;
        }
      }
    }
    return true;
  }

  function InputTypes(parts: seq<string>, stdin: bool): seq<string> {
    OutputTypes(Placeholders(parts)) + if stdin then ["s"] else []
  }

  method IntrospectInputs(parts: seq<string>, stdin: bool) returns (args: seq<Arg>)
    ensures |args| == |InputTypes(parts, stdin)|
    ensures forall j | 0 <= j < |args| :: args[j].typ == InputTypes(parts, stdin)[j]
    ensures forall j | 0 <= j < |parts| / 2 :: args[j].name == BareName(Placeholders(parts)[j])
    ensures stdin ==> args[|args| - 1].name == "stdin"
  {
    args := [];
    for i := 0 to |parts|
      invariant |args| == i / 2
      invariant forall j | 0 <= j < i / 2 ::
                  args[j] == Arg(BareName(Placeholders(parts)[j]), OutputType(Placeholders(parts)[j]))
    {
      if i % 2 == 1 {
        assert parts[i] == Placeholders(parts)[i / 2];
        if IsArrayName(parts[i]) {
          args := args + [Arg(parts[i][..|parts[i]| - 2], "as")];
        } else {
          args := args + [Arg(parts[i], "s")];
        }
      }
    }
    if stdin {
      args := args + [Arg("stdin", "s")];
    }
  }

  // ---------- filling in ----------

  function Quoted(texts: seq<string>): string {
    if texts == [] then ""
    else "'" + texts[0] + "'" + (if |texts| > 1 then " " else "") + Quoted(texts[1..])
  }

  function ParamText(p: Param): string {
    match p
    case One(text) => text
    case Many(texts) => Quoted(texts)
  }

  function FirstText(params: seq<Param>): string {
    if params == [] then "" else ParamText(params[0])
  }

  function Rest(params: seq<Param>): seq<Param> {
    if params == [] then [] else params[1..]
  }

  /** The parts in turn, literal ones as they are and the others by the next parameter if there is one. */
  function Rendered(parts: seq<string>, literal: bool, params: seq<Param>): string {
    if parts == [] then ""
    else if literal then parts[0] + Rendered(parts[1..], false, params)
    else FirstText(params) + Rendered(parts[1..], true, Rest(params))
  }

  /** The parameters there are have the types of their placeholders. */
  predicate Fit(parts: seq<string>, params: seq<Param>, stdin: bool) {
    && (forall j | 0 <= j < |parts| / 2 && j < |params| :: params[j].Many? <==> IsArrayName(Placeholders(parts)[j]))
    && (stdin && |params| > |parts| / 2 ==> params[|parts| / 2].One?)
  }

  method AppendQuoted(line: string, texts: seq<string>) returns (r: string)
    ensures r == line + Quoted(texts)
  {
    r := line;
    for i := 0 to |texts|
      invariant line + Quoted(texts) == r + Quoted(texts[i..])
    {
      var now := r + "'" + texts[i] + "'" + if i + 1 < |texts| then " " else "";
      OneQuoted(r, texts, i, now);
      r := r + "'";
      r := r + texts[i];
      r := r + "'";
      if i + 1 < |texts| {
        r := r + " ";
      }
    }
  }

  lemma OneQuoted(r: string, texts: seq<string>, i: nat, now: string)
    requires i < |texts| && now == r + "'" + texts[i] + "'" + if i + 1 < |texts| then " " else ""
    ensures r + Quoted(texts[i..]) == now + Quoted(texts[i + 1..])
  {
    assert texts[i..][1..] == texts[i + 1..];
  }

  /** Fills in the template; `used` counts the parameters taken. */
  method Render(parts: seq<string>, params: seq<Param>, stdin: bool)
    returns (line: string, stdinText: Option<string>, used: nat)
    requires Fit(parts, params, stdin)
    ensures line == Rendered(parts, true, params)
    ensures used <= |params| && used == if |params| < |InputTypes(parts, stdin)| then |params| else |InputTypes(parts, stdin)|
    ensures stdinText == if stdin && |params| > |parts| / 2 then Some(params[|parts| / 2].text) else None
  {
    hide Rendered, Quoted, InputTypes, IsArrayName;
    line, used := "", 0;
    RenderedEnds(parts, params);
    for i := 0 to |parts|
      invariant used == if |params| < i / 2 then |params| else i / 2
      invariant Rendered(parts, true, params) == line + Rendered(parts[i..], i % 2 == 0, params[used..])
    {
      RenderOne(line, parts, i, params, used);
      if i % 2 == 1 {
        if used < |params| {
          assert parts[i] == Placeholders(parts)[i / 2];
          if IsArrayName(parts[i]) {
            line := AppendQuoted(line, params[used].texts);
          } else {
            line := line + params[used].text;
          }
          used := used + 1;
        }
      } else {
        line := line + parts[i];
      }
    }
    InputCount(parts, stdin);
    stdinText := None;
    if stdin && used < |params| {
      stdinText := Some(params[used].text);
      used := used + 1;
    }
  }

  lemma RenderedEnds(parts: seq<string>, params: seq<Param>)
    ensures Rendered(parts, true, params) == "" + Rendered(parts[0..], 0 % 2 == 0, params[0..])
    ensures forall literal, rest :: Rendered(parts[|parts|..], literal, rest) == ""
  {
    assert parts[0..] == parts && params[0..] == params;
  }

  lemma InputCount(parts: seq<string>, stdin: bool)
    ensures |InputTypes(parts, stdin)| == |parts| / 2 + if stdin then 1 else 0
  {
  }

  lemma RenderOne(line: string, parts: seq<string>, i: nat, params: seq<Param>, used: nat)
    requires i < |parts| && used <= |params|
    ensures var rest := params[used..];
            line + Rendered(parts[i..], i % 2 == 0, rest) ==
              if i % 2 == 0 then (line + parts[i]) + Rendered(parts[i + 1..], false, rest)
              else if used < |params| then (line + ParamText(params[used])) + Rendered(parts[i + 1..], true, params[used + 1..])
              else line + Rendered(parts[i + 1..], true, rest)
  {
    assert parts[i..][1..] == parts[i + 1..];
    if used < |params| {
      assert params[used..][1..] == params[used + 1..];
    }
  }

  /** Parameters of exactly the published types fit and are all used, the last one for stdin if that is enabled. */
  lemma PublishedInputsFit(parts: seq<string>, params: seq<Param>, stdin: bool)
    requires |params| == |InputTypes(parts, stdin)|
    requires forall j | 0 <= j < |params| :: TypeOf(params[j]) == InputTypes(parts, stdin)[j]
    ensures Fit(parts, params, stdin)
    ensures stdin <==> |params| > |parts| / 2
  {
    var types := OutputTypes(Placeholders(parts));
    assert forall j | 0 <= j < |types| :: InputTypes(parts, stdin)[j] == types[j] == OutputType(Placeholders(parts)[j]);
    assert "as" != "s";
  }

  // ---------- the same on the template itself ----------

  /** Reading the template once: braces and what is between them give way to the next parameter. */
  function Substituted(s: string, params: seq<Param>): string
    decreases |s|
  {
    if s == "" then ""
    else if s[0] != '{' then [s[0]] + Substituted(s[1..], params)
    else
      var k := FirstOf(s[1..], BRACES) + 1;
      if k >= |s| then "" else FirstText(params) + Substituted(s[k + 1..], Rest(params))
  }

  lemma SubstitutedChar(c: char, rest: string, params: seq<Param>)
    requires c != '{'
    ensures Substituted([c] + rest, params) == [c] + Substituted(rest, params)
  {
    assert ([c] + rest)[1..] == rest;
  }

  lemma {:induction false} SubstitutedLiteral(part: string, rest: string, params: seq<Param>)
    requires Free(part, BRACES)
    ensures Substituted(part + rest, params) == part + Substituted(rest, params)
    decreases |part|
  {
    hide *;
    if part == "" {
      assert part + rest == rest;
    } else {
      var c, more := part[0], part[1..];
      FirstIsFree(part);
      SubstitutedLiteral(more, rest, params);
      SubstitutedChar(c, more + rest, params);
      assert [c] + more == part;
      Regroup([c], more, rest);
      Regroup([c], more, Substituted(rest, params));
    }
  }

  lemma FirstIsFree(part: string)
    requires part != "" && Free(part, BRACES)
    ensures part[0] != '{' && Free(part[1..], BRACES)
  {
    assert part[0] !in BRACES;
  }

  lemma SubstitutedName(name: string, rest: string, params: seq<Param>)
    requires Free(name, BRACES)
    ensures Substituted("{" + (name + ("}" + rest)), params) == FirstText(params) + Substituted(rest, Rest(params))
  {
    var s := "{" + (name + ("}" + rest));
    assert s[1..] == name + ("}" + rest);
    FirstOfAt(name, "}" + rest, BRACES);
    assert s[|name| + 2..] == rest;
  }

  lemma {:induction false} RenderedJoin(parts: seq<string>, params: seq<Param>)
    requires |parts| % 2 == 1 && forall i | 0 <= i < |parts| :: Free(parts[i], BRACES)
    ensures Rendered(parts, true, params) == Substituted(Join(parts, false), params)
    decreases |parts|
  {
    if |parts| == 1 {
      assert parts[0] + "" == parts[0];
      SubstitutedLiteral(parts[0], "", params);
      assert Rendered(parts[1..], false, params) == "";
    } else {
      var tail := parts[2..];
      RenderedJoin(tail, Rest(params));
      RenderedTwo(parts, params);
      JoinTwo(parts);
      hide Rendered, Substituted, Join, Free, FirstText, Rest;
      SubstitutedLiteral(parts[0], "{" + (parts[1] + ("}" + Join(tail, false))), params);
      SubstitutedName(parts[1], Join(tail, false), params);
    }
  }

  lemma RenderedTwo(parts: seq<string>, params: seq<Param>)
    requires |parts| >= 2
    ensures Rendered(parts, true, params) == parts[0] + (FirstText(params) + Rendered(parts[2..], true, Rest(params)))
  {
    assert parts[1..][1..] == parts[2..];
  }

  lemma JoinTwo(parts: seq<string>)
    requires |parts| >= 3
    ensures Join(parts, false) == parts[0] + ("{" + (parts[1] + ("}" + Join(parts[2..], false))))
  {
    hide *;
    assert [parts[0]] + parts[1..] == parts && [parts[1]] + parts[2..] == parts[1..];
    JoinMore(parts[0], parts[1..], false);
    JoinMore(parts[1], parts[2..], true);
    BraceTexts();
  }

  lemma BraceTexts()
    ensures Brace(false) == "{" && Brace(true) == "}"
  {
  }

  /** Rendering an accepted template part by part is substituting its placeholders in order. */
  lemma RenderIsSubstitution(s: string, params: seq<Param>)
    requires Alternates(s, false)
    ensures Rendered(Split(s, BRACES), true, params) == Substituted(s, params)
  {
    SplitRestores(s, false);
    RenderedJoin(Split(s, BRACES), params);
  }

  // ---------- array parameters ----------

  const APOSTROPHE: set<char> := {'\''}

  /** What stands outside and inside of the quotes of a quoted list, in turn. */
  function QuotedParts(texts: seq<string>, lead: string): (parts: seq<string>)
    ensures |parts| == 2 * |texts| + 1 && parts[0] == lead
  {
    if texts == [] then [lead] else [lead, texts[0]] + QuotedParts(texts[1..], if |texts| > 1 then " " else "")
  }

  lemma QuotedText(texts: seq<string>, lead: string)
    requires texts != []
    ensures var next := if |texts| > 1 then " " else "";
            && lead + Quoted(texts) == lead + (['\''] + (texts[0] + (['\''] + (next + Quoted(texts[1..])))))
            && QuotedParts(texts, lead) == [lead] + ([texts[0]] + QuotedParts(texts[1..], next))
            && Free(next, APOSTROPHE)
  {
    var next, rest := if |texts| > 1 then " " else "", Quoted(texts[1..]);
    var q := "'";
    assert [lead, texts[0]] == [lead] + [texts[0]];
    hide QuotedParts;
    assert Quoted(texts) == q + texts[0] + q + next + rest;
    Regroup(q + texts[0] + q, next, rest);
    Regroup(q + texts[0], q, next + rest);
    Regroup(q, texts[0], q + (next + rest));
  }

  lemma {:induction false} QuotedSplits(texts: seq<string>, lead: string)
    requires Free(lead, APOSTROPHE) && forall i | 0 <= i < |texts| :: Free(texts[i], APOSTROPHE)
    ensures Split(lead + Quoted(texts), APOSTROPHE) == QuotedParts(texts, lead)
    decreases |texts|
  {
    if texts == [] {
      assert lead + "" == lead;
      SplitLast(lead, APOSTROPHE);
    } else {
      var next := if |texts| > 1 then " " else "";
      QuotedText(texts, lead);
      QuotedSplits(texts[1..], next);
      hide Split, Quoted, QuotedParts, Free;
      SplitMore(texts[0], '\'', next + Quoted(texts[1..]), APOSTROPHE);
      SplitMore(lead, '\'', texts[0] + (['\''] + (next + Quoted(texts[1..]))), APOSTROPHE);
    }
  }

  /** Every element of an array parameter has a pair of quotes of its own, with a space or nothing around it. */
  lemma {:induction false} ElementInQuotes(texts: seq<string>, lead: string, j: nat)
    requires j < |texts|
    ensures QuotedParts(texts, lead)[2 * j + 1] == texts[j]
    ensures QuotedParts(texts, lead)[2 * j + 2] == if j + 1 < |texts| then " " else ""
  {
    var next := if |texts| > 1 then " " else "";
    var rest := QuotedParts(texts[1..], next);
    assert QuotedParts(texts, lead) == [lead, texts[0]] + rest;
    if j > 0 {
      ElementInQuotes(texts[1..], next, j - 1);
    } else if |texts| > 1 {
      assert rest[0] == " ";
    }
  }

  /** Splitting a quoted list at its quotes gives what was put in if and only if no element has such a quote. */
  lemma QuotedExactly(texts: seq<string>)
    ensures Split(Quoted(texts), APOSTROPHE) == QuotedParts(texts, "") <==>
            forall i | 0 <= i < |texts| :: Free(texts[i], APOSTROPHE)
  {
    assert "" + Quoted(texts) == Quoted(texts);
    if forall i | 0 <= i < |texts| :: Free(texts[i], APOSTROPHE) {
      QuotedSplits(texts, "");
    }
    if Split(Quoted(texts), APOSTROPHE) == QuotedParts(texts, "") {
      PartsAreFree(Quoted(texts), APOSTROPHE);
      hide Split, Quoted, QuotedParts, Free;
      forall i | 0 <= i < |texts|
        ensures Free(texts[i], APOSTROPHE)
      {
        ElementInQuotes(texts, "", i);
      }
    }
  }

  // ---------- rendering, piece by piece ----------

  /** What stands for a part: itself, or the next parameter, a text as it is and an array in quotes; nothing if there is none. */
  function Piece(parts: seq<string>, params: seq<Param>, i: nat): string
    requires i < |parts|
  {
    if i % 2 == 0 then parts[i]
    else if i / 2 >= |params| then ""
    else if params[i / 2].One? then params[i / 2].text
    else Quoted(params[i / 2].texts)
  }

  function Pieces(parts: seq<string>, params: seq<Param>): (pieces: seq<string>)
    ensures |pieces| == |parts| && forall i | 0 <= i < |parts| :: pieces[i] == Piece(parts, params, i)
  {
    seq(|parts|, i requires 0 <= i < |parts| => Piece(parts, params, i))
  }

  /** A command line is its pieces, one behind the other. */
  lemma {:induction false} RenderedPieces(parts: seq<string>, params: seq<Param>)
    ensures Rendered(parts, true, params) == Concat(Pieces(parts, params))
    decreases |parts|
  {
    if |parts| < 2 {
      FewPieces(parts, params);
    } else {
      var tail, more := parts[2..], Rest(params);
      RenderedTwo(parts, params);
      RenderedPieces(tail, more);
      PiecesTwo(parts, params);
      hide *;
      ConcatFront(parts[0], [FirstText(params)] + Pieces(tail, more));
      ConcatFront(FirstText(params), Pieces(tail, more));
    }
  }

  lemma FewPieces(parts: seq<string>, params: seq<Param>)
    requires |parts| < 2
    ensures Rendered(parts, true, params) == Concat(Pieces(parts, params))
  {
    var pieces := Pieces(parts, params);
    if |parts| == 1 {
      assert pieces == [parts[0]] && pieces[..0] == [] && "" + parts[0] == parts[0];
      assert Rendered(parts[1..], false, params) == "" && parts[0] + "" == parts[0];
    }
  }

  lemma PiecesTwo(parts: seq<string>, params: seq<Param>)
    requires |parts| >= 2
    ensures Pieces(parts, params) == [parts[0]] + ([FirstText(params)] + Pieces(parts[2..], Rest(params)))
  {
    var tail, more := parts[2..], Rest(params);
    forall i | 0 <= i < |tail|
      ensures Piece(parts, params, i + 2) == Piece(tail, more, i)
    {
    }
    hide Quoted;
    assert Piece(parts, params, 0) == parts[0] && Piece(parts, params, 1) == FirstText(params);
  }

  lemma {:induction false} ConcatFront(text: string, texts: seq<string>)
    ensures Concat([text] + texts) == text + Concat(texts)
    decreases |texts|
  {
    if texts == [] {
      assert [text] + [] == [text] && [text][..0] == [] && "" + text == text + "";
    } else {
      var front, last := texts[..|texts| - 1], texts[|texts| - 1];
      ConcatFront(text, front);
      assert ([text] + texts)[..|texts|] == [text] + front;
      Regroup(text, Concat(front), last);
    }
  }

  /** Each placeholder, written out, as its own parameter. */
  function Own(names: seq<string>): (params: seq<Param>)
    ensures |params| == |names| && forall j | 0 <= j < |names| :: params[j] == One("{" + names[j] + "}")
  {
    seq(|names|, j requires 0 <= j < |names| => One("{" + names[j] + "}"))
  }

  /** A template filled in with its own placeholders is itself. */
  lemma {:induction false} OwnPlaceholders(parts: seq<string>)
    requires |parts| % 2 == 1
    ensures Rendered(parts, true, Own(Placeholders(parts))) == Join(parts, false)
    decreases |parts|
  {
    hide *;
    if |parts| == 1 {
      OwnLast(parts);
    } else {
      var name, tail := parts[1], parts[2..];
      OwnFirst(parts);
      OwnPlaceholders(tail);
      RenderedTwo(parts, Own(Placeholders(parts)));
      JoinTwo(parts);
      Regroup("{", name, "}");
      Regroup("{", name + "}", Join(tail, false));
      Regroup(name, "}", Join(tail, false));
    }
  }

  lemma OwnLast(parts: seq<string>)
    requires |parts| == 1
    ensures Rendered(parts, true, Own(Placeholders(parts))) == Join(parts, false)
  {
    var params := Own(Placeholders(parts));
    assert Rendered(parts[1..], false, params) == "";
  }

  lemma OwnFirst(parts: seq<string>)
    requires |parts| >= 3
    ensures Rest(Own(Placeholders(parts))) == Own(Placeholders(parts[2..]))
    ensures FirstText(Own(Placeholders(parts))) == "{" + parts[1] + "}"
  {
    assert Rest(Own(Placeholders(parts))) == Own(Placeholders(parts[2..]));
  }
}
