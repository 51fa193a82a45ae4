/** The agent's messages: how they are printed, which handler takes a line, and what it reads. */
module JsonAgent {
  import opened Options
  import opened Lists
  import opened Splitting
  import opened Characters
  import opened JsonText
  import opened JsonMessages

  // ---------- printing ----------

  const JSON_AUTH_ACTION_ID := "{\"action_id\": \""
  const JSON_AUTH_MESSAGE := "\", \"message\": \""
  const JSON_AUTH_USERS := "\", \"users\": ["
  const JSON_AUTH_END := "] }\n"

  function Names(users: seq<string>): string {
    if users == [] then ""
    else if |users| == 1 then Key(users[0])
    else Key(users[0]) + ", " + Names(users[1..])
  }

  /** The line that asks to choose a user, without its line feed. */
  function UsersLine(actionId: string, message: string, users: seq<string>): string {
    JSON_AUTH_ACTION_ID + actionId + JSON_AUTH_MESSAGE + message + JSON_AUTH_USERS + Names(users) + "] }"
  }

  method PrintUsers(actionId: string, message: string, users: seq<string>) returns (line: string)
    ensures line == UsersLine(actionId, message, users) + "\n"
  {
    line := JSON_AUTH_ACTION_ID;
    line := line + actionId;
    line := line + JSON_AUTH_MESSAGE;
    line := line + message;
    line := line + JSON_AUTH_USERS;
    ghost var head := line;
    for n := 0 to |users|
      invariant head + Names(users) == line + (if 0 < n < |users| then ", " else "") + Names(users[n..])
    {
      NextName(line, users, n);
      if n > 0 {
        line := line + ", ";
      }
      line := line + "\"";
      line := line + users[n];
      line := line + "\"";
    }
    line := line + JSON_AUTH_END;
    assert "] }" + "\n" == JSON_AUTH_END;
  }

  lemma NextName(line: string, users: seq<string>, n: nat)
    requires n < |users|
    ensures var comma := if n > 0 then ", " else "";
            line + comma + Names(users[n..]) ==
            line + comma + "\"" + users[n] + "\"" + (if n + 1 < |users| then ", " else "") + Names(users[n + 1..])
  {
    assert users[n..][1..] == users[n + 1..];
  }

  /** The other messages: one value under one word. */
  function OneLine(word: string, value: string): string {
    "{ " + Key(word) + " : " + Key(value) + LineEnd(word)
  }

  // ---------- reading ----------

  /** What is done with a line: the words are those of the keys. */
  datatype Reading =
    | SelectUser(actionId: Option<string>, message: Option<string>, users: Option<seq<string>>)
    | Asked(request: Option<string>)
    | Told(word: string, result: Option<string>)
    | Ignored

  predicate Has(line: string, word: string) {
    Find(line, Key(word)).Some?
  }

  function ReadingOf(line: string): Reading {
    if Has(line, "action_id") && Has(line, "message") && Has(line, "users") then
      SelectUser(ValueStr(line, Key("action_id")), ValueStr(line, Key("message")), ValueList(line, Key("users")))
    else if Has(line, "request") then Asked(ValueStr(line, Key("request")))
    else if Has(line, "result") then Told("result", ValueStr(line, Key("result")))
    else if Has(line, "error") then Told("error", ValueStr(line, Key("error")))
    else if Has(line, "info") then Told("info", ValueStr(line, Key("info")))
    else if Has(line, "invalid response") then Told("invalid response", ValueStr(line, Key("invalid response")))
    else Ignored
  }

  function WithoutLineFeed(line: string): string {
    if line != "" && line[|line| - 1] == '\n' then line[..|line| - 1] else line
  }

  lemma LineFeedOff(s: string)
    ensures WithoutLineFeed(s + "\n") == s
    ensures s == "" || s[|s| - 1] != '\n' ==> WithoutLineFeed(s) == s
  {
    var line := s + "\n";
    assert line[..|line| - 1] == s;
  }

  /** One line from the agent, with the line feed that ends it or, at the end of the channel, without. */
  method ReadPkStdout(line: string) returns (reading: Reading)
    ensures forall s | line == s + "\n" :: reading == ReadingOf(s)
    ensures line == "" || line[|line| - 1] != '\n' ==> reading == ReadingOf(line)
  {
    reading := ReadStripped(line);
    LineFeedOff(line);
    if line != "" && line[|line| - 1] == '\n' {
      var s := line[..|line| - 1];
      assert line == s + "\n";
      hide ReadingOf, WithoutLineFeed;
      LineFeedOff(s);
      forall t | line == t + "\n"
        ensures t == s
      {
        assert t == line[..|line| - 1];
      }
    }
  }

  method ReadStripped(line: string) returns (reading: Reading)
    ensures reading == ReadingOf(WithoutLineFeed(line))
  {
    hide Has, ValueStr, ValueList, Key;
    var str := line;
    if |str| > 0 && str[|str| - 1] == '\n' {
      str := str[..|str| - 1];
    }
    if Has(str, "action_id") && Has(str, "message") && Has(str, "users") {
      var actionId := GetJsonValueStr(str, Key("action_id"));
      var message := GetJsonValueStr(str, Key("message"));
      var users := GetJsonValueArrStr(str, Key("users"));
      reading := SelectUser(actionId, message, users);
    } else if Has(str, "request") {
      var request := GetJsonValueStr(str, Key("request"));
      reading := Asked(request);
    } else {
      reading := ReadResult(str);
    }
  }

  method ReadResult(str: string) returns (reading: Reading)
    requires !(Has(str, "action_id") && Has(str, "message") && Has(str, "users")) && !Has(str, "request")
    ensures reading == ReadingOf(str)
  {
    hide Has, ValueStr, ValueList, Key;
    var word;
    if Has(str, "result") {
      word := "result";
    } else if Has(str, "error") {
      word := "error";
    } else if Has(str, "info") {
      word := "info";
    } else if Has(str, "invalid response") {
      word := "invalid response";
    } else {
      return Ignored;
    }
    var result := GetJsonValueStr(str, Key(word));
    reading := Told(word, result);
  }

  // ---------- one value ----------

  function LineEnd(word: string): string {
    if word == "invalid response" then "}" else " }"
  }

  /** What the quotes of a line with one value separate, behind its first quote. */
  function OneLineStretches(word: string, value: string): seq<string> {
    [word, " : "] + (Parts(value) + [LineEnd(word)])
  }

  lemma OneLineText(word: string, value: string)
    ensures OneLine(word, value) == "{ " + Tail(OneLineStretches(word, value))
  {
    var end, q, colon := LineEnd(word), "\"", " : ";
    assert [word, colon] + (Parts(value) + [end]) == [word] + ([colon] + (Parts(value) + [end]));
    assert [end] + [] == [end] && end + "" == end;
    assert Key(value) == q + (value + q) && OneLine(word, value) == ("{ " + Key(word)) + colon + Key(value) + end;
    assert Key(word) == q + (word + q);
    NoTail();
    hide *;
    TailOne(end, []);
    TailParts(value, [end]);
    TailOne(colon, Parts(value) + [end]);
    TailOne(word, [colon] + (Parts(value) + [end]));
    GluedLine("{ ", q, word, colon, value, end);
  }

  lemma GluedLine(open: string, q: string, word: string, colon: string, value: string, end: string)
    ensures (open + (q + (word + q))) + colon + (q + (value + q)) + end ==
            open + (q + (word + (q + (colon + (q + (value + (q + end)))))))
  {
    var tail := q + (value + (q + end));
    Regroup(q, value + q, end);
    Regroup(value, q, end);
    Regroup((open + (q + (word + q))) + colon, q + (value + q), end);
    Regroup(open + (q + (word + q)), colon, tail);
    Regroup(open, q + (word + q), colon + tail);
    Regroup(q, word + q, colon + tail);
    Regroup(word, q, colon + tail);
  }

  /** The words that are looked for before another, when a line has one value only. */
  predicate Before(earlier: string, word: string) {
    || (word == "result" && earlier == "request")
    || (word == "error" && (earlier == "request" || earlier == "result"))
    || (word == "info" && (earlier == "request" || earlier == "result" || earlier == "error"))
    || (word == "invalid response" &&
        (earlier == "request" || earlier == "result" || earlier == "error" || earlier == "info"))
  }

  predicate IsWord(word: string) {
    word == "request" || word == "result" || word == "error" || word == "info" || word == "invalid response"
  }

  lemma WordsAreQuoteFree()
    ensures QuoteFree("action_id") && QuoteFree("message") && QuoteFree("users") && QuoteFree("request")
    ensures QuoteFree("result") && QuoteFree("error") && QuoteFree("info") && QuoteFree("invalid response")
  {
  }

  lemma WordsEnd()
    ensures !EndsEscaped("action_id", '\0') && !EndsEscaped("message", '\0') && !EndsEscaped("users", '\0')
    ensures forall word | IsWord(word) :: QuoteFree(word) && !EndsEscaped(word, '\0') && word != " : "
  {
    WordsAreQuoteFree();
  }

  /** What is found in a line with one value. */
  lemma SearchOneLine(word: string, value: string, sought: string)
    requires QuoteFree(word) && QuoteFree(sought)
    ensures After(OneLine(word, value), Key(sought)) == Rest(OneLineStretches(word, value), sought)
  {
    OneLineText(word, value);
    PartsQuoteFree(value);
    assert QuoteFree("{ ") && QuoteFree(LineEnd(word)) && QuoteFree(" : ");
    hide QuoteFree, After, OneLine, Rest, Tail, Parts;
    SearchByStretch("{ ", OneLineStretches(word, value), sought);
  }

  lemma FoundInOneLine(word: string, value: string, sought: string)
    requires sought != " : " && !EndsEscaped(sought, '\0')
    ensures sought == word ==>
              Rest(OneLineStretches(word, value), sought) == Some(" : " + Tail(Parts(value) + [LineEnd(word)]))
    ensures Escaped(value, '\0') ==>
              (Rest(OneLineStretches(word, value), sought).Some? <==> sought == word || sought == LastPart(value))
  {
    var colon, end := " : ", LineEnd(word);
    var rest := Parts(value) + [end];
    assert [word, colon] + rest == [word] + ([colon] + rest) && [end] + [] == [end];
    hide Parts, Tail, Rest, Escaped, EndsEscaped, LineEnd;
    if sought == word {
      RestHere(word, colon, rest);
    } else {
      RestSkips([word, colon], rest, sought);
      NothingAtEnd(end, sought);
      if Escaped(value, '\0') {
        RestPastValue(value, end, [], sought);
      }
    }
  }

  lemma NothingAtEnd(end: string, sought: string)
    ensures Rest([end], sought) == None
  {
  }

  lemma HasIsAfter(line: string, word: string)
    ensures Has(line, word) <==> After(line, Key(word)).Some?
    ensures ValueStr(line, Key(word)) == ReadStr(After(line, Key(word)))
  {
  }

  /** In a line with one value: whether a word is found, and what is read for its own. */
  lemma ReadOneLine(word: string, value: string, sought: string)
    requires IsWord(word) && QuoteFree(sought) && sought != " : " && !EndsEscaped(sought, '\0')
    ensures Escaped(value, '\0') ==> (Has(OneLine(word, value), sought) <==> sought == word || sought == LastPart(value))
    ensures sought == word ==>
              Has(OneLine(word, value), sought)
              && (ValueStr(OneLine(word, value), Key(sought)) == Some(value) <==> Clean(value))
  {
    WordsEnd();
    hide Clean, OneLine, OneLineStretches, Rest, Tail, QuoteFree, Escaped, EndsEscaped, Parts, LastPart, Has, ReadStr, ValueStr;
    SearchOneLine(word, value, sought);
    FoundInOneLine(word, value, sought);
    HasIsAfter(OneLine(word, value), sought);
    ReadClean(" : ", value, [LineEnd(word)]);
  }

  /** The reading of a line with one value under a word. */
  function Own(word: string, value: string): Reading {
    if word == "request" then Asked(Some(value)) else Told(word, Some(value))
  }

  /**
    For every value, with or without quotes: a message comes back as it was sent, through its own
    handler, if and only if the value is printable, each of its quotes comes behind a backslash,
    it does not end in one, and what follows its last quote is no word that is looked for earlier.
   */
  lemma OneValueReadBack(word: string, value: string)
    requires IsWord(word)
    ensures ReadingOf(OneLine(word, value)) == Own(word, value) <==> Clean(value) && !Before(LastPart(value), word)
  {
    WordsAreQuoteFree();
    WordsEnd();
    CleanIsEscaped(value);
    hide Clean, OneLine, QuoteFree, Has, ValueStr, Escaped, EndsEscaped, LastPart;
    ReadOneLine(word, value, "action_id");
    ReadOneLine(word, value, "message");
    ReadOneLine(word, value, "users");
    ReadOneLine(word, value, "request");
    ReadOneLine(word, value, "result");
    ReadOneLine(word, value, "error");
    ReadOneLine(word, value, "info");
    ReadOneLine(word, value, "invalid response");
  }

  /** The two ends of the channel: a message with one value is printed, ended by its line feed, and read. */
  method TellAndRead(word: string, value: string) returns (reading: Reading)
    requires IsWord(word)
    ensures reading == Own(word, value) <==> Clean(value) && !Before(LastPart(value), word)
  {
    hide ReadingOf, OneLine, Clean, LastPart;
    reading := ReadPkStdout(OneLine(word, value) + "\n");
    OneValueReadBack(word, value);
  }

  lemma CleanIsEscaped(value: string)
    ensures Clean(value) ==> Escaped(value, '\0')
  {
  }

  /** What is read of a value with a bare quote in it: what precedes the first such quote. */
  lemma CutAtBareQuote(word: string, front: string, rest: string)
    requires IsWord(word) && Clean(front)
    ensures ValueStr(OneLine(word, front + ("\"" + rest)), Key(word)) == Some(front)
  {
    var value := front + ("\"" + rest);
    WordsEnd();
    hide Clean, OneLine, OneLineStretches, Rest, Tail, QuoteFree, Escaped, EndsEscaped, Parts, LastPart, Has, ReadStr, ValueStr;
    SearchOneLine(word, value, word);
    FoundInOneLine(word, value, word);
    HasIsAfter(OneLine(word, value), word);
    ReadFront(front, rest, LineEnd(word));
  }

  lemma ReadFront(front: string, rest: string, end: string)
    requires Clean(front)
    ensures ReadStr(Some(" : " + Tail(Parts(front + ("\"" + rest)) + [end]))) == Some(front)
  {
    var value, tail := front + ("\"" + rest), Tail([end]);
    TailParts(value, [end]);
    hide Tail, Copied, Parts;
    PastColon(" : ", "\"" + (value + tail));
    assert ("\"" + (value + tail))[1..] == value + tail;
    assert value + tail == front + ("\"" + (rest + tail));
    CopiedExactly(front, rest + tail, '\0');
  }

  /** The answer to a reply without its field has bare quotes and is read only up to them. */
  lemma MissingFieldCut()
    ensures ReadingOf(OneLine("invalid response", "no field \"selected user\"")) ==
            Told("invalid response", Some("no field "))
  {
    var front, rest := "no field ", "selected user\"";
    var value := "no field \"selected user\"";
    assert value == front + ("\"" + rest);
    assert Clean(front);
    CutAtBareQuote("invalid response", front, rest);
    MissingFieldParts();
    hide Clean, OneLine, ValueStr, Has, Rest;
    MissingFieldHas("action_id");
    MissingFieldHas("request");
    MissingFieldHas("result");
    MissingFieldHas("error");
    MissingFieldHas("info");
    MissingFieldHas("invalid response");
  }

  lemma MissingFieldParts()
    ensures Parts("no field \"selected user\"") == ["no field ", "selected user", ""]
  {
    var front, middle, value := "no field ", "selected user", "no field \"selected user\"";
    assert Free(front, QUOTE) && Free(middle, QUOTE) && Free("", QUOTE) && '"' in QUOTE;
    assert value == front + (['"'] + (middle + (['"'] + "")));
    assert [front] + ([middle] + [""]) == [front, middle, ""] && Parts(value) == Split(value, QUOTE);
    hide *;
    SplitMore(front, '"', middle + (['"'] + ""), QUOTE);
    SplitMore(middle, '"', "", QUOTE);
    SplitLast("", QUOTE);
  }

  lemma MissingFieldHas(sought: string)
    requires sought == "action_id" || IsWord(sought)
    ensures Has(OneLine("invalid response", "no field \"selected user\""), sought) <==> sought == "invalid response"
  {
    var word, value := "invalid response", "no field \"selected user\"";
    WordsAreQuoteFree();
    MissingFieldStretches(sought);
    hide *;
    SearchOneLine(word, value, sought);
    HasIsAfter(OneLine(word, value), sought);
  }

  lemma MissingFieldStretches(sought: string)
    requires sought == "action_id" || IsWord(sought)
    ensures Rest(OneLineStretches("invalid response", "no field \"selected user\""), sought).Some? <==>
            sought == "invalid response"
  {
    var front := ["invalid response", " : ", "no field ", "selected user", ""];
    MissingFieldParts();
    hide Parts, Rest;
    assert OneLineStretches("invalid response", "no field \"selected user\"") == front + ["}"];
    NothingAtEnd("}", sought);
    if sought == front[0] {
      assert front + ["}"] == [front[0]] + ([front[1]] + (front[2..] + ["}"]));
      RestHere(front[0], front[1], front[2..] + ["}"]);
    } else {
      assert sought !in front;
      RestSkips(front, ["}"], sought);
    }
  }

  // ---------- escaped texts ----------

  function Digit(n: nat): char
    requires n < 8
  {
    '0' + n as char
  }

  /** How a byte is escaped: with a letter, itself, or three octal digits behind a backslash. */
  function EscapedChar(c: char): string {
    if c == 8 as char then "\\b"
    else if c == 12 as char then "\\f"
    else if c == '\n' then "\\n"
    else if c == '\r' then "\\r"
    else if c == '\t' then "\\t"
    else if c == 11 as char then "\\v"
    else if c == '\\' then "\\\\"
    else if c == '"' then "\\\""
    else if IsPrint(c) then [c]
    else ['\\', Digit(c as int / 64 % 8), Digit(c as int / 8 % 8), Digit(c as int % 8)]
  }

  function StrEscape(s: string): string {
    if s == "" then "" else EscapedChar(s[0]) + StrEscape(s[1..])
  }

  lemma CharEscaped(c: char, previous: char)
    ensures var e := EscapedChar(c);
            e != "" && Printable(e) && Escaped(e, previous) && (EndsEscaped(e, previous) <==> c == '\\')
  {
  }

  /** Escaping leaves only printable characters and no bare quote; it ends in a backslash if the text does. */
  lemma {:induction false} EscapingCleans(s: string, previous: char)
    ensures var e := StrEscape(s);
            && Printable(e) && Escaped(e, previous)
            && (EndsEscaped(e, previous) <==> if s == "" then previous == '\\' else s[|s| - 1] == '\\')
    decreases |s|
  {
    hide *;
    EscapeMore(s, previous);
    if s != "" {
      var e := EscapedChar(s[0]);
      CharEscaped(s[0], previous);
      LastEscaped(e, previous);
      EscapingCleans(s[1..], e[|e| - 1]);
      TwoClean(e, StrEscape(s[1..]), previous);
    }
  }

  lemma EscapeMore(s: string, previous: char)
    ensures s == "" ==> StrEscape(s) == "" && Printable("") && Escaped("", previous)
    ensures s == "" ==> (EndsEscaped("", previous) <==> previous == '\\')
    ensures s != "" ==> StrEscape(s) == EscapedChar(s[0]) + StrEscape(s[1..])
  {
  }

  lemma LastEscaped(e: string, previous: char)
    requires e != ""
    ensures EndsEscaped(e, previous) <==> e[|e| - 1] == '\\'
  {
  }

  lemma TwoClean(a: string, b: string, previous: char)
    requires a != "" && Printable(a) && Printable(b) && Escaped(a, previous) && Escaped(b, a[|a| - 1])
    ensures Printable(a + b) && Escaped(a + b, previous)
    ensures EndsEscaped(a + b, previous) == EndsEscaped(b, a[|a| - 1])
  {
    var s := a + b;
    forall i | 0 <= i < |s| && s[i] == '"'
      ensures (if i == 0 then previous else s[i - 1]) == '\\'
    {
      if i < |a| {
        assert a[i] == '"';
      } else {
        assert b[i - |a|] == '"';
      }
    }
  }

  /** A refused reply is sent escaped; it comes back, escapes and all, if it does not end in a backslash or a word of a key. */
  lemma EscapedReadBack(word: string, text: string)
    requires IsWord(word)
    ensures ReadingOf(OneLine(word, StrEscape(text))) == Own(word, StrEscape(text)) <==>
            (text == "" || text[|text| - 1] != '\\') && !Before(LastPart(StrEscape(text)), word)
  {
    EscapingCleans(text, '\0');
    OneValueReadBack(word, StrEscape(text));
    hide StrEscape, Printable, Escaped, EndsEscaped, OneLine, ReadingOf, LastPart;
  }
}
