/** Reading back the message that asks to choose a user. */
module JsonUsers {
  import opened Options
  import opened Lists
  import opened Splitting
  import opened Characters
  import opened JsonText
  import opened JsonMessages
  import opened JsonAgent

  // ---------- what its quotes separate ----------

  function ListText(users: seq<string>): string {
    ": [" + (Names(users) + "] }")
  }

  /** What the quotes separate behind the message, behind the action id, and behind the first quote. */
  function Last(users: seq<string>): (stretches: seq<string>)
    ensures stretches != []
  {
    [", ", "users"] + Parts(ListText(users))
  }

  function Middle(message: string, users: seq<string>): (stretches: seq<string>)
    ensures stretches != []
  {
    [", ", "message", ": "] + (Parts(message) + Last(users))
  }

  function Stretches(actionId: string, message: string, users: seq<string>): seq<string> {
    ["action_id", ": "] + (Parts(actionId) + Middle(message, users))
  }

  /** Text put in front of a nest of parts. */
  lemma Nested(a: string, b: string, c: string, d: string, e: string, x: string)
    ensures (a + (b + (c + (d + e)))) + x == a + (b + (c + (d + (e + x))))
  {
    Regroup(a, b + (c + (d + e)), x);
    Regroup(b, c + (d + e), x);
    Regroup(c, d + e, x);
    Regroup(d, e, x);
  }

  lemma ActionText(actionId: string, rest: seq<string>)
    ensures JSON_AUTH_ACTION_ID + (actionId + Tail(rest)) == "{" + Tail(["action_id", ": "] + (Parts(actionId) + rest))
  {
    var q, colon, text, more := "\"", ": ", actionId + Tail(rest), Parts(actionId) + rest;
    assert ["action_id", ": "] + more == ["action_id"] + ([": "] + more);
    assert JSON_AUTH_ACTION_ID == "{" + (q + ("action_id" + (q + (colon + q))));
    hide *;
    TailParts(actionId, rest);
    TailOne(colon, more);
    TailOne("action_id", [colon] + more);
    Nested("{", q, "action_id", q, colon + q, text);
    Regroup(colon, q, text);
  }

  lemma MessageText(message: string, rest: seq<string>)
    ensures JSON_AUTH_MESSAGE + (message + Tail(rest)) == Tail([", ", "message", ": "] + (Parts(message) + rest))
  {
    var q, colon, comma, text, more := "\"", ": ", ", ", message + Tail(rest), Parts(message) + rest;
    assert [", ", "message", ": "] + more == [", "] + (["message"] + ([": "] + more));
    assert JSON_AUTH_MESSAGE == q + (comma + (q + ("message" + (q + (colon + q)))));
    hide *;
    TailParts(message, rest);
    TailOne(colon, more);
    TailOne("message", [colon] + more);
    TailOne(comma, ["message"] + ([colon] + more));
    Nested(q, comma, q, "message", q + (colon + q), text);
    Regroup(q, colon + q, text);
    Regroup(colon, q, text);
  }

  lemma UsersText(text: string)
    ensures JSON_AUTH_USERS + text == Tail([", ", "users"] + Parts(": [" + text))
  {
    var q, comma, bracket := "\"", ", ", ": [";
    var more := Parts(bracket + text);
    assert [comma, "users"] + more == [comma] + (["users"] + more);
    assert JSON_AUTH_USERS == q + (comma + (q + ("users" + (q + bracket))));
    hide *;
    PartsRestore(bracket + text);
    TailOne("users", more);
    TailOne(comma, ["users"] + more);
    Nested(q, comma, q, "users", q + bracket, text);
    Regroup(q, bracket, text);
  }

  lemma Regrouped(a: string, b: string, c: string, d: string, e: string, f: string, g: string)
    ensures a + b + c + d + e + f + g == a + (b + (c + (d + (e + (f + g)))))
  {
    assert a + b + c + d + e + f + g == (a + b + c + d + e) + (f + g);
    assert (a + b + c + d + e) + (f + g) == (a + b + c + d) + (e + (f + g));
    assert (a + b + c + d) + (e + (f + g)) == (a + b + c) + (d + (e + (f + g)));
  }

  lemma LineStretches(actionId: string, message: string, users: seq<string>)
    ensures UsersLine(actionId, message, users) == "{" + Tail(Stretches(actionId, message, users))
  {
    hide Tail, Names, Parts;
    UsersText(Names(users) + "] }");
    MessageText(message, Last(users));
    ActionText(actionId, Middle(message, users));
    Regrouped(JSON_AUTH_ACTION_ID, actionId, JSON_AUTH_MESSAGE, message, JSON_AUTH_USERS, Names(users), "] }");
  }

  lemma StretchesQuoteFree(actionId: string, message: string, users: seq<string>)
    ensures AllQuoteFree(Stretches(actionId, message, users)) && QuoteFree("{")
  {
    assert QuoteFree("action_id") && QuoteFree(": ") && QuoteFree(", ") && QuoteFree("message") && QuoteFree("users");
    PartsQuoteFree(actionId);
    PartsQuoteFree(message);
    PartsQuoteFree(ListText(users));
    hide Free, QuoteFree, Parts, ListText;
  }

  // ---------- what is found in it ----------

  lemma KeysAreNoValues()
    ensures QuoteFree("action_id") && QuoteFree("message") && QuoteFree("users")
    ensures !EndsEscaped("message", '\0') && !EndsEscaped("users", '\0')
  {
  }

  /** Each of the keys is found somewhere, whatever the values are. */
  lemma KeysFound(actionId: string, message: string, users: seq<string>)
    ensures var stretches := Stretches(actionId, message, users);
            && Rest(stretches, "action_id") == Some(": " + Tail(Parts(actionId) + Middle(message, users)))
            && Rest(stretches, "message").Some? && Rest(stretches, "users").Some?
  {
    var a, m, l, colon := Parts(actionId), Parts(message), Parts(ListText(users)), ": ";
    var more := m + Last(users);
    hide Parts, ListText, Rest, Tail;
    assert Stretches(actionId, message, users) == ["action_id"] + ([colon] + (a + Middle(message, users)));
    RestHere("action_id", colon, a + Middle(message, users));
    var front := ["action_id", colon] + a + [", "];
    assert Stretches(actionId, message, users) == front + (["message"] + ([colon] + more));
    RestAnyway(front, "message", colon, more);
    var before := front + ["message", colon] + m + [", "];
    assert l == [l[0]] + l[1..];
    assert Stretches(actionId, message, users) == before + (["users"] + ([l[0]] + l[1..]));
    RestAnyway(before, "users", l[0], l[1..]);
  }

  /** Behind an escaped action id, a key is found where it stands, unless the last part of the action id is its word. */
  lemma FoundBehindAction(actionId: string, message: string, users: seq<string>, sought: string)
    requires Escaped(actionId, '\0') && (sought == "message" || sought == "users")
    ensures var middle := Middle(message, users);
            Rest(Stretches(actionId, message, users), sought) ==
            if LastPart(actionId) == sought then Some(", " + Tail(middle[1..])) else Rest(middle, sought)
  {
    KeysAreNoValues();
    var middle := Middle(message, users);
    assert middle == [", "] + middle[1..];
    hide Parts, Tail, Rest, Middle, Last, Escaped, EndsEscaped;
    RestSkips(["action_id", ": "], Parts(actionId) + middle, sought);
    RestPastValue(actionId, ", ", middle[1..], sought);
  }

  lemma FoundInMiddle(message: string, users: seq<string>)
    ensures Rest(Middle(message, users), "message") == Some(": " + Tail(Parts(message) + Last(users)))
    ensures Escaped(message, '\0') ==>
              Rest(Middle(message, users), "users") ==
              if LastPart(message) == "users" then Some(", " + Tail(Last(users)[1..])) else Some(ListText(users))
  {
    KeysAreNoValues();
    var colon, last := ": ", Last(users);
    var more := Parts(message) + last;
    assert Middle(message, users) == [", "] + (["message"] + ([colon] + more));
    assert Middle(message, users) == [", ", "message", colon] + more && last == [", "] + last[1..];
    hide Parts, Tail, Rest, Middle, Last, Escaped, EndsEscaped, ListText;
    RestSkips([", "], ["message"] + ([colon] + more), "message");
    RestHere("message", colon, more);
    if Escaped(message, '\0') {
      RestSkips([", ", "message", colon], more, "users");
      RestPastValue(message, ", ", last[1..], "users");
      FoundInLast(users);
    }
  }

  lemma FoundInLast(users: seq<string>)
    ensures Rest(Last(users), "users") == Some(ListText(users))
  {
    var l := Parts(ListText(users));
    assert l == [l[0]] + l[1..] && Last(users) == [", "] + (["users"] + ([l[0]] + l[1..]));
    hide *;
    PartsRestore(ListText(users));
    TailOne(l[0], l[1..]);
    RestSkips([", "], ["users"] + ([l[0]] + l[1..]), "users");
    RestHere("users", l[0], l[1..]);
    QuoteOff(l[0] + Tail(l[1..]), ListText(users));
  }

  lemma QuoteOff(a: string, b: string)
    requires "\"" + a == "\"" + b
    ensures a == b
  {
    assert ("\"" + a)[1..] == a && ("\"" + b)[1..] == b;
  }

  // ---------- the list of users ----------

  const BRACKET: set<char> := {']'}

  predicate Plain(user: string) {
    Free(user, COMMA) && Free(user, BRACKET)
  }

  predicate AllPlain(users: seq<string>) {
    forall i | 0 <= i < |users| :: Plain(users[i])
  }

  lemma {:induction false} FindBracket(text: string)
    ensures Find(text, "]") == if FirstOf(text, BRACKET) < |text| then Some(FirstOf(text, BRACKET)) else None
  {
    if text != "" {
      assert "]" <= text <==> text[0] == ']';
      FindBracket(text[1..]);
    }
  }

  lemma {:induction false} FreeParts(text: string, stops: set<char>, seps: set<char>)
    requires Free(text, stops)
    ensures forall i | 0 <= i < |Split(text, seps)| :: Free(Split(text, seps)[i], stops)
    decreases |text|
  {
    var k := FirstOf(text, seps);
    if k < |text| {
      FreeParts(text[k + 1..], stops, seps);
    }
  }

  lemma {:induction false} StrippedFree(s: string, stops: set<char>)
    requires Free(s, stops)
    ensures Free(Stripped(s), stops)
    decreases |s|
  {
    if s != "" && IsBlank(s[0]) {
      StrippedFree(s[1..], stops);
    } else if s != "" && IsBlank(s[|s| - 1]) {
      StrippedFree(s[..|s| - 1], stops);
    }
  }

  lemma {:induction false} UnquotedFree(parts: seq<string>, stops: set<char>)
    requires AllUnquoted(parts).Some? && forall i | 0 <= i < |parts| :: Free(parts[i], stops)
    ensures forall i | 0 <= i < |AllUnquoted(parts).value| :: Free(AllUnquoted(parts).value[i], stops)
  {
    if parts != [] {
      StrippedFree(parts[0], stops);
      UnquotedFree(parts[1..], stops);
    }
  }

  /** No user that is read has a comma or a closing bracket. */
  lemma ElementsPlain(text: string)
    requires Elements(text).Some?
    ensures AllPlain(Elements(text).value)
  {
    FindBracket(text);
    var inside := text[..FirstOf(text, BRACKET)];
    var parts := Split(inside, COMMA);
    PartsAreFree(inside, COMMA);
    FreeParts(inside, BRACKET, COMMA);
    hide Split, Find, Unquoted;
    UnquotedFree(parts, COMMA);
    UnquotedFree(parts, BRACKET);
  }

  lemma {:induction false} NamesFree(users: seq<string>)
    requires AllPlain(users)
    ensures Free(Names(users), BRACKET)
  {
    if |users| > 1 {
      NamesFree(users[1..]);
    }
  }

  lemma UnquotedKey(user: string, lead: string)
    requires lead == "" || lead == " "
    ensures Unquoted(lead + Key(user)) == Some(user)
  {
    assert Stripped(Key(user)) == Key(user);
    if lead == " " {
      assert (" " + Key(user))[1..] == Key(user);
    } else {
      assert lead + Key(user) == Key(user);
    }
    assert Key(user)[1..|Key(user)| - 1] == user;
  }

  /** Splitting the printed names at commas and taking the quotes off gives the names. */
  lemma {:induction false} NamesReadBack(users: seq<string>, lead: string)
    requires users != [] && AllPlain(users) && (lead == "" || lead == " ")
    ensures AllUnquoted(Split(lead + Names(users), COMMA)) == Some(users)
    decreases |users|
  {
    hide *;
    var first := lead + Key(users[0]);
    FirstIsPlain(users);
    UnquotedKey(users[0], lead);
    KeyFree(users[0], lead);
    if |users| == 1 {
      OneName(users, lead);
      SplitLast(first, COMMA);
      NoneUnquoted();
      UnquotedMore(first, []);
    } else {
      var rest := " " + Names(users[1..]);
      MoreNames(users);
      CommaSpace(lead, Key(users[0]), Names(users[1..]));
      NamesReadBack(users[1..], " ");
      CommaIsStop();
      SplitMore(first, ',', rest, COMMA);
      UnquotedMore(first, Split(rest, COMMA));
    }
  }

  lemma FirstIsPlain(users: seq<string>)
    requires users != [] && AllPlain(users)
    ensures Free(users[0], COMMA) && AllPlain(users[1..])
  {
    assert Plain(users[0]);
  }

  lemma OneName(users: seq<string>, lead: string)
    requires |users| == 1
    ensures lead + Names(users) == lead + Key(users[0]) && [users[0]] + [] == users
  {
  }

  lemma MoreNames(users: seq<string>)
    requires |users| > 1
    ensures Names(users) == Key(users[0]) + ", " + Names(users[1..])
    ensures [users[0]] + users[1..] == users
  {
  }

  lemma CommaIsStop()
    ensures ',' in COMMA
  {
  }

  lemma NoneUnquoted()
    ensures AllUnquoted([]) == Some([])
  {
  }

  lemma UnquotedMore(part: string, parts: seq<string>)
    requires Unquoted(part).Some? && AllUnquoted(parts).Some?
    ensures AllUnquoted([part] + parts) == Some([Unquoted(part).value] + AllUnquoted(parts).value)
    ensures [part] + [] == [part]
  {
    assert ([part] + parts)[1..] == parts;
    hide Unquoted;
  }

  lemma KeyFree(user: string, lead: string)
    requires Free(user, COMMA) && (lead == "" || lead == " ")
    ensures Free(lead + Key(user), COMMA)
  {
  }

  lemma CommaSpace(lead: string, key: string, names: string)
    ensures lead + (key + ", " + names) == (lead + key) + ([','] + (" " + names))
  {
    assert ", " == [','] + " ";
  }

  /** The list comes back if and only if no user has a comma or a closing bracket. */
  lemma ListReadBack(users: seq<string>)
    requires users != []
    ensures Elements(Names(users) + "] }") == Some(users) <==> AllPlain(users)
  {
    var text := Names(users) + "] }";
    if Elements(text) == Some(users) {
      ElementsPlain(text);
    }
    if AllPlain(users) {
      NamesFree(users);
      FirstOfAt(Names(users), "] }", BRACKET);
      FindBracket(text);
      assert text[..|Names(users)|] == Names(users);
      NamesReadBack(users, "");
      assert "" + Names(users) == Names(users);
      assert Names(users) != "";
    }
  }

  // ---------- the message ----------

  function ReadList(text: Option<string>): Option<seq<string>> {
    var at := Then(Then(text, ':'), '[');
    if at.Some? then Elements(at.value) else None
  }

  lemma ReadNames(names: string)
    ensures ReadList(Some(": [" + names)) == Elements(names)
  {
    var bracket := "[" + names;
    assert ": [" + names == ": " + bracket && (": " + bracket)[1..] == " " + bracket && bracket[1..] == names;
    PastSpace(bracket, '[');
  }

  lemma CommaReadsNothing(more: string)
    ensures ReadStr(Some(", " + more)) == None && ReadList(Some(", " + more)) == None
  {
    CommaIsNoColon(more);
  }

  lemma AfterInLine(actionId: string, message: string, users: seq<string>, sought: string)
    requires sought == "action_id" || sought == "message" || sought == "users"
    ensures var line, found := UsersLine(actionId, message, users), Rest(Stretches(actionId, message, users), sought);
            && (Has(line, sought) <==> found.Some?)
            && ValueStr(line, Key(sought)) == ReadStr(found)
            && ValueList(line, Key(sought)) == ReadList(found)
  {
    hide *;
    KeysAreNoValues();
    StretchesQuoteFree(actionId, message, users);
    LineStretches(actionId, message, users);
    SearchByStretch("{", Stretches(actionId, message, users), sought);
    HasIsAfter(UsersLine(actionId, message, users), sought);
    ListIsAfter(UsersLine(actionId, message, users), sought);
  }

  lemma ListIsAfter(line: string, word: string)
    ensures ValueList(line, Key(word)) == ReadList(After(line, Key(word)))
  {
  }

  /** Which handler takes the message, and what it reads of the action id. */
  lemma ActionReadBack(actionId: string, message: string, users: seq<string>)
    ensures var reading := ReadingOf(UsersLine(actionId, message, users));
            reading.SelectUser? && (reading.actionId == Some(actionId) <==> Clean(actionId))
  {
    hide UsersLine, Stretches, Rest, Has, ValueStr, ValueList, ReadStr, ReadList, Parts, Clean;
    KeysFound(actionId, message, users);
    AfterInLine(actionId, message, users, "action_id");
    AfterInLine(actionId, message, users, "message");
    AfterInLine(actionId, message, users, "users");
    ReadClean(": ", actionId, Middle(message, users));
  }

  lemma MessageReadBack(actionId: string, message: string, users: seq<string>)
    requires Escaped(actionId, '\0')
    ensures ValueStr(UsersLine(actionId, message, users), Key("message")) == Some(message) <==>
            Clean(message) && LastPart(actionId) != "message"
  {
    hide UsersLine, Stretches, Rest, Has, ValueStr, ValueList, ReadStr, ReadList, Parts, Clean, Escaped, LastPart, Tail, Middle;
    AfterInLine(actionId, message, users, "message");
    FoundBehindAction(actionId, message, users, "message");
    FoundInMiddle(message, users);
    ReadClean(": ", message, Last(users));
    CommaReadsNothing(Tail(Middle(message, users)[1..]));
  }

  lemma UsersReadBack(actionId: string, message: string, users: seq<string>)
    requires Escaped(actionId, '\0') && Escaped(message, '\0') && users != []
    ensures ValueList(UsersLine(actionId, message, users), Key("users")) == Some(users) <==>
            AllPlain(users) && LastPart(actionId) != "users" && LastPart(message) != "users"
  {
    hide UsersLine, Stretches, Rest, Has, ValueStr, ValueList, ReadStr, ReadList, Parts, Escaped, LastPart, Tail, Middle, Last,
         Names, Elements, AllPlain;
    AfterInLine(actionId, message, users, "users");
    FoundBehindAction(actionId, message, users, "users");
    FoundInMiddle(message, users);
    ReadNames(Names(users) + "] }");
    ListReadBack(users);
    CommaReadsNothing(Tail(Middle(message, users)[1..]));
    CommaReadsNothing(Tail(Last(users)[1..]));
  }

  /**
    The message that asks to choose a user goes to its handler whatever it carries. It comes back
    as it was sent if and only if the action id and the message are clean, no user has a comma or a
    closing bracket, and what follows the last quote of a value is no word of a later key.
   */
  lemma SelectUserReadBack(actionId: string, message: string, users: seq<string>)
    requires users != []
    ensures var reading := ReadingOf(UsersLine(actionId, message, users));
            && reading.SelectUser?
            && (reading == SelectUser(Some(actionId), Some(message), Some(users)) <==>
                  && Clean(actionId) && Clean(message) && AllPlain(users)
                  && LastPart(actionId) != "message" && LastPart(actionId) != "users" && LastPart(message) != "users")
  {
    hide UsersLine, Has, ValueStr, ValueList, Clean, Escaped, LastPart, AllPlain;
    ActionReadBack(actionId, message, users);
    CleanIsEscaped(actionId);
    CleanIsEscaped(message);
    if Clean(actionId) {
      MessageReadBack(actionId, message, users);
      if Clean(message) {
        UsersReadBack(actionId, message, users);
      }
    }
  }

  /** The two ends of the channel: the message is printed and the line that comes is read. */
  method PrintAndRead(actionId: string, message: string, users: seq<string>) returns (reading: Reading)
    requires users != []
    ensures reading.SelectUser?
    ensures reading == SelectUser(Some(actionId), Some(message), Some(users)) <==>
              && Clean(actionId) && Clean(message) && AllPlain(users)
              && LastPart(actionId) != "message" && LastPart(actionId) != "users" && LastPart(message) != "users"
  {
    hide ReadingOf, UsersLine, Clean, LastPart, AllPlain;
    var line := PrintUsers(actionId, message, users);
    reading := ReadPkStdout(line);
    SelectUserReadBack(actionId, message, users);
  }
}
