/** The parser undoes the encoder, and it does so exactly when the scanner says the answer is there. */
module BackendRoundTrip {
  import opened Lists
  import opened Characters
  import opened BackendAnswer
  import opened BackendScanner
  import opened BackendParser

  lemma WordEnds(text: string, i: nat, k: string, gap: string)
    requires IsKey(k) && gap != "" && IsSpaces(gap) && At(text, i, k) && At(text, i + |k|, gap)
    ensures SkipWord(text, i) == i + |k|
  {
    assert text[i + |k|] == gap[0] && IsSpace(CharAt(text, i + |k|));
    forall j | i <= j < i + |k|
      ensures text[j] == k[j - i]
    {
      assert text[i..i + |k|][j - i] == text[j];
    }
  }

  lemma GapEnds(text: string, i: nat, gap: string, next: string)
    requires IsSpaces(gap) && At(text, i, gap) && next != "" && At(text, i + |gap|, next) && !IsSpace(next[0])
    ensures SkipSpaces(text, i) == i + |gap|
  {
    assert text[i + |gap|] == next[0] && !IsSpace(CharAt(text, i + |gap|));
    forall j | i <= j < i + |gap|
      ensures text[j] == gap[j - i]
    {
      assert text[i..i + |gap|][j - i] == text[j];
    }
  }

  lemma ValueEnds(text: string, i: nat, v: string, next: string)
    requires i > 0 && text != "" && IsValue(v) && At(text, i, v) && At(text, i + |v|, next) && next != "" && next[0] == '"'
    requires i <= |text| && text[i - 1] == '"'
    ensures ValueEnd(text, i) == i + |v|
  {
    assert text[i + |v|] == next[0];
    forall j | i <= j < i + |v|
      ensures text[j] == v[j - i]
    {
      assert text[i..i + |v|][j - i] == text[j];
    }
    assert Closes(text, i + |v|);
  }

  lemma AtSlice(text: string, i: nat, w: string)
    requires At(text, i, w)
    ensures i + |w| <= |text| && text[i..i + |w|] == w
  {
  }

  /** Where the parts of a pair stand. */
  lemma PairLayout(text: string, i: nat, w: Written)
    requires At(text, i, PairText(w))
    ensures var p := w.pair; var k := i + |p.key|; var v := k + |w.gap| + 1;
            && At(text, i, p.key) && At(text, k, w.gap) && At(text, k + |w.gap|, ['"'])
            && At(text, v, p.value) && At(text, v + |p.value|, ['"']) && At(text, v + |p.value| + 1, w.after)
            && v + |p.value| + 1 == i + |PairText(w)| - |w.after|
  {
    hide At;
    var t4 := ['"'] + w.after;
    var t3 := w.pair.value + t4;
    var t2 := ['"'] + t3;
    var k := i + |w.pair.key|;
    AtParts(text, i, w.pair.key, w.gap + t2);
    AtParts(text, k, w.gap, t2);
    AtParts(text, k + |w.gap|, ['"'], t3);
    AtParts(text, k + |w.gap| + 1, w.pair.value, t4);
    AtParts(text, k + |w.gap| + 1 + |w.pair.value|, ['"'], w.after);
  }

  /** A pair in the text is read back whole, up to its closing quote. */
  lemma PairReadBack(text: string, i: nat, w: Written)
    requires IsWritten(w) && At(text, i, PairText(w))
    ensures i < |text| && IsWordChar(text[i])
    ensures var next := i + |PairText(w)| - |w.after|; PairAt(text, i) == (w.pair, next) && At(text, next, w.after)
  {
    hide *;
    PairLayout(text, i, w);
    WrittenParts(w);
    var p, gap := w.pair, w.gap;
    var k := i + |p.key|;
    var q := k + |gap|;
    var z := q + 1 + |p.value|;
    AtChar(text, i, p.key, 0);
    AtChar(text, k, gap, 0);
    AtChar(text, q, ['"'], 0);
    AtChar(text, z, ['"'], 0);
    AtSlice(text, i, p.key);
    AtSlice(text, q + 1, p.value);
    QuoteIsNoSpace();
    WordEnds(text, i, p.key, gap);
    GapEnds(text, k, gap, ['"']);
    ValueEnds(text, q + 1, p.value, ['"']);
    PairAtIs(text, i, k, q, z);
  }

  lemma WrittenParts(w: Written)
    requires IsWritten(w)
    ensures IsKey(w.pair.key) && w.pair.key != "" && IsWordChar(w.pair.key[0]) && IsValue(w.pair.value)
    ensures w.gap != "" && IsSpaces(w.gap) && w.gap[0] != '\0' && IsSpaces(w.after)
  {
    assert IsSpace(w.gap[0]);
  }

  lemma QuoteIsNoSpace()
    ensures !IsSpace('"')
  {
  }

  lemma PairAtIs(text: string, i: nat, e: nat, q: nat, z: nat)
    requires i < |text| && IsWordChar(text[i]) && SkipWord(text, i) == e && e < |text| && text[e] != '\0'
    requires SkipSpaces(text, e) == q && q < |text| && text[q] == '"'
    requires ValueEnd(text, q + 1) == z && z < |text| && text[z] == '"'
    ensures PairAt(text, i) == (Pair(text[i..e], text[q + 1..z]), z + 1)
  {
    hide SkipWord, SkipSpaces, ValueEnd;
  }

  /** Spaces between pairs and groups are passed over. */
  lemma SpacesSkipped(text: string, i: nat, spaces: string, done: seq<Dict>, isOpen: bool, current: Dict)
    requires At(text, i, spaces) && IsSpaces(spaces)
    ensures i + |spaces| <= |text|
    ensures DictsFrom(text, i, done, isOpen, current) == DictsFrom(text, i + |spaces|, done, isOpen, current)
  {
    SpacesFrom(text, i, spaces, 0, done, isOpen, current);
  }

  lemma {:induction false} SpacesFrom(text: string, i: nat, spaces: string, n: nat, done: seq<Dict>, isOpen: bool, current: Dict)
    requires At(text, i, spaces) && n <= |spaces| && IsSpaces(spaces)
    ensures DictsFrom(text, i + n, done, isOpen, current) == DictsFrom(text, i + |spaces|, done, isOpen, current)
    decreases |spaces| - n
  {
    if n < |spaces| {
      assert text[i..i + |spaces|][n] == text[i + n];
      SpacesFrom(text, i, spaces, n + 1, done, isOpen, current);
    }
  }

  /** A pair inside of a group, and a pair of its own. */
  lemma PairStep(text: string, i: nat, w: Written, done: seq<Dict>, isOpen: bool, current: Dict)
    requires IsWritten(w) && At(text, i, PairText(w)) && (!isOpen ==> current == [])
    ensures i + |PairText(w)| <= |text|
    ensures DictsFrom(text, i, done, isOpen, current) ==
            if isOpen then DictsFrom(text, i + |PairText(w)|, done, true, current + [w.pair])
            else DictsFrom(text, i + |PairText(w)|, done + [[w.pair]], false, [])
  {
    var next := i + |PairText(w)| - |w.after|;
    PairReadBack(text, i, w);
    WrittenParts(w);
    hide At, PairAt, PairText, IsWordChar, IsSpaces;
    if isOpen {
      SpacesSkipped(text, next, w.after, done, true, current + [w.pair]);
    } else {
      SpacesSkipped(text, next, w.after, done + [[w.pair]], false, []);
    }
    WordIsNoBracket();
  }

  lemma WordIsNoBracket()
    ensures !IsWordChar('(') && !IsWordChar(')')
  {
  }

  lemma PairsMore(pairs: seq<Written>)
    requires AllWritten(pairs)
    ensures pairs == [] ==> PairsText(pairs) == "" && PairsOf(pairs) == []
    ensures pairs != [] ==>
              && IsWritten(pairs[0]) && AllWritten(pairs[1..])
              && PairsText(pairs) == PairText(pairs[0]) + PairsText(pairs[1..])
              && PairsOf(pairs) != [] && PairsOf(pairs)[0] == pairs[0].pair && PairsOf(pairs)[1..] == PairsOf(pairs[1..])
  {
  }

  lemma {:induction false} PairsReadBack(text: string, i: nat, pairs: seq<Written>, done: seq<Dict>, current: Dict)
    requires AllWritten(pairs) && At(text, i, PairsText(pairs))
    ensures i + |PairsText(pairs)| <= |text|
    ensures DictsFrom(text, i, done, true, current) ==
            DictsFrom(text, i + |PairsText(pairs)|, done, true, current + PairsOf(pairs))
    decreases |pairs|
  {
    hide *;
    AtSlice(text, i, PairsText(pairs));
    PairsMore(pairs);
    FirstAcross(current, PairsOf(pairs));
    if pairs != [] {
      var first, rest := PairText(pairs[0]), PairsText(pairs[1..]);
      AtParts(text, i, first, rest);
      PairStep(text, i, pairs[0], done, true, current);
      PairsReadBack(text, i + |first|, pairs[1..], done, current + [pairs[0].pair]);
    }
  }

  lemma NoneBefore<T>(list: seq<T>)
    ensures [] + list == list
  {
  }

  lemma BracketStep(text: string, i: nat, c: char, done: seq<Dict>, current: Dict)
    requires At(text, i, [c])
    ensures i < |text|
    ensures c == '(' ==> DictsFrom(text, i, done, false, current) == DictsFrom(text, i + 1, done, true, [])
    ensures c == ')' ==> DictsFrom(text, i, done, true, current) == DictsFrom(text, i + 1, done + [current], false, [])
  {
    AtChar(text, i, [c], 0);
  }

  lemma GroupReadBack(text: string, i: nat, lead: string, pairs: seq<Written>, after: string, done: seq<Dict>)
    requires AllWritten(pairs) && IsSpaces(lead) && IsSpaces(after)
    requires At(text, i, ['('] + (lead + (PairsText(pairs) + ([')'] + after))))
    ensures var end := i + 1 + |lead| + |PairsText(pairs)| + 1 + |after|;
            end <= |text| && DictsFrom(text, i, done, false, []) == DictsFrom(text, end, done + [PairsOf(pairs)], false, [])
  {
    hide *;
    var body, dict := PairsText(pairs), PairsOf(pairs);
    var b := i + 1 + |lead|;
    var c := b + |body|;
    AtParts(text, i, ['('], lead + (body + ([')'] + after)));
    AtParts(text, i + 1, lead, body + ([')'] + after));
    AtParts(text, b, body, [')'] + after);
    AtParts(text, c, [')'], after);
    BracketStep(text, i, '(', done, []);
    SpacesSkipped(text, i + 1, lead, done, true, []);
    PairsReadBack(text, b, pairs, done, []);
    NoneBefore(dict);
    BracketStep(text, c, ')', done, dict);
    SpacesSkipped(text, c + 1, after, done + [dict], false, []);
  }

  lemma ItemReadBack(text: string, i: nat, item: Item, done: seq<Dict>)
    requires IsItem(item) && At(text, i, ItemText(item))
    ensures i + |ItemText(item)| <= |text|
    ensures DictsFrom(text, i, done, false, []) ==
            DictsFrom(text, i + |ItemText(item)|, done + [DictOf(item)], false, [])
  {
    hide At, DictsFrom, PairText, PairsText, IsWritten, AllWritten, IsSpaces, PairsOf;
    match item
    case Lone(written) => PairStep(text, i, written, done, false, []);
    case Group(lead, pairs, after) => GroupReadBack(text, i, lead, pairs, after, done);
  }

  lemma AnswerMore(items: seq<Item>)
    requires AllItems(items)
    ensures items == [] ==> ItemsText(items) == "" && Meaning(items) == []
    ensures items != [] ==>
              && IsItem(items[0]) && AllItems(items[1..])
              && ItemsText(items) == ItemText(items[0]) + ItemsText(items[1..])
              && Meaning(items) != [] && Meaning(items)[0] == DictOf(items[0]) && Meaning(items)[1..] == Meaning(items[1..])
  {
  }

  lemma {:induction false} ItemsReadBack(text: string, i: nat, items: seq<Item>, done: seq<Dict>)
    requires AllItems(items) && At(text, i, ItemsText(items))
    ensures i + |ItemsText(items)| <= |text|
    ensures DictsFrom(text, i, done, false, []) ==
            DictsFrom(text, i + |ItemsText(items)|, done + Meaning(items), false, [])
    decreases |items|
  {
    hide *;
    AnswerMore(items);
    AtSlice(text, i, ItemsText(items));
    FirstAcross(done, Meaning(items));
    if items != [] {
      var first := ItemText(items[0]);
      AtParts(text, i, first, ItemsText(items[1..]));
      ItemReadBack(text, i, items[0], done);
      ItemsReadBack(text, i + |first|, items[1..], done + [DictOf(items[0])]);
    }
  }

  lemma TailReadBack(text: string, e: nat, done: seq<Dict>)
    requires At(text, e, ")\n") && e + 2 == |text|
    ensures DictsFrom(text, e, done, false, []) == done
  {
    AtChar(text, e, ")\n", 0);
    AtChar(text, e, ")\n", 1);
    assert DictsFrom(text, e, done, false, []) == DictsFrom(text, e + 1, done, false, []);
    assert DictsFrom(text, e + 2, done, false, []) == done;
  }

  lemma WholeText(lead: string, items: seq<Item>)
    requires IsAnswer(lead, items)
    ensures var text, body := AnswerText(lead, items), ItemsText(items);
            && At(text, 0, ['('] + (lead + (body + ")\n"))) && |text| == 1 + |lead| + |body| + 2
            && Dicts(text) == DictsFrom(text, 1, [], false, [])
            && IsSpaces(lead) && AllItems(items)
  {
    var text, body := AnswerText(lead, items), ItemsText(items);
    hide ItemsText, DictsFrom, IsSpaces, AllItems;
    assert text == ['('] + (lead + (body + ")\n")) && text[0] == '(';
  }

  /** Parsing undoes encoding: the records come back in order, values verbatim with their escapes. */
  lemma ParserUndoesEncoder(lead: string, items: seq<Item>)
    requires IsAnswer(lead, items)
    ensures Dicts(AnswerText(lead, items)) == Meaning(items)
  {
    hide *;
    var text, body := AnswerText(lead, items), ItemsText(items);
    WholeText(lead, items);
    AtParts(text, 0, ['('], lead + (body + ")\n"));
    AtParts(text, 1, lead, body + ")\n");
    AtParts(text, 1 + |lead|, body, ")\n");
    SpacesSkipped(text, 1, lead, [], false, []);
    ItemsReadBack(text, 1 + |lead|, items, []);
    NoneBefore(Meaning(items));
    TailReadBack(text, 1 + |lead| + |body|, Meaning(items));
  }
}
