/** The parser that turns the collected answer into an array of dictionaries. */
module BackendParser {
  import opened Characters
  import opened BackendAnswer

  /** An array of dictionaries under construction; at most one dictionary is open at a time. */
  class Builder {
    var dicts: seq<Dict>
    var isOpen: bool
    var current: Dict

    constructor ()
      ensures dicts == [] && !isOpen && current == []
    {
      dicts, isOpen, current := [], false, [];
    }

    method Open()
      requires !isOpen
      modifies this
      ensures isOpen && current == [] && dicts == old(dicts)
    {
      isOpen, current := true, [];
    }

    method Add(p: Pair)
      requires isOpen
      modifies this`current
      ensures current == old(current) + [p]
    {
      current := current + [p];
    }

    method Close()
      requires isOpen
      modifies this
      ensures !isOpen && dicts == old(dicts) + [old(current)] && current == []
    {
      dicts, isOpen, current := dicts + [current], false, [];
    }
  }

  // ---------- one pair ----------

  function SkipWord(text: string, i: nat): (r: nat)
    requires i <= |text|
    ensures i <= r <= |text|
    ensures CharAt(text, r) == '\0' || IsSpace(CharAt(text, r))
    ensures forall j | i <= j < r :: CharAt(text, j) != '\0' && !IsSpace(CharAt(text, j))
    decreases |text| - i
  {
    if CharAt(text, i) == '\0' || IsSpace(CharAt(text, i)) then i else SkipWord(text, i + 1)
  }

  function SkipSpaces(text: string, i: nat): (r: nat)
    requires i <= |text|
    ensures i <= r <= |text| && !IsSpace(CharAt(text, r))
    ensures forall j | i <= j < r :: IsSpace(CharAt(text, j))
    decreases |text| - i
  {
    if IsSpace(CharAt(text, i)) then SkipSpaces(text, i + 1) else i
  }

  predicate Closes(text: string, i: nat)
    requires 0 < i <= |text|
  {
    CharAt(text, i) == '"' && CharAt(text, i - 1) != '\\'
  }

  /** The closing quote of a value, or the NUL that ends the text before one. */
  function ValueEnd(text: string, i: nat): (r: nat)
    requires 0 < i <= |text|
    ensures i <= r <= |text| && (CharAt(text, r) == '\0' || Closes(text, r))
    ensures forall j | i <= j < r :: CharAt(text, j) != '\0' && !Closes(text, j)
    decreases |text| - i
  {
    if CharAt(text, i) == '\0' || Closes(text, i) then i else ValueEnd(text, i + 1)
  }

  /** The pair at `i` and the position behind it; what is missing of it reads as empty. */
  function PairAt(text: string, i: nat): (r: (Pair, nat))
    requires i < |text| && IsWordChar(text[i])
    ensures i < r.1 <= |text|
  {
    var e := SkipWord(text, i);
    var key := text[i..e];
    if CharAt(text, e) == '\0' then (Pair(key, ""), e) else
    var q := SkipSpaces(text, e);
    if CharAt(text, q) != '"' then (Pair(key, ""), q) else
    var z := ValueEnd(text, q + 1);
    if CharAt(text, z) == '\0' then (Pair(key, ""), z) else (Pair(key, text[q + 1..z]), z + 1)
  }

  lemma {:induction false} WordRuns(text: string, i: nat, e: nat)
    requires i <= e <= |text| && (CharAt(text, e) == '\0' || IsSpace(CharAt(text, e)))
    requires forall j | i <= j < e :: CharAt(text, j) != '\0' && !IsSpace(CharAt(text, j))
    ensures SkipWord(text, i) == e
    decreases e - i
  {
    if i < e {
      WordRuns(text, i + 1, e);
    }
  }

  lemma {:induction false} SpacesRun(text: string, e: nat, q: nat)
    requires e <= q <= |text| && !IsSpace(CharAt(text, q))
    requires forall j | e <= j < q :: IsSpace(CharAt(text, j))
    ensures SkipSpaces(text, e) == q
    decreases q - e
  {
    if e < q {
      SpacesRun(text, e + 1, q);
    }
  }

  /** The key runs up to a space or the end; with nothing behind it the value is empty. */
  lemma KeyAlone(text: string, i: nat, e: nat)
    requires i < e <= |text| && IsWordChar(text[i]) && CharAt(text, e) == '\0'
    requires forall j | i <= j < e :: CharAt(text, j) != '\0' && !IsSpace(CharAt(text, j))
    ensures PairAt(text, i) == (Pair(text[i..e], ""), e)
  {
    WordRuns(text, i, e);
  }

  /** Behind the key and spaces something else than a quote: the value is empty, and the parser goes on there. */
  lemma ValueMissing(text: string, i: nat, e: nat, q: nat)
    requires i < e < q <= |text| && IsWordChar(text[i]) && CharAt(text, q) != '"' && !IsSpace(CharAt(text, q))
    requires forall j | i <= j < e :: CharAt(text, j) != '\0' && !IsSpace(CharAt(text, j))
    requires forall j | e <= j < q :: IsSpace(CharAt(text, j))
    ensures PairAt(text, i) == (Pair(text[i..e], ""), q)
  {
    WordRuns(text, i, e);
    SpacesRun(text, e, q);
  }

  /** A value that is never closed: it reads as empty, and the parser stops at the end. */
  lemma ValueUnclosed(text: string, i: nat, e: nat, q: nat, z: nat)
    requires i < e < q < z <= |text| && IsWordChar(text[i]) && text[q] == '"' && CharAt(text, z) == '\0'
    requires forall j | i <= j < e :: CharAt(text, j) != '\0' && !IsSpace(CharAt(text, j))
    requires forall j | e <= j < q :: IsSpace(CharAt(text, j))
    requires forall j | q < j < z :: CharAt(text, j) != '\0' && (CharAt(text, j) == '"' ==> CharAt(text, j - 1) == '\\')
    ensures PairAt(text, i) == (Pair(text[i..e], ""), z)
  {
    WordRuns(text, i, e);
    SpacesRun(text, e, q);
    assert ValueEnd(text, q + 1) == z;
  }

  /** Reads one pair; the text is only ever read inside of its buffer. */
  method ReadPair(b: Builder, text: string, start: nat) returns (str: nat)
    requires b.isOpen && start < |text| && IsWordChar(text[start])
    modifies b`current
    ensures str == PairAt(text, start).1
    ensures b.current == old(b.current) + [PairAt(text, start).0]
  {
    str := start;
    while CharAt(text, str) != '\0' && !IsSpace(CharAt(text, str))
      invariant start <= str <= |text| && SkipWord(text, start) == SkipWord(text, str)
      decreases |text| - str
    {
      str := str + 1;
    }
    var key, value := text[start..str], "";
    if CharAt(text, str) != '\0' {
      ghost var e := str;
      while IsSpace(CharAt(text, str))
        invariant e <= str <= |text| && SkipSpaces(text, e) == SkipSpaces(text, str)
        decreases |text| - str
      {
        str := str + 1;
      }
      if CharAt(text, str) == '"' {
        str := str + 1;
        var tmp := str;
        while CharAt(text, str) != '\0'
          invariant tmp <= str <= |text| && ValueEnd(text, tmp) == ValueEnd(text, str)
          invariant value == ""
          decreases |text| - str
        {
          if Closes(text, str) {
            value := text[tmp..str];
            str := str + 1;
            break;
          }
          str := str + 1;
        }
      }
    }
    b.Add(Pair(key, value));
  }

  // ---------- the whole answer ----------

  function SkipBracket(text: string, i: nat): (r: nat)
    requires i <= |text|
    ensures i <= r <= |text|
    decreases |text| - i
  {
    if i == |text| then i else if text[i] == '(' then i + 1 else SkipBracket(text, i + 1)
  }

  /** What is built in all when `done` and `current` are built at position `i`. */
  function DictsFrom(text: string, i: nat, done: seq<Dict>, isOpen: bool, current: Dict): seq<Dict>
    requires i <= |text|
    decreases |text| - i
  {
    if i == |text| then if isOpen then done + [current] else done
    else if text[i] == '(' && !isOpen then DictsFrom(text, i + 1, done, true, [])
    else if text[i] == ')' && isOpen then DictsFrom(text, i + 1, done + [current], false, [])
    else if IsWordChar(text[i]) then
      var r := PairAt(text, i);
      if isOpen then DictsFrom(text, r.1, done, true, current + [r.0])
      else DictsFrom(text, r.1, done + [[r.0]], false, [])
    else DictsFrom(text, i + 1, done, isOpen, current)
  }

  function Dicts(text: string): seq<Dict> {
    DictsFrom(text, SkipBracket(text, 0), [], false, [])
  }

  /** What is neither a bracket that opens or closes a dictionary nor the start of a key is passed over. */
  lemma StrayPassed(text: string, i: nat, done: seq<Dict>, isOpen: bool, current: Dict)
    requires i < |text| && !IsWordChar(text[i]) && (text[i] == '(' ==> isOpen) && (text[i] == ')' ==> !isOpen)
    ensures DictsFrom(text, i, done, isOpen, current) == DictsFrom(text, i + 1, done, isOpen, current)
  {
  }

  /** A dictionary that is never closed ends with the text. */
  lemma UnclosedKept(text: string, done: seq<Dict>, current: Dict)
    ensures DictsFrom(text, |text|, done, true, current) == done + [current]
    ensures DictsFrom(text, |text|, done, false, current) == done
  {
  }

  /** All in front of the first bracket is passed over, and so is that bracket; without any there are no dictionaries. */
  lemma {:induction false} FirstBracket(text: string, i: nat, k: nat)
    requires i <= k <= |text| && (forall j | i <= j < k :: text[j] != '(') && (k < |text| ==> text[k] == '(')
    ensures SkipBracket(text, i) == if k < |text| then k + 1 else k
    ensures k == |text| && i == 0 ==> Dicts(text) == []
    decreases k - i
  {
    if i < k {
      FirstBracket(text, i + 1, k);
    }
  }

  /**
    Fills the builder from any text, well-formed or not. No dictionary is opened inside another
    and the last one is closed, which the builder's preconditions make sure of.
   */
  method AddData(b: Builder, text: string)
    requires !b.isOpen && b.current == [] && b.dicts == []
    modifies b
    ensures !b.isOpen && b.dicts == Dicts(text)
  {
    var str := 0;
    while str < |text|
      invariant str <= |text| && SkipBracket(text, 0) == SkipBracket(text, str)
      decreases |text| - str
    {
      if text[str] != '(' {
        str := str + 1;
      } else {
        str := str + 1;
        break;
      }
    }
    assert str == SkipBracket(text, 0);
    var single := true;
    while str < |text|
      invariant str <= |text| && single == !b.isOpen && (single ==> b.current == [])
      invariant DictsFrom(text, str, b.dicts, !single, b.current) == Dicts(text)
      decreases |text| - str
    {
      if text[str] == '(' && single {
        b.Open();
        single := false;
        str := str + 1;
      } else if text[str] == ')' && !single {
        b.Close();
        single := true;
        str := str + 1;
      } else if IsWordChar(text[str]) {
        if single {
          b.Open();
          ghost var pair := PairAt(text, str).0;
          str := ReadPair(b, text, str);
          assert b.current == [pair];
          b.Close();
        } else {
          str := ReadPair(b, text, str);
        }
      } else {
        str := str + 1;
      }
    }
    if !single {
      b.Close();
    }
  }
}
