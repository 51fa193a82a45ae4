/** The loops that put lists of strings and byte arrays into a reply. */
module ReplyLists {
  import opened Lists
  import opened NulCodec
  import opened ReplyBuilder

  function Strs(texts: seq<string>): (r: seq<Variant>)
    ensures |r| == |texts| && forall i | 0 <= i < |r| :: r[i] == Str(texts[i])
  {
    seq(|texts|, i requires 0 <= i < |texts| => Str(texts[i]))
  }

  function StringsValue(texts: seq<string>): Variant {
    List("s", Strs(texts))
  }

  function Bytes(text: string): (r: seq<Variant>)
    ensures |r| == |text| && forall i | 0 <= i < |r| :: r[i] == Byte(text[i])
  {
    seq(|text|, i requires 0 <= i < |text| => Byte(text[i]))
  }

  function BytesValue(text: string): Variant {
    List("y", Bytes(text))
  }

  function BytesValues(arrays: seq<string>): (r: seq<Variant>)
    ensures |r| == |arrays| && forall i | 0 <= i < |r| :: r[i] == BytesValue(arrays[i])
  {
    seq(|arrays|, i requires 0 <= i < |arrays| => BytesValue(arrays[i]))
  }

  function ByteArraysValue(arrays: seq<string>): Variant {
    List("ay", BytesValues(arrays))
  }

  lemma StringsType(texts: seq<string>)
    ensures WellTyped(StringsValue(texts)) && TypeText(StringsValue(texts)) == "as"
  {
    assert "a" + "s" == "as";
  }

  lemma BytesType(text: string)
    ensures WellTyped(BytesValue(text)) && TypeText(BytesValue(text)) == "ay"
  {
    assert "a" + "y" == "ay";
  }

  lemma ByteArraysType(arrays: seq<string>)
    ensures WellTyped(ByteArraysValue(arrays)) && TypeText(ByteArraysValue(arrays)) == "aay"
  {
    assert "a" + "ay" == "aay";
    forall i | 0 <= i < |arrays|
      ensures WellTyped(BytesValue(arrays[i])) && TypeText(BytesValue(arrays[i])) == "ay"
    {
      BytesType(arrays[i]);
    }
  }

  method AddStrings(b: Builder, texts: seq<string>)
    requires b.levels == []
    modifies b
    ensures b.levels == [] && b.fields == old(b.fields) + [StringsValue(texts)]
  {
    b.Open("s");
    for i := 0 to |texts|
      invariant b.fields == old(b.fields) && b.levels == [Level("s", Strs(texts[..i]))]
    {
      b.Add(Str(texts[i]));
      assert Strs(texts[..i + 1]) == Strs(texts[..i]) + [Str(texts[i])];
    }
    assert texts[..|texts|] == texts;
    b.Close();
  }

  method AddBytes(b: Builder, text: string)
    requires b.levels == []
    modifies b
    ensures b.levels == [] && b.fields == old(b.fields) + [BytesValue(text)]
  {
    b.Open("y");
    for i := 0 to |text|
      invariant b.fields == old(b.fields) && b.levels == [Level("y", Bytes(text[..i]))]
    {
      b.Add(Byte(text[i]));
      assert Bytes(text[..i + 1]) == Bytes(text[..i]) + [Byte(text[i])];
    }
    assert text[..|text|] == text;
    b.Close();
  }

  /** A NUL ends the array read so far, which may be empty. */
  lemma ArrayEnds(buf: string, i: nat, done: seq<string>, cur: string)
    requires i < |buf| && buf[i] == '\0' && NulFree(cur) && Decode(buf) == done + Decode(cur + buf[i..])
    ensures Decode(buf) == (done + [cur]) + Decode("" + buf[i + 1..])
    ensures BytesValues(done + [cur]) == BytesValues(done) + [BytesValue(cur)]
  {
    hide *;
    var rest := buf[i + 1..];
    DecodeFirst(cur, rest);
    assert cur + buf[i..] == cur + "\0" + rest && "" + rest == rest;
    Regroup(done, [cur], Decode(rest));
    MoreBytesValues(done, cur);
  }

  lemma MoreBytesValues(done: seq<string>, cur: string)
    ensures BytesValues(done + [cur]) == BytesValues(done) + [BytesValue(cur)]
  {
    hide BytesValue;
  }

  lemma ArrayGrows(buf: string, i: nat, done: seq<string>, cur: string)
    requires i < |buf| && buf[i] != '\0' && NulFree(cur) && Decode(buf) == done + Decode(cur + buf[i..])
    ensures Decode(buf) == done + Decode(cur + [buf[i]] + buf[i + 1..]) && NulFree(cur + [buf[i]])
    ensures Bytes(cur + [buf[i]]) == Bytes(cur) + [Byte(buf[i])]
  {
    hide Decode;
    assert cur + [buf[i]] + buf[i + 1..] == cur + buf[i..];
  }

  lemma ArraysEnd(buf: string, done: seq<string>, cur: string)
    requires NulFree(cur) && Decode(buf) == done + Decode(cur + buf[|buf|..])
    ensures Decode(buf) == if cur == "" then done else done + [cur]
    ensures BytesValues(done + [cur]) == BytesValues(done) + [BytesValue(cur)]
  {
    assert cur + buf[|buf|..] == cur && done + [] == done;
    if cur != "" {
      DecodeLast(cur);
    }
  }

  /** The byte array loop: a NUL closes the open array, any other byte goes into one. */
  method AddByteArrays(b: Builder, buf: string)
    requires b.levels == []
    modifies b
    ensures b.levels == [] && b.fields == old(b.fields) + [ByteArraysValue(Decode(buf))]
  {
    hide Decode, NulFree, Bytes, BytesValues;
    b.Open("ay");
    var isOpen := false;
    ghost var done: seq<string> := [];
    ghost var cur := "";
    NothingYet(buf);
    for i := 0 to |buf|
      invariant b.fields == old(b.fields) && NulFree(cur)
      invariant b.levels == [Level("ay", BytesValues(done))] + if isOpen then [Level("y", Bytes(cur))] else []
      invariant isOpen <==> cur != ""
      invariant Decode(buf) == done + Decode(cur + buf[i..])
    {
      if !isOpen {
        b.Open("y");
        isOpen := true;
      }
      if buf[i] == '\0' {
        ArrayEnds(buf, i, done, cur);
        b.Close();
        isOpen := false;
        done, cur := done + [cur], "";
        continue;
      }
      b.Add(Byte(buf[i]));
      ArrayGrows(buf, i, done, cur);
      cur := cur + [buf[i]];
    }
    ArraysEnd(buf, done, cur);
    if isOpen {
      b.Close();
      isOpen := false;
    }
    b.Close();
  }

  lemma NothingYet(buf: string)
    ensures BytesValues([]) == [] && Bytes("") == [] && NulFree("")
    ensures Decode(buf) == [] + Decode("" + buf[0..])
  {
    assert "" + buf[0..] == buf;
  }

  /** The string array loop: a pointer that skips a string and its NUL, or a lone NUL. */
  method AddStringArray(b: Builder, buf: string)
    requires b.levels == []
    modifies b
    ensures b.levels == [] && b.fields == old(b.fields) + [StringsValue(NonEmpty(Decode(buf)))]
  {
    hide Decode, NonEmpty, Strs, CString, Strlen, From, Head;
    b.Open("s");
    var str := 0;
    ghost var done: seq<string> := [];
    NoStringYet(buf);
    while str < |buf|
      invariant b.fields == old(b.fields) && b.levels == [Level("s", Strs(done))]
      invariant NonEmpty(Decode(buf)) == done + NonEmpty(Decode(From(buf, str)))
    {
      var rest := buf[str..];
      StepDecoded(buf, str, done);
      if Strlen(rest) != 0 {
        b.Add(Str(CString(rest)));
        str := str + Strlen(rest);
      }
      str := str + 1;
      HeadAdded(done, rest);
      done := done + Head(rest);
    }
    NoneLeft(buf, str, done);
    b.Close();
  }

  lemma NoStringYet(buf: string)
    ensures Strs([]) == [] && NonEmpty(Decode(buf)) == [] + NonEmpty(Decode(From(buf, 0)))
  {
    assert From(buf, 0) == buf;
  }

  lemma HeadAdded(done: seq<string>, rest: string)
    ensures Strlen(rest) != 0 ==> Strs(done + Head(rest)) == Strs(done) + [Str(CString(rest))]
    ensures Strlen(rest) == 0 ==> Strs(done + Head(rest)) == Strs(done)
  {
  }

  lemma NoneLeft(buf: string, str: nat, done: seq<string>)
    requires str >= |buf|
    ensures done + NonEmpty(Decode(From(buf, str))) == done
  {
  }

  /** What a pointer that may have passed the end still has before it. */
  function From(buf: string, i: nat): string {
    if i < |buf| then buf[i..] else ""
  }

  lemma FromFrom(buf: string, i: nat, k: nat)
    requires i < |buf|
    ensures From(buf[i..], k) == From(buf, i + k) && From(buf, i) == buf[i..]
  {
  }

  function Head(buf: string): seq<string> {
    if Strlen(buf) == 0 then [] else [CString(buf)]
  }

  lemma Splice<T>(all: seq<T>, done: seq<T>, rest: seq<T>, head: seq<T>, tail: seq<T>)
    requires all == done + rest && rest == head + tail
    ensures all == (done + head) + tail
  {
  }

  lemma StepDecoded(buf: string, str: nat, done: seq<string>)
    requires str < |buf| && NonEmpty(Decode(buf)) == done + NonEmpty(Decode(From(buf, str)))
    ensures var rest := buf[str..];
            NonEmpty(Decode(buf)) == (done + Head(rest)) + NonEmpty(Decode(From(buf, str + Strlen(rest) + 1)))
  {
    hide *;
    var rest := buf[str..];
    DecodeStep(rest);
    FromFrom(buf, str, Strlen(rest) + 1);
    Splice(NonEmpty(Decode(buf)), done, NonEmpty(Decode(rest)), Head(rest), NonEmpty(Decode(From(rest, Strlen(rest) + 1))));
  }

  /** What one turn of the string array loop takes off. */
  lemma DecodeStep(buf: string)
    requires buf != ""
    ensures NonEmpty(Decode(buf)) == Head(buf) + NonEmpty(Decode(From(buf, Strlen(buf) + 1)))
  {
    var k := Strlen(buf);
    if k == |buf| {
      assert Decode(buf) == [buf] && CString(buf) == buf;
      assert NonEmpty([buf]) == [buf] + NonEmpty([buf][1..]);
    } else {
      var rest := Decode(buf[k + 1..]);
      assert Decode(buf) == [buf[..k]] + rest;
      assert ([buf[..k]] + rest)[1..] == rest;
    }
  }
}
