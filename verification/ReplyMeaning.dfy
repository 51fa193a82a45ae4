/** What a reply carries, element by element, for every mode of the output and every JSON value. */
module ReplyMeaning {
  import opened Options
  import opened Lists
  import opened NulCodec
  import opened ExecutorWorker
  import opened ReplyBuilder
  import opened ReplyLists
  import opened ExecutorReply

  // ---------- names ----------

  /** A name stands for an array if and only if it is another name with brackets, which are left out of it. */
  lemma ArrayNameExact(name: string, bare: string)
    ensures IsArrayName(bare + "[]") && BareName(bare + "[]") == bare
    ensures IsArrayName(name) ==> name == BareName(name) + "[]"
    ensures !IsArrayName(name) ==> BareName(name) == name && name != bare + "[]"
  {
    var whole := bare + "[]";
    assert whole[|whole| - 2..] == "[]" && whole[..|whole| - 2] == bare;
    if IsArrayName(name) {
      assert name == name[..|name| - 2] + name[|name| - 2..];
    }
  }

  // ---------- JSON ----------

  /** A reply whose values come from this JSON object, or other value. */
  predicate FromJson(flags: Flags, bytes: string, parse: string -> Option<Json>, status: int, obj: Json) {
    flags.stdoutJson && (flags.exitStatus || status == 0) && parse(CString(bytes)) == Some(obj)
  }

  lemma FieldIsOutput(flags: Flags, names: seq<string>, bytes: string, lines: seq<string>, errors: seq<string>,
                      parse: string -> Option<Json>, status: int, obj: Json, k: nat)
    requires FromJson(flags, bytes, parse, status, obj) && k < |names|
    ensures var reply := Compose(flags, names, bytes, lines, errors, parse, status);
            reply.Value? && k < |reply.fields| && reply.fields[k] == Output(obj, names[k])
  {
    hide Output, TypesText, CString;
  }

  /** A text under a plain name is carried as it is. */
  lemma TextCarried(flags: Flags, names: seq<string>, bytes: string, lines: seq<string>, errors: seq<string>,
                    parse: string -> Option<Json>, status: int, members: map<string, Json>, k: nat, text: string)
    requires FromJson(flags, bytes, parse, status, Object(members)) && k < |names|
    requires forall bare :: names[k] != bare + "[]"
    requires names[k] in members && members[names[k]] == Text(text) && NulFree(text)
    ensures var reply := Compose(flags, names, bytes, lines, errors, parse, status);
            reply.Value? && k < |reply.fields| && reply.fields[k] == Str(text)
  {
    FieldIsOutput(flags, names, bytes, lines, errors, parse, status, Object(members), k);
    ArrayNameExact(names[k], "");
    UpToNul(text);
    hide Compose, CString;
  }

  /** What is missing under a plain name, or is no text, is carried as an empty one. */
  lemma NoTextCarried(flags: Flags, names: seq<string>, bytes: string, lines: seq<string>, errors: seq<string>,
                      parse: string -> Option<Json>, status: int, obj: Json, k: nat)
    requires FromJson(flags, bytes, parse, status, obj) && k < |names|
    requires forall bare :: names[k] != bare + "[]"
    requires !(obj.Object? && names[k] in obj.members && obj.members[names[k]].Text?)
    ensures var reply := Compose(flags, names, bytes, lines, errors, parse, status);
            reply.Value? && k < |reply.fields| && reply.fields[k] == Str("")
  {
    FieldIsOutput(flags, names, bytes, lines, errors, parse, status, obj, k);
    ArrayNameExact(names[k], "");
    hide Compose, CString;
  }

  /** An array under a name with brackets is carried element by element, in order; what is no text as an empty one. */
  lemma ArrayCarried(flags: Flags, names: seq<string>, bytes: string, lines: seq<string>, errors: seq<string>,
                     parse: string -> Option<Json>, status: int, members: map<string, Json>, k: nat, bare: string,
                     items: seq<Json>)
    requires FromJson(flags, bytes, parse, status, Object(members)) && k < |names| && names[k] == bare + "[]"
    requires bare in members && members[bare] == Array(items)
    ensures var reply := Compose(flags, names, bytes, lines, errors, parse, status);
            && reply.Value? && k < |reply.fields| && reply.fields[k].List?
            && reply.fields[k].elem == "s" && |reply.fields[k].items| == |items|
            && forall i | 0 <= i < |items| ::
                 && (items[i].Text? && NulFree(items[i].text) ==> reply.fields[k].items[i] == Str(items[i].text))
                 && (!items[i].Text? ==> reply.fields[k].items[i] == Str(""))
  {
    FieldIsOutput(flags, names, bytes, lines, errors, parse, status, Object(members), k);
    ArrayNameExact(names[k], bare);
    forall i | 0 <= i < |items| && items[i].Text? && NulFree(items[i].text)
      ensures CString(items[i].text) == items[i].text
    {
      UpToNul(items[i].text);
    }
    hide Compose, CString;
  }

  /** What is missing under a name with brackets, or is no array, is carried as one empty text. */
  lemma NoArrayCarried(flags: Flags, names: seq<string>, bytes: string, lines: seq<string>, errors: seq<string>,
                       parse: string -> Option<Json>, status: int, obj: Json, k: nat, bare: string)
    requires FromJson(flags, bytes, parse, status, obj) && k < |names| && names[k] == bare + "[]"
    requires !(obj.Object? && bare in obj.members && obj.members[bare].Array?)
    ensures var reply := Compose(flags, names, bytes, lines, errors, parse, status);
            reply.Value? && k < |reply.fields| && reply.fields[k] == List("s", [Str("")])
  {
    FieldIsOutput(flags, names, bytes, lines, errors, parse, status, obj, k);
    ArrayNameExact(names[k], bare);
    assert Strs([""]) == [Str("")];
    hide Compose, CString;
  }

  // ---------- the other modes, stderr and the status ----------

  /** A list of these texts, in order. */
  predicate ListsTexts(v: Variant, texts: seq<string>) {
    v.List? && v.elem == "s" && |v.items| == |texts| && forall i | 0 <= i < |texts| :: v.items[i] == Str(texts[i])
  }

  predicate ListsBytes(v: Variant, text: string) {
    v.List? && v.elem == "y" && |v.items| == |text| && forall i | 0 <= i < |text| :: v.items[i] == Byte(text[i])
  }

  predicate ListsArrays(v: Variant, arrays: seq<string>) {
    v.List? && v.elem == "ay" && |v.items| == |arrays| && forall i | 0 <= i < |arrays| :: ListsBytes(v.items[i], arrays[i])
  }

  /** The output by the first mode that is enabled: entries, byte arrays, bytes or lines. */
  predicate CarriesOutput(flags: Flags, v: Variant, bytes: string, lines: seq<string>) {
    if flags.stdoutStringArray then ListsTexts(v, NonEmpty(Decode(bytes)))
    else if flags.stdoutByteArrays then ListsArrays(v, Decode(bytes))
    else if flags.stdoutBytes then ListsBytes(v, bytes)
    else ListsTexts(v, lines)
  }

  /** How many fields the output takes. */
  function OutFields(flags: Flags, names: seq<string>): nat {
    if flags.stdoutJson then |names|
    else if flags.stdoutStringArray || flags.stdoutByteArrays || flags.stdoutBytes || flags.stdoutStrings then 1
    else 0
  }

  /**
    The first field carries the output by the first mode that is enabled, then come the errors if
    they are enabled, and last the status if it is.
   */
  lemma FieldsCarried(flags: Flags, names: seq<string>, bytes: string, lines: seq<string>, errors: seq<string>,
                      parse: string -> Option<Json>, status: int)
    requires (flags.exitStatus || status == 0) && (flags.stdoutJson ==> parse(CString(bytes)).Some?)
    ensures var reply := Compose(flags, names, bytes, lines, errors, parse, status);
            && reply.Value?
            && var fields, n := reply.fields, OutFields(flags, names);
            && |fields| == n + (if flags.stderrStrings then 1 else 0) + (if flags.exitStatus then 1 else 0)
            && (!flags.stdoutJson && n == 1 ==> CarriesOutput(flags, fields[0], bytes, lines))
            && (flags.stderrStrings ==> ListsTexts(fields[n], errors))
            && (flags.exitStatus ==> fields[|fields| - 1] == Int32(status))
  {
    TextsListed(lines);
    TextsListed(errors);
    TextsListed(NonEmpty(Decode(bytes)));
    BytesListed(bytes);
    ArraysListed(Decode(bytes));
    hide ListsTexts, ListsBytes, ListsArrays, StringsValue, BytesValue, ByteArraysValue, TypesText, CString, Decode, NonEmpty;
  }

  lemma TextsListed(texts: seq<string>)
    ensures ListsTexts(StringsValue(texts), texts)
  {
  }

  lemma BytesListed(text: string)
    ensures ListsBytes(BytesValue(text), text)
  {
  }

  lemma ArraysListed(arrays: seq<string>)
    ensures ListsArrays(ByteArraysValue(arrays), arrays)
  {
    forall i | 0 <= i < |arrays|
      ensures ListsBytes(BytesValue(arrays[i]), arrays[i])
    {
      BytesListed(arrays[i]);
    }
    hide ListsBytes, BytesValue;
  }

  /** A reply is an error exactly when the status may not be returned, or else JSON is wanted and cannot be parsed. */
  lemma ErrorsExact(flags: Flags, names: seq<string>, bytes: string, lines: seq<string>, errors: seq<string>,
                    parse: string -> Option<Json>, status: int)
    ensures var reply := Compose(flags, names, bytes, lines, errors, parse, status);
            && (reply.ExitStatus? <==> !flags.exitStatus && status != 0)
            && (reply.ExitStatus? ==> reply.code == status)
            && (reply.BadJson? <==> (flags.exitStatus || status == 0) && flags.stdoutJson && parse(CString(bytes)).None?)
  {
  }

  // ---------- entries of a string array ----------

  /** Leaving out the empty entries keeps the others, in order. */
  lemma {:induction false} NonEmptyTwo(a: seq<string>, b: seq<string>)
    ensures NonEmpty(a + b) == NonEmpty(a) + NonEmpty(b)
    ensures forall x :: NonEmpty([x]) == if x == "" then [] else [x]
    decreases |a|
  {
    forall x
      ensures NonEmpty([x]) == if x == "" then [] else [x]
    {
      assert [x][1..] == [];
    }
    if a == [] {
      assert a + b == b;
    } else {
      assert (a + b)[1..] == a[1..] + b;
      NonEmptyTwo(a[1..], b);
    }
  }

  /** A string array printed with a NUL behind each entry comes back as it is, but for its empty entries. */
  lemma StringArrayReadBack(flags: Flags, names: seq<string>, entries: seq<string>, lines: seq<string>, errors: seq<string>,
                            parse: string -> Option<Json>, status: int)
    requires !flags.stdoutJson && flags.stdoutStringArray && (flags.exitStatus || status == 0)
    requires forall i | 0 <= i < |entries| :: NulFree(entries[i]) && entries[i] != ""
    ensures var reply := Compose(flags, names, Encode(entries), lines, errors, parse, status);
            reply.Value? && reply.fields != [] && ListsTexts(reply.fields[0], entries)
  {
    DecodeUndoesEncode(entries);
    AllNonEmpty(entries);
    FieldsCarried(flags, names, Encode(entries), lines, errors, parse, status);
    hide Compose;
  }

  lemma {:induction false} AllNonEmpty(entries: seq<string>)
    requires forall i | 0 <= i < |entries| :: entries[i] != ""
    ensures NonEmpty(entries) == entries
  {
    if entries != [] {
      AllNonEmpty(entries[1..]);
    }
  }

  // ---------- published names ----------

  /** No two output arguments that are not JSON outputs share a name. */
  lemma NamesDistinct(flags: Flags, names: seq<string>)
    requires !flags.stdoutJson
    ensures var published := PublishedNames(flags, names);
            forall i, j | 0 <= i < j < |published| :: published[i] != published[j]
  {
  }

  /** The name of the output tells its mode. */
  lemma NameTellsMode(a: Flags, b: Flags, names: seq<string>)
    requires !a.stdoutJson && !b.stdoutJson && StdoutNames(a, names) == StdoutNames(b, names)
    ensures forall v, bytes, lines | OutFields(a, names) == 1 ::
              CarriesOutput(a, v, bytes, lines) <==> CarriesOutput(b, v, bytes, lines)
    ensures OutFields(a, names) == OutFields(b, names)
  {
    assert |"stdout_string_array"| == 19 && |"stdout_byte_arrays"| == 18 && |"stdout_bytes"| == 12 && |"stdout_strings"| == 14;
    hide ListsTexts, ListsArrays, ListsBytes;
  }
}
