/**
  The reply of a finished call, the output arguments introspection publishes for its method, and
  their agreement.
 */
module ExecutorReply {
  import opened Options
  import opened Lists
  import opened NulCodec
  import opened ExecutorWorker
  import opened ExecutorRuns
  import opened ReplyBuilder
  import opened ReplyLists

  /** A parsed JSON value; `Scalar` stands for numbers, booleans and nulls. */
  datatype Json = Text(text: string) | Array(items: seq<Json>) | Object(members: map<string, Json>) | Scalar

  /** A reply with typed values, or an error. */
  datatype Reply = Value(declared: string, fields: seq<Variant>) | ExitStatus(code: int) | BadJson

  // ---------- names of JSON outputs ----------

  predicate IsArrayName(name: string) {
    |name| >= 2 && name[|name| - 2..] == "[]"
  }

  function BareName(name: string): string {
    if IsArrayName(name) then name[..|name| - 2] else name
  }

  function Member(obj: Json, name: string): Option<Json> {
    if obj.Object? && name in obj.members then Some(obj.members[name]) else None
  }

  /** A string as itself up to a NUL, anything else as an empty string. */
  function StringOf(j: Json): string {
    if j.Text? then CString(j.text) else ""
  }

  function StringsOf(items: seq<Json>): (r: seq<string>)
    ensures |r| == |items| && forall i | 0 <= i < |r| :: r[i] == StringOf(items[i])
  {
    seq(|items|, i requires 0 <= i < |items| => StringOf(items[i]))
  }

  /** What a name gets out of an object: a list of strings for an array name, else a string. */
  function Output(obj: Json, name: string): Variant {
    match Member(obj, BareName(name))
    case Some(Array(items)) => if IsArrayName(name) then StringsValue(StringsOf(items)) else Str("")
    case Some(value) => if IsArrayName(name) then StringsValue([""]) else Str(StringOf(value))
    case None => if IsArrayName(name) then StringsValue([""]) else Str("")
  }

  function Outputs(obj: Json, names: seq<string>): (r: seq<Variant>)
    ensures |r| == |names| && forall i | 0 <= i < |r| :: r[i] == Output(obj, names[i])
  {
    seq(|names|, i requires 0 <= i < |names| => Output(obj, names[i]))
  }

  // ---------- the reply, part by part ----------

  /** What was written to stdout: by JSON names, as an array of strings, of byte arrays, as bytes or as lines. */
  function StdoutPart(flags: Flags, names: seq<string>, bytes: string, lines: seq<string>, obj: Json): seq<Variant> {
    if flags.stdoutJson then Outputs(obj, names)
    else if flags.stdoutStringArray then [StringsValue(NonEmpty(Decode(bytes)))]
    else if flags.stdoutByteArrays then [ByteArraysValue(Decode(bytes))]
    else if flags.stdoutBytes then [BytesValue(bytes)]
    else if flags.stdoutStrings then [StringsValue(lines)]
    else []
  }

  function StderrPart(flags: Flags, lines: seq<string>): seq<Variant> {
    if flags.stderrStrings then [StringsValue(lines)] else []
  }

  function StatusPart(flags: Flags, status: int): seq<Variant> {
    if flags.exitStatus then [Int32(status)] else []
  }

  function Tuple(fields: seq<Variant>): Reply {
    Value("(" + TypesText(fields) + ")", fields)
  }

  /** The reply to a call, from its captured bytes or lines, in the order they were read. */
  function Compose(flags: Flags, names: seq<string>, bytes: string, lines: seq<string>, errors: seq<string>,
                   parse: string -> Option<Json>, status: int): Reply
  {
    if !flags.exitStatus && status != 0 then ExitStatus(status)
    else if flags.stdoutJson && parse(CString(bytes)).None? then BadJson
    else
      var obj := if flags.stdoutJson then parse(CString(bytes)).value else Scalar;
      Tuple(StdoutPart(flags, names, bytes, lines, obj) + StderrPart(flags, errors) + StatusPart(flags, status))
  }

  // ---------- what introspection publishes ----------

  function OutputType(name: string): string {
    if IsArrayName(name) then "as" else "s"
  }

  function OutputTypes(names: seq<string>): (r: seq<string>)
    ensures |r| == |names| && forall i | 0 <= i < |r| :: r[i] == OutputType(names[i])
  {
    seq(|names|, i requires 0 <= i < |names| => OutputType(names[i]))
  }

  function StdoutTypes(flags: Flags, names: seq<string>): seq<string> {
    if flags.stdoutJson then OutputTypes(names)
    else if flags.stdoutStringArray then ["as"]
    else if flags.stdoutByteArrays then ["aay"]
    else if flags.stdoutBytes then ["ay"]
    else if flags.stdoutStrings then ["as"]
    else []
  }

  /** The types of a method's output arguments. */
  function PublishedTypes(flags: Flags, names: seq<string>): seq<string> {
    StdoutTypes(flags, names) + (if flags.stderrStrings then ["as"] else []) + (if flags.exitStatus then ["i"] else [])
  }

  function Declared(flags: Flags, names: seq<string>): string {
    "(" + Concat(PublishedTypes(flags, names)) + ")"
  }

  function BareNames(names: seq<string>): (r: seq<string>)
    ensures |r| == |names| && forall i | 0 <= i < |r| :: r[i] == BareName(names[i])
  {
    seq(|names|, i requires 0 <= i < |names| => BareName(names[i]))
  }

  function StdoutNames(flags: Flags, names: seq<string>): seq<string> {
    if flags.stdoutJson then BareNames(names)
    else if flags.stdoutStringArray then ["stdout_string_array"]
    else if flags.stdoutByteArrays then ["stdout_byte_arrays"]
    else if flags.stdoutBytes then ["stdout_bytes"]
    else if flags.stdoutStrings then ["stdout_strings"]
    else []
  }

  /** The names of a method's output arguments. */
  function PublishedNames(flags: Flags, names: seq<string>): seq<string> {
    StdoutNames(flags, names) + (if flags.stderrStrings then ["stderr_strings"] else []) +
    (if flags.exitStatus then ["response"] else [])
  }

  datatype Arg = Arg(name: string, typ: string)

  /** The arguments published for JSON outputs. */
  method AddOutputArgs(names: seq<string>) returns (args: seq<Arg>)
    ensures |args| == |names|
    ensures forall i | 0 <= i < |names| :: args[i] == Arg(BareName(names[i]), OutputType(names[i]))
  {
    args := [];
    for i := 0 to |names|
      invariant |args| == i
      invariant forall k | 0 <= k < i :: args[k] == Arg(BareName(names[k]), OutputType(names[k]))
    {
      if IsArrayName(names[i]) {
        args := args + [Arg(names[i][..|names[i]| - 2], "as")];
      } else {
        args := args + [Arg(names[i], "s")];
      }
    }
  }

  /** These arguments, by name and type. */
  predicate Publishes(args: seq<Arg>, names: seq<string>, types: seq<string>) {
    |args| == |names| == |types| && forall i | 0 <= i < |args| :: args[i] == Arg(names[i], types[i])
  }

  method IntrospectStdout(flags: Flags, names: seq<string>) returns (args: seq<Arg>)
    ensures Publishes(args, StdoutNames(flags, names), StdoutTypes(flags, names))
  {
    args := [];
    if flags.stdoutJson {
      args := AddOutputArgs(names);
    } else if flags.stdoutStringArray {
      args := args + [Arg("stdout_string_array", "as")];
    } else if flags.stdoutByteArrays {
      args := args + [Arg("stdout_byte_arrays", "aay")];
    } else if flags.stdoutBytes {
      args := args + [Arg("stdout_bytes", "ay")];
    } else if flags.stdoutStrings {
      args := args + [Arg("stdout_strings", "as")];
    }
  }

  method Introspect(flags: Flags, names: seq<string>) returns (args: seq<Arg>)
    ensures Publishes(args, PublishedNames(flags, names), PublishedTypes(flags, names))
  {
    hide StdoutNames, StdoutTypes;
    args := IntrospectStdout(flags, names);
    if flags.stderrStrings {
      args := args + [Arg("stderr_strings", "as")];
    }
    if flags.exitStatus {
      args := args + [Arg("response", "i")];
    }
  }

  /** One by one, the values are of these types. */
  predicate Agree(types: seq<string>, fields: seq<Variant>) {
    |types| == |fields| && forall i | 0 <= i < |types| :: TypeText(fields[i]) == types[i] && WellTyped(fields[i])
  }

  lemma AgreeBoth(a: seq<string>, x: seq<Variant>, b: seq<string>, y: seq<Variant>)
    requires Agree(a, x) && Agree(b, y)
    ensures Agree(a + b, x + y)
  {
    hide TypeText, WellTyped;
    var types, fields := a + b, x + y;
    forall i | 0 <= i < |types|
      ensures TypeText(fields[i]) == types[i] && WellTyped(fields[i])
    {
      if i < |a| {
        assert types[i] == a[i] && fields[i] == x[i];
      } else {
        assert types[i] == b[i - |a|] && fields[i] == y[i - |a|];
      }
    }
  }

  lemma {:induction false} AgreeText(types: seq<string>, fields: seq<Variant>)
    requires Agree(types, fields)
    ensures TypesText(fields) == Concat(types)
    decreases |types|
  {
    if types != [] {
      AgreeText(types[..|types| - 1], fields[..|fields| - 1]);
    }
  }

  lemma OutputAgrees(obj: Json, name: string)
    ensures TypeText(Output(obj, name)) == OutputType(name) && WellTyped(Output(obj, name))
  {
    StringsType([""]);
    var value := Member(obj, BareName(name));
    if value.Some? && value.value.Array? {
      StringsType(StringsOf(value.value.items));
    }
  }

  lemma StdoutAgrees(flags: Flags, names: seq<string>, bytes: string, lines: seq<string>, obj: Json)
    ensures Agree(StdoutTypes(flags, names), StdoutPart(flags, names, bytes, lines, obj))
  {
    StringsType(NonEmpty(Decode(bytes)));
    ByteArraysType(Decode(bytes));
    BytesType(bytes);
    StringsType(lines);
    if flags.stdoutJson {
      forall i | 0 <= i < |names|
        ensures TypeText(Output(obj, names[i])) == OutputType(names[i]) && WellTyped(Output(obj, names[i]))
      {
        OutputAgrees(obj, names[i]);
      }
    }
    hide Output, OutputType, WellTyped, TypeText, StringsValue, ByteArraysValue, BytesValue;
  }

  lemma PartsAgree(flags: Flags, names: seq<string>, bytes: string, lines: seq<string>, errors: seq<string>, obj: Json,
                   status: int)
    ensures Agree(PublishedTypes(flags, names),
                  StdoutPart(flags, names, bytes, lines, obj) + StderrPart(flags, errors) + StatusPart(flags, status))
  {
    var types, part := StdoutTypes(flags, names), StdoutPart(flags, names, bytes, lines, obj);
    var more := if flags.stderrStrings then ["as"] else [];
    var last := if flags.exitStatus then ["i"] else [];
    StdoutAgrees(flags, names, bytes, lines, obj);
    StringsType(errors);
    assert Agree(more, StderrPart(flags, errors)) && Agree(last, StatusPart(flags, status));
    hide StdoutTypes, StdoutPart, Agree, StderrPart, StatusPart;
    AgreeBoth(types, part, more, StderrPart(flags, errors));
    AgreeBoth(types + more, part + StderrPart(flags, errors), last, StatusPart(flags, status));
  }

  /** For all flags, names and captured data, a reply that carries values carries exactly the published types. */
  lemma ReplyAsPublished(flags: Flags, names: seq<string>, bytes: string, lines: seq<string>, errors: seq<string>,
                         parse: string -> Option<Json>, status: int)
    ensures var reply := Compose(flags, names, bytes, lines, errors, parse, status);
            && (reply.Value? <==> (flags.exitStatus || status == 0) && (flags.stdoutJson ==> parse(CString(bytes)).Some?))
            && (reply.Value? ==> Agree(PublishedTypes(flags, names), reply.fields) &&
                                 reply.declared == Declared(flags, names))
  {
    hide Agree, PublishedTypes, StdoutPart, StderrPart, StatusPart, TypesText, Concat;
    var reply := Compose(flags, names, bytes, lines, errors, parse, status);
    if reply.Value? {
      var obj := if flags.stdoutJson then parse(CString(bytes)).value else Scalar;
      PartsAgree(flags, names, bytes, lines, errors, obj, status);
      AgreeText(PublishedTypes(flags, names), reply.fields);
    }
  }

  // ---------- the ladder ----------

  /** The type string of a reply with JSON outputs. */
  method MakeTypeString(names: seq<string>, stderrArray: bool, exitStatus: bool) returns (text: string)
    ensures text == Framed(Concat(OutputTypes(names)), stderrArray, exitStatus)
  {
    text := "(";
    for i := 0 to |names|
      invariant text == "(" + Concat(OutputTypes(names)[..i])
    {
      assert OutputTypes(names)[..i + 1][..i] == OutputTypes(names)[..i];
      if IsArrayName(names[i]) {
        text := text + "as";
      } else {
        text := text + "s";
      }
    }
    assert OutputTypes(names)[..|names|] == OutputTypes(names);
    if stderrArray {
      text := text + "as";
    }
    if exitStatus {
      text := text + "i";
    }
    text := text + ")";
  }

  /** Puts the strings of an array, or an empty string if there is none, into an open list. */
  method AddElements(b: Builder, value: Option<Json>) returns (ghost texts: seq<string>)
    requires b.levels == [Level("s", [])]
    modifies b
    ensures b.fields == old(b.fields) && b.levels == [Level("s", Strs(texts))]
    ensures texts == if value.Some? && value.value.Array? then StringsOf(value.value.items) else [""]
  {
    if value.Some? && value.value.Array? {
      var items := value.value.items;
      texts := StringsOf(items);
      for k := 0 to |items|
        invariant b.fields == old(b.fields) && b.levels == [Level("s", Strs(texts[..k]))]
      {
        b.Add(Str(StringOf(items[k])));
        assert Strs(texts[..k + 1]) == Strs(texts[..k]) + [Str(texts[k])];
      }
      assert texts[..|items|] == texts;
    } else {
      b.Add(Str(""));
      texts := [""];
      assert Strs(texts) == [] + [Str("")];
    }
  }

  /** Puts what one name gets into the reply. */
  method AddOutput(b: Builder, name: string, obj: Json)
    requires b.levels == []
    modifies b
    ensures b.levels == [] && b.fields == old(b.fields) + [Output(obj, name)]
  {
    if IsArrayName(name) {
      b.Open("s");
      ghost var texts := AddElements(b, Member(obj, name[..|name| - 2]));
      b.Close();
    } else {
      var value := Member(obj, name);
      if value.Some? {
        b.Add(Str(StringOf(value.value)));
      } else {
        b.Add(Str(""));
      }
    }
  }

  /** Puts the outputs of an object into the reply, one for each name. */
  method FillFromJson(b: Builder, names: seq<string>, obj: Json)
    requires b.levels == []
    modifies b
    ensures b.levels == [] && b.fields == old(b.fields) + Outputs(obj, names)
  {
    for i := 0 to |names|
      invariant b.levels == [] && b.fields == old(b.fields) + Outputs(obj, names)[..i]
    {
      AddOutput(b, names[i], obj);
      assert Outputs(obj, names)[..i + 1] == Outputs(obj, names)[..i] + [Output(obj, names[i])];
    }
    assert Outputs(obj, names)[..|names|] == Outputs(obj, names);
  }

  lemma ConcatOne(a: seq<string>, t: string)
    ensures Concat(a + [t]) == Concat(a) + t && Concat([t]) == t
  {
    assert (a + [t])[..|a|] == a && [t][..0] == [];
  }

  /** A tuple type around the type of the stdout part. */
  function Framed(part: string, stderrArray: bool, exitStatus: bool): string {
    "(" + part + (if stderrArray then "as" else "") + (if exitStatus then "i" else "") + ")"
  }

  lemma PublishedText(flags: Flags, names: seq<string>)
    ensures Declared(flags, names) == Framed(Concat(StdoutTypes(flags, names)), flags.stderrStrings, flags.exitStatus)
  {
    hide StdoutTypes, Concat;
    var types := StdoutTypes(flags, names);
    ConcatOne(types, "as");
    var more := if flags.stderrStrings then types + ["as"] else types;
    assert types + [] == types && Concat(types) + "" == Concat(types);
    ConcatOne(more, "i");
    assert more + [] == more && Concat(more) + "" == Concat(more);
    assert PublishedTypes(flags, names) == more + if flags.exitStatus then ["i"] else [];
  }

  const BYTE_ARRAYS_AND_ARRAY := "(aayas)"
  const BYTE_ARRAYS_AND_ARRAY_I := "(aayasi)"
  const BYTE_ARRAYS_ONLY := "(aay)"
  const BYTE_ARRAYS_ONLY_I := "(aayi)"
  const TWO_ARRAYS := "(asas)"
  const TWO_ARRAYS_I := "(asasi)"
  const BYTES_AND_ARRAY := "(ayas)"
  const BYTES_AND_ARRAY_I := "(ayasi)"
  const ARRAY_ONLY := "(as)"
  const ARRAY_ONLY_I := "(asi)"
  const BYTES_ONLY := "(ay)"
  const BYTES_ONLY_I := "(ayi)"
  const EXIT_STATUS_ONLY := "(i)"
  const EMPTY := "()"

  /** Which type string the flags select when there are no JSON outputs. */
  function LadderType(flags: Flags): string {
    if flags.stdoutStringArray && flags.stderrStrings then if flags.exitStatus then TWO_ARRAYS_I else TWO_ARRAYS
    else if flags.stdoutStringArray then if flags.exitStatus then ARRAY_ONLY_I else ARRAY_ONLY
    else if flags.stdoutByteArrays && flags.stderrStrings then
      if flags.exitStatus then BYTE_ARRAYS_AND_ARRAY_I else BYTE_ARRAYS_AND_ARRAY
    else if flags.stdoutByteArrays then if flags.exitStatus then BYTE_ARRAYS_ONLY_I else BYTE_ARRAYS_ONLY
    else if flags.stdoutBytes && flags.stderrStrings then if flags.exitStatus then BYTES_AND_ARRAY_I else BYTES_AND_ARRAY
    else if flags.stdoutBytes then if flags.exitStatus then BYTES_ONLY_I else BYTES_ONLY
    else if flags.stderrStrings && flags.stdoutStrings then if flags.exitStatus then TWO_ARRAYS_I else TWO_ARRAYS
    else if flags.stdoutStrings then if flags.exitStatus then ARRAY_ONLY_I else ARRAY_ONLY
    else if flags.stderrStrings then if flags.exitStatus then ARRAY_ONLY_I else ARRAY_ONLY
    else if flags.exitStatus then EXIT_STATUS_ONLY
    else EMPTY
  }

  lemma FramedArray()
    ensures Framed("as", true, true) == TWO_ARRAYS_I && Framed("as", true, false) == TWO_ARRAYS
    ensures Framed("as", false, true) == ARRAY_ONLY_I && Framed("as", false, false) == ARRAY_ONLY
  {
  }

  lemma FramedByteArrays()
    ensures Framed("aay", true, true) == BYTE_ARRAYS_AND_ARRAY_I && Framed("aay", true, false) == BYTE_ARRAYS_AND_ARRAY
    ensures Framed("aay", false, true) == BYTE_ARRAYS_ONLY_I && Framed("aay", false, false) == BYTE_ARRAYS_ONLY
  {
  }

  lemma FramedBytes()
    ensures Framed("ay", true, true) == BYTES_AND_ARRAY_I && Framed("ay", true, false) == BYTES_AND_ARRAY
    ensures Framed("ay", false, true) == BYTES_ONLY_I && Framed("ay", false, false) == BYTES_ONLY
  {
  }

  lemma FramedNothing()
    ensures Framed("", true, true) == ARRAY_ONLY_I && Framed("", true, false) == ARRAY_ONLY
    ensures Framed("", false, true) == EXIT_STATUS_ONLY && Framed("", false, false) == EMPTY
  {
  }

  /** The type strings the ladder picks are the published types. */
  lemma LadderTypePublished(flags: Flags, names: seq<string>)
    requires !flags.stdoutJson
    ensures LadderType(flags) == Declared(flags, names)
  {
    PublishedText(flags, names);
    ConcatOne([], "as");
    ConcatOne([], "ay");
    ConcatOne([], "aay");
    FramedArray();
    FramedByteArrays();
    FramedBytes();
    FramedNothing();
    hide Framed, Declared;
  }

  lemma JsonTypePublished(flags: Flags, names: seq<string>)
    requires flags.stdoutJson
    ensures Framed(Concat(OutputTypes(names)), flags.stderrStrings, flags.exitStatus) == Declared(flags, names)
  {
    PublishedText(flags, names);
    hide PublishedTypes, Concat, OutputTypes;
  }

  /** The branches of the ladder; `ok` is false when the output is not JSON. */
  method ClimbLadder(flags: Flags, names: seq<string>, out: StreamData, err: StreamData, parse: string -> Option<Json>)
    returns (b: Builder, ok: bool, ghost obj: Json)
    requires out != err
    modifies out`lines, err`lines
    ensures fresh(b) && b.levels == []
    ensures ok <==> !(flags.stdoutJson && parse(CString(out.bytes)).None?)
    ensures ok ==> b.declared == Declared(flags, names)
    ensures ok && flags.stdoutJson ==> parse(CString(out.bytes)) == Some(obj)
    ensures ok ==> b.fields == StdoutPart(flags, names, out.bytes, Reversed(old(out.lines)), obj) +
                               StderrPart(flags, Reversed(old(err.lines)))
  {
    hide Declared, Reversed, Outputs, OutputTypes, StringsValue, ByteArraysValue, BytesValue, Decode, NonEmpty, Framed,
         CString, Concat;
    ok, obj := true, Scalar;
    if flags.stdoutJson && flags.stderrStrings {
      var declared := MakeTypeString(names, true, flags.exitStatus);
      JsonTypePublished(flags, names);
      b := new Builder(declared);
      ok, obj := ParseAndFill(b, names, out.bytes, parse);
      if !ok {
        return;
      }
      err.lines := Reversed(err.lines);
      AddStrings(b, err.lines);
    } else if flags.stdoutJson {
      var declared := MakeTypeString(names, false, flags.exitStatus);
      JsonTypePublished(flags, names);
      b := new Builder(declared);
      ok, obj := ParseAndFill(b, names, out.bytes, parse);
      if !ok {
        return;
      }
    } else if flags.stdoutStringArray && flags.stderrStrings {
      b := new Builder(if flags.exitStatus then TWO_ARRAYS_I else TWO_ARRAYS);
      AddStringArray(b, out.bytes);
      err.lines := Reversed(err.lines);
      AddStrings(b, err.lines);
    } else if flags.stdoutStringArray {
      b := new Builder(if flags.exitStatus then ARRAY_ONLY_I else ARRAY_ONLY);
      AddStringArray(b, out.bytes);
    } else if flags.stdoutByteArrays && flags.stderrStrings {
      err.lines := Reversed(err.lines);
      b := new Builder(if flags.exitStatus then BYTE_ARRAYS_AND_ARRAY_I else BYTE_ARRAYS_AND_ARRAY);
      AddByteArrays(b, out.bytes);
      AddStrings(b, err.lines);
    } else if flags.stdoutByteArrays {
      b := new Builder(if flags.exitStatus then BYTE_ARRAYS_ONLY_I else BYTE_ARRAYS_ONLY);
      AddByteArrays(b, out.bytes);
    } else if flags.stdoutBytes && flags.stderrStrings {
      err.lines := Reversed(err.lines);
      b := new Builder(if flags.exitStatus then BYTES_AND_ARRAY_I else BYTES_AND_ARRAY);
      AddBytes(b, out.bytes);
      AddStrings(b, err.lines);
    } else if flags.stdoutBytes {
      b := new Builder(if flags.exitStatus then BYTES_ONLY_I else BYTES_ONLY);
      AddBytes(b, out.bytes);
    } else if flags.stderrStrings && flags.stdoutStrings {
      err.lines := Reversed(err.lines);
      out.lines := Reversed(out.lines);
      b := new Builder(if flags.exitStatus then TWO_ARRAYS_I else TWO_ARRAYS);
      AddStrings(b, out.lines);
      AddStrings(b, err.lines);
    } else if flags.stdoutStrings {
      out.lines := Reversed(out.lines);
      b := new Builder(if flags.exitStatus then ARRAY_ONLY_I else ARRAY_ONLY);
      AddStrings(b, out.lines);
    } else if flags.stderrStrings {
      err.lines := Reversed(err.lines);
      b := new Builder(if flags.exitStatus then ARRAY_ONLY_I else ARRAY_ONLY);
      AddStrings(b, err.lines);
    } else if flags.exitStatus {
      b := new Builder(EXIT_STATUS_ONLY);
    } else {
      b := new Builder(EMPTY);
    }
    if !flags.stdoutJson {
      assert b.declared == LadderType(flags);
      LadderTypePublished(flags, names);
    }
  }

  method ParseAndFill(b: Builder, names: seq<string>, bytes: string, parse: string -> Option<Json>)
    returns (ok: bool, ghost obj: Json)
    requires b.levels == []
    modifies b
    ensures b.levels == [] && (ok <==> parse(CString(bytes)).Some?)
    ensures ok ==> parse(CString(bytes)) == Some(obj) && b.fields == old(b.fields) + Outputs(obj, names)
  {
    obj := Scalar;
    var parsed := parse(CString(bytes));
    if parsed.None? {
      return false, obj;
    }
    FillFromJson(b, names, parsed.value);
    return true, parsed.value;
  }

  /** Answers with an error or with the values the flags select, followed by the status if it is enabled. */
  method InvocationReturnValue(flags: Flags, names: seq<string>, out: StreamData, err: StreamData,
                               parse: string -> Option<Json>, status: int)
    returns (reply: Reply)
    requires out != err
    modifies out`lines, err`lines
    ensures reply == Compose(flags, names, old(out.bytes), Reversed(old(out.lines)), Reversed(old(err.lines)), parse, status)
  {
    hide Reversed, StdoutPart, Concat, Declared;
    if !flags.exitStatus && status != 0 {
      return ExitStatus(status);
    }
    ghost var lines, errors := Reversed(out.lines), Reversed(err.lines);
    var b, ok, obj := ClimbLadder(flags, names, out, err, parse);
    if !ok {
      return BadJson;
    }
    if flags.exitStatus {
      b.Add(Int32(status));
    }
    CompleteFields(flags, names, out.bytes, lines, errors, parse, status, obj, b.fields);
    var fields := b.End();
    return Value(b.declared, fields);
  }

  lemma CompleteFields(flags: Flags, names: seq<string>, bytes: string, lines: seq<string>, errors: seq<string>,
                       parse: string -> Option<Json>, status: int, obj: Json, fields: seq<Variant>)
    requires flags.exitStatus || status == 0
    requires flags.stdoutJson ==> parse(CString(bytes)) == Some(obj)
    requires fields == StdoutPart(flags, names, bytes, lines, obj) + StderrPart(flags, errors) + StatusPart(flags, status)
    ensures Compose(flags, names, bytes, lines, errors, parse, status) == Value(Declared(flags, names), fields)
    ensures Declared(flags, names) == "(" + TypesText(fields) + ")"
  {
    PartsAgree(flags, names, bytes, lines, errors, obj, status);
    AgreeText(PublishedTypes(flags, names), fields);
    hide PublishedTypes, TypesText, Concat, Agree, Outputs, CString;
  }
}
