/** Typed values and the builder that puts a reply together. */
module ReplyBuilder {
  import opened Lists

  datatype Variant = Str(text: string) | Byte(b: char) | Int32(i: int) | List(elem: string, items: seq<Variant>)

  function TypeText(v: Variant): string {
    match v
    case Str(_) => "s"
    case Byte(_) => "y"
    case Int32(_) => "i"
    case List(elem, _) => "a" + elem
  }

  function TypesText(values: seq<Variant>): string {
    if values == [] then "" else TypesText(values[..|values| - 1]) + TypeText(values[|values| - 1])
  }

  /** Every list holds what its type says. */
  predicate WellTyped(v: Variant) {
    v.List? ==> forall i | 0 <= i < |v.items| :: TypeText(v.items[i]) == v.elem && WellTyped(v.items[i])
  }

  /** A list that is open: the type of its elements and those added so far. */
  datatype Level = Level(elem: string, items: seq<Variant>)

  /** A builder of a tuple of the declared type; lists nest, and only the innermost one grows. */
  class Builder {
    const declared: string
    var fields: seq<Variant>
    var levels: seq<Level>

    constructor (declared: string)
      ensures this.declared == declared && fields == [] && levels == []
    {
      this.declared, fields, levels := declared, [], [];
    }

    /** Only a value of the right type goes into an open list. */
    predicate Fits(v: Variant)
      reads this
    {
      WellTyped(v) && (levels != [] ==> TypeText(v) == levels[|levels| - 1].elem)
    }

    /** The innermost open list. */
    function Innermost(): Variant
      requires levels != []
      reads this
    {
      var top := levels[|levels| - 1];
      List(top.elem, top.items)
    }

    method Open(elem: string)
      modifies this`levels
      ensures levels == old(levels) + [Level(elem, [])]
    {
      levels := levels + [Level(elem, [])];
    }

    method Add(v: Variant)
      requires Fits(v)
      modifies this
      ensures old(levels) == [] ==> fields == old(fields) + [v] && levels == []
      ensures old(levels) != [] ==> fields == old(fields) && levels == Grown(old(levels), v)
    {
      if levels == [] {
        fields := fields + [v];
      } else {
        levels := Grown(levels, v);
      }
    }

    method Close()
      requires levels != []
      requires WellTyped(Innermost()) && (|levels| > 1 ==> TypeText(Innermost()) == levels[|levels| - 2].elem)
      modifies this
      ensures old(|levels|) == 1 ==> levels == [] && fields == old(fields) + [old(Innermost())]
      ensures old(|levels|) > 1 ==> fields == old(fields)
      ensures old(|levels|) > 1 ==> levels == Grown(old(levels[..|levels| - 1]), old(Innermost()))
    {
      var v := Innermost();
      levels := levels[..|levels| - 1];
      Add(v);
    }

    /** The tuple; everything is closed and the fields are of the declared types. */
    method End() returns (values: seq<Variant>)
      requires levels == [] && declared == "(" + TypesText(fields) + ")"
      ensures values == fields
    {
      values := fields;
    }
  }

  function Grown(levels: seq<Level>, v: Variant): (r: seq<Level>)
    requires levels != []
    ensures |r| == |levels|
  {
    var top := levels[|levels| - 1];
    levels[|levels| - 1 := top.(items := top.items + [v])]
  }
}
