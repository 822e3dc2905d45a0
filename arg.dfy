/** `py::Arg`: one argument slot of a call. The slot is either undefined (the
    caller omitted the argument) or bound to one Python object, is queried by
    shape predicates and read by typed conversions. */
module PyArg {
  import opened Results
  import Oint

  /** The closed vocabulary of shapes a bound Python object is classified by;
      `OtherObj` is every object none of the predicates recognises. Only the
      payloads some conversion reads are kept. */
  datatype Obj =
    | NoneObj
    | EllipsisObj
    | BoolObj(b: bool)
    | IntObj(n: int)
    | FloatObj
    | ListObj(items: seq<Obj>)
    | TupleObj(items: seq<Obj>)
    | DictObj
    | StrObj(s: string)
    | RangeObj
    | FrameObj
    | PandasFrameObj
    | PandasSeriesObj
    | NumpyArrayObj
    | OtherObj

  /** How a conversion fails. */
  datatype ArgError =
    | MissingArgument
    | TypeMismatch
    | Overflow(cause: Oint.OverflowError)
    | InvalidElement(index: nat)

  /** The call binding an argument belongs to (a back-reference only; its
      contents are not part of this model). */
  class PKArgs {
    constructor () {}
  }

  class Arg {
    var pos: nat
    var parent: PKArgs?
    /** `None` is the null `py::obj` of an undefined argument. */
    var pyobj: Option<Obj>
    /** The memo behind `name()`; empty until it is first computed. */
    var cachedName: string

    /** `Arg()`: an argument that is not yet bound to anything. */
    constructor ()
      ensures pos == 0 && parent == null && pyobj == None && cachedName == ""
      ensures IsUndefined()
    {
      pos, parent, pyobj, cachedName := 0, null, None, "";
    }

    /** `init(i, args)`: place the argument at position i of call binding args. */
    method Init(i: nat, args: PKArgs)
      modifies this
      ensures pos == i && parent == args
      ensures pyobj == old(pyobj) && cachedName == old(cachedName)
    {
      pos, parent := i, args;
    }

    /** `set(value)`: bind the argument to a value. */
    method Set(value: Obj)
      modifies this
      ensures pyobj == Some(value) && !IsUndefined()
      ensures pos == old(pos) && parent == old(parent) && cachedName == old(cachedName)
    {
      pyobj := Some(value);
    }

    //---- Type checks -----------------

    /** No value was bound: none of the other checks succeeds. */
    predicate IsUndefined()
      reads this
      ensures IsUndefined() ==> !IsNone() && !IsEllipsis() && !IsBool() && !IsInt() && !IsFloat() &&
                                !IsList() && !IsTuple() && !IsDict() && !IsString() && !IsRange() &&
                                !IsFrame() && !IsPandasFrame() && !IsPandasSeries() && !IsNumpyArray()
    {
      pyobj.None?
    }
    predicate IsNone() reads this ensures IsNone() ==> pyobj.Some? { pyobj == Some(NoneObj) }
    predicate IsEllipsis() reads this ensures IsEllipsis() ==> pyobj.Some? { pyobj == Some(EllipsisObj) }
    predicate IsBool() reads this ensures IsBool() ==> pyobj.Some? { pyobj.Some? && pyobj.value.BoolObj? }
    /** A bool is not an int here, although Python's bool subclasses int. */
    predicate IsInt() reads this ensures IsInt() ==> pyobj.Some? { pyobj.Some? && pyobj.value.IntObj? }
    predicate IsFloat() reads this ensures IsFloat() ==> pyobj.Some? { pyobj == Some(FloatObj) }
    predicate IsList() reads this ensures IsList() ==> pyobj.Some? { pyobj.Some? && pyobj.value.ListObj? }
    predicate IsTuple() reads this ensures IsTuple() ==> pyobj.Some? { pyobj.Some? && pyobj.value.TupleObj? }
    predicate IsDict() reads this ensures IsDict() ==> pyobj.Some? { pyobj == Some(DictObj) }
    predicate IsString() reads this ensures IsString() ==> pyobj.Some? { pyobj.Some? && pyobj.value.StrObj? }
    predicate IsRange() reads this ensures IsRange() ==> pyobj.Some? { pyobj == Some(RangeObj) }
    predicate IsFrame() reads this ensures IsFrame() ==> pyobj.Some? { pyobj == Some(FrameObj) }
    predicate IsPandasFrame() reads this ensures IsPandasFrame() ==> pyobj.Some? { pyobj == Some(PandasFrameObj) }
    predicate IsPandasSeries() reads this ensures IsPandasSeries() ==> pyobj.Some? { pyobj == Some(PandasSeriesObj) }
    predicate IsNumpyArray() reads this ensures IsNumpyArray() ==> pyobj.Some? { pyobj == Some(NumpyArrayObj) }

    predicate IsListOrTuple()
      reads this
      ensures IsListOrTuple() <==> IsList() || IsTuple()
    {
      pyobj.Some? && (pyobj.value.ListObj? || pyobj.value.TupleObj?)
    }

    /** `explicit operator bool`: a non-null object is bound. */
    predicate IsBound()
      reads this
      ensures IsBound() <==> !IsUndefined()
    {
      pyobj.Some?
    }

    //---- Type conversions ------------

    /** `to_bool_strict()`: only a Python bool converts; there is no truthiness. */
    function ToBoolStrict(): (r: Result<bool, ArgError>)
      reads this
      ensures r == Err(MissingArgument) <==> IsUndefined()
      ensures r.Ok? <==> IsBool()
      ensures r.Ok? ==> pyobj == Some(BoolObj(r.value))
      ensures r.Err? && !IsUndefined() ==> r.error == TypeMismatch
    {
      match pyobj
      case None => Err(MissingArgument)
      case Some(BoolObj(b)) => Ok(b)
      case Some(_) => Err(TypeMismatch)
    }

    /** The shared body of `to_int32_strict()` and `to_int64_strict()`: missing
        first, then the shape, then the strict narrowing of `py::oint`. */
    function ToIntStrict(w: Oint.Width, minIsValue: bool): (r: Result<int, ArgError>)
      reads this
      ensures r == Err(MissingArgument) <==> IsUndefined()
      ensures !IsUndefined() && !IsInt() ==> r == Err(TypeMismatch)
      ensures IsInt() ==> (r.Ok? <==> Oint.Fits(Oint.Target(w, minIsValue), pyobj.value.n))
      ensures IsInt() && r.Err? ==>
                r.error == Overflow(Oint.OverflowError(pyobj.value.n, Oint.Target(w, minIsValue)))
      ensures r.Ok? ==> IsInt() && r.value == pyobj.value.n
    {
      match pyobj
      case None => Err(MissingArgument)
      case Some(IntObj(n)) =>
        (match Oint.Value(Oint.Target(w, minIsValue), Oint.OInt(n))
         case Ok(v) => Ok(v)
         case Err(e) => Err(Overflow(e)))
      case Some(_) => Err(TypeMismatch)
    }

    /** `to_int32_strict()`. */
    function ToInt32Strict(minIsValue: bool): (r: Result<Oint.int32, ArgError>)
      reads this
      ensures r == Err(MissingArgument) <==> IsUndefined()
      ensures r.Ok? <==> IsInt() && Oint.Fits(Oint.Target(Oint.W32, minIsValue), pyobj.value.n)
      ensures r.Ok? ==> pyobj == Some(IntObj(r.value as int))
      ensures IsNone() ==> r == Err(TypeMismatch)
    {
      match ToIntStrict(Oint.W32, minIsValue)
      case Ok(v) => Ok(v as Oint.int32)
      case Err(e) => Err(e)
    }

    /** `to_int64_strict()`. */
    function ToInt64Strict(minIsValue: bool): (r: Result<Oint.int64, ArgError>)
      reads this
      ensures r == Err(MissingArgument) <==> IsUndefined()
      ensures r.Ok? <==> IsInt() && Oint.Fits(Oint.Target(Oint.W64, minIsValue), pyobj.value.n)
      ensures r.Ok? ==> pyobj == Some(IntObj(r.value as int))
      ensures IsNone() ==> r == Err(TypeMismatch)
    {
      match ToIntStrict(Oint.W64, minIsValue)
      case Ok(v) => Ok(v as Oint.int64)
      case Err(e) => Err(e)
    }

    /** `to_string()`. */
    function ToString(): (r: Result<string, ArgError>)
      reads this
      ensures r == Err(MissingArgument) <==> IsUndefined()
      ensures r.Ok? <==> IsString()
      ensures r.Ok? ==> pyobj == Some(StrObj(r.value))
    {
      match pyobj
      case None => Err(MissingArgument)
      case Some(StrObj(s)) => Ok(s)
      case Some(_) => Err(TypeMismatch)
    }

    /** `to_stringlist()`: a list or tuple whose elements are all strings. */
    function ToStringList(): (r: Result<seq<string>, ArgError>)
      reads this
      ensures r == Err(MissingArgument) <==> IsUndefined()
      ensures !IsUndefined() && !IsListOrTuple() ==> r == Err(TypeMismatch)
      ensures IsListOrTuple() ==> r == StringItems(pyobj.value.items)
    {
      match pyobj
      case None => Err(MissingArgument)
      case Some(ListObj(items)) => StringItems(items)
      case Some(TupleObj(items)) => StringItems(items)
      case Some(_) => Err(TypeMismatch)
    }

    /** `to_pyobj()`: the bound object itself. */
    function ToPyObj(): (r: Option<Obj>)
      reads this
      ensures r.Some? <==> IsBound()
      ensures r.Some? ==> Some(r.value) == pyobj
    {
      pyobj
    }

    /** `name()`: the display name, computed by the call binding on the first
        call (`made` is what the binding would produce for this position) and
        served from the memo afterwards. */
    method Name(made: string) returns (s: string)
      modifies this
      ensures old(cachedName) != "" ==> s == old(cachedName)
      ensures old(cachedName) == "" ==> s == made
      ensures cachedName == s
      ensures pos == old(pos) && parent == old(parent) && pyobj == old(pyobj)
    {
      if cachedName == "" {
        cachedName := made;
      }
      s := cachedName;
    }
  }

  /** The elements of a list as strings, or the index of the first element
      that is not a string. */
  function StringItems(items: seq<Obj>): (r: Result<seq<string>, ArgError>)
    ensures r.Ok? <==> forall i :: 0 <= i < |items| ==> items[i].StrObj?
    ensures r.Ok? ==> |r.value| == |items| &&
                      forall i :: 0 <= i < |items| ==> items[i] == StrObj(r.value[i])
    ensures r.Err? ==> r.error.InvalidElement? && r.error.index < |items| &&
                       !items[r.error.index].StrObj? &&
                       forall i :: 0 <= i < r.error.index ==> items[i].StrObj?
  {
    if items == [] then Ok([])
    else if !items[0].StrObj? then Err(InvalidElement(0))
    else match StringItems(items[1..])
      case Ok(rest) => Ok([items[0].s] + rest)
      case Err(InvalidElement(k)) => Err(InvalidElement(k + 1))
      case Err(e) => Err(e)
  }

  /** An undefined argument matches no shape and fails every conversion with
      MissingArgument, before any shape check. */
  lemma UndefinedMatchesNothing(a: Arg, minIsValue: bool)
    requires a.IsUndefined()
    ensures !a.IsNone() && !a.IsEllipsis() && !a.IsBool() && !a.IsInt() && !a.IsFloat()
    ensures !a.IsList() && !a.IsTuple() && !a.IsListOrTuple() && !a.IsDict() && !a.IsString()
    ensures !a.IsRange() && !a.IsFrame() && !a.IsPandasFrame() && !a.IsPandasSeries()
    ensures !a.IsNumpyArray() && !a.IsBound()
    ensures a.ToBoolStrict() == Err(MissingArgument)
    ensures a.ToInt32Strict(minIsValue) == Err(MissingArgument)
    ensures a.ToInt64Strict(minIsValue) == Err(MissingArgument)
    ensures a.ToString() == Err(MissingArgument)
    ensures a.ToStringList() == Err(MissingArgument)
  {
  }

  /** A bound bool is a bool and not an int: `to_bool_strict` succeeds and the
      integer conversions report a type mismatch. */
  lemma BoolIsNotInt(a: Arg, minIsValue: bool)
    requires a.pyobj.Some? && a.pyobj.value.BoolObj?
    ensures a.IsBool() && !a.IsInt()
    ensures a.ToBoolStrict() == Ok(a.pyobj.value.b)
    ensures a.ToInt32Strict(minIsValue) == Err(TypeMismatch)
    ensures a.ToInt64Strict(minIsValue) == Err(TypeMismatch)
  {
  }

  /** Every `int` that fits int32 also converts to int64, to the same number. */
  lemma Int32ConversionImpliesInt64(a: Arg, minIsValue: bool)
    requires a.ToInt32Strict(minIsValue).Ok?
    ensures a.ToInt64Strict(minIsValue).Ok?
    ensures a.ToInt64Strict(minIsValue).value as int == a.ToInt32Strict(minIsValue).value as int
  {
  }

  /** `to_stringlist()` on a list holding a non-string reports the first
      offending position, e.g. index 2 for ["a", "b", 3]. */
  lemma StringListReportsFirstBadIndex()
    ensures StringItems([StrObj("a"), StrObj("b"), IntObj(3)]) == Err(InvalidElement(2))
    ensures StringItems([StrObj("a"), StrObj("b"), StrObj("c")]) == Ok(["a", "b", "c"])
  {
    var items := [StrObj("a"), StrObj("b"), StrObj("c")];
    var r := StringItems(items);
    assert items[0] == StrObj(r.value[0]) && items[1] == StrObj(r.value[1]);
    assert items[2] == StrObj(r.value[2]);
    assert r.value == ["a", "b", "c"];
  }

  /** Binding an argument and then asking its name twice gives the same name
      both times, whatever the binding would compute the second time. */
  method NameIsMemoised(a: Arg, first: string, second: string) returns (n1: string, n2: string)
    requires first != ""
    modifies a
    ensures n1 == n2
  {
    n1 := a.Name(first);
    n2 := a.Name(second);
  }
}
