/** The parameter binder of src/natalie.cpp: name classification, reading
    one parameter's argument out of nested argument arrays by a path of
    indices, keyword lookup, and the format-driven unpacking of native
    method arguments. */
module Binder {
  import opened Wrappers
  import opened Text
  import opened Objects

  // ---------------------------------------------------------------------
  // Names.
  // ---------------------------------------------------------------------

  /** `isupper` in the C locale. */
  predicate IsUpper(c: char)
  {
    'A' <= c <= 'Z'
  }

  /** is_constant_name: a non-empty name starting with an upper-case letter. */
  predicate IsConstantName(name: string)
    ensures IsConstantName(name) ==> name != [] && name[0] != '$'
  {
    |name| > 0 && IsUpper(name[0])
  }

  /** is_global_name: a non-empty name starting with '$'. */
  predicate IsGlobalName(name: string)
    ensures IsGlobalName(name) ==> name != [] && !IsUpper(name[0])
  {
    |name| > 0 && name[0] == '$'
  }

  /** No name is both a constant name and a global name; the empty name is neither. */
  lemma NameKindsExclusive(name: string)
    ensures !(IsConstantName(name) && IsGlobalName(name))
    ensures name == [] ==> !IsConstantName(name) && !IsGlobalName(name)
  {
  }

  // ---------------------------------------------------------------------
  // splat_value: the tail of an array, less some elements at its end.
  // ---------------------------------------------------------------------

  /** What splat_value may index: a non-negative start and a non-negative
      offset from the end whenever the range it copies is non-empty. */
  predicate SplatSafe(v: Value, index: int, offsetFromEnd: int)
  {
    v.Array? && index < |v.elems| - offsetFromEnd ==> 0 <= index && 0 <= offsetFromEnd
  }

  /** The elements at indices [index, size - offsetFromEnd) of an array, in
      order; nothing for a non-array or an empty range. */
  function Splat(v: Value, index: int, offsetFromEnd: int): (r: Value)
    requires SplatSafe(v, index, offsetFromEnd)
    ensures r.Array?
    ensures v.Array? && index < |v.elems| - offsetFromEnd ==>
              |r.elems| == |v.elems| - offsetFromEnd - index &&
              forall j :: 0 <= j < |r.elems| ==> r.elems[j] == v.elems[index + j]
    ensures !(v.Array? && index < |v.elems| - offsetFromEnd) ==> r.elems == []
  {
    if v.Array? && index < |v.elems| - offsetFromEnd then Array(v.elems[index..|v.elems| - offsetFromEnd])
    else Array([])
  }

  /** splat_value: pushes the selected elements one by one into a new array. */
  method SplatValue(v: Value, index: int, offsetFromEnd: int) returns (r: Value)
    requires SplatSafe(v, index, offsetFromEnd)
    ensures r == Splat(v, index, offsetFromEnd)
  {
    var splat: seq<Value> := [];
    if v.Array? && index < |v.elems| - offsetFromEnd {
      var s := index;
      while s < |v.elems| - offsetFromEnd
        invariant index <= s <= |v.elems| - offsetFromEnd
        invariant splat == v.elems[index..s]
      {
        splat := splat + [v.elems[s]];
        s := s + 1;
      }
    }
    return Array(splat);
  }

  // ---------------------------------------------------------------------
  // array_value_by_path: plain indexing into nested arrays.
  // ---------------------------------------------------------------------

  /** The element at a normalised index, or the default outside [0, |elems|). */
  function Pick(elems: seq<Value>, index: int, defaultValue: Value): Value
  {
    if 0 <= index < |elems| then elems[index] else defaultValue
  }

  /** One non-splat step of array_value_by_path. */
  function ArrayStep(v: Value, index: int, defaultValue: Value): Value
  {
    if v.Array? then Pick(v.elems, if index < 0 then |v.elems| + index else index, defaultValue)
    else if index == 0 then v
    else defaultValue
  }

  /** A splat path must be safe to splat on the value its last step
      actually reaches; a path without a splat is always safe. */
  predicate ArraySplatSafe(v: Value, defaultValue: Value, splat: bool, offsetFromEnd: int, path: seq<int>)
    decreases |path|
  {
    if !splat || path == [] then true
    else if |path| == 1 then SplatSafe(v, path[0], offsetFromEnd)
    else ArraySplatSafe(ArrayStep(v, path[0], defaultValue), defaultValue, splat, offsetFromEnd, path[1..])
  }

  /** The value array_value_by_path reaches by following `path` from `v`. */
  function ArrayPath(v: Value, defaultValue: Value, splat: bool, offsetFromEnd: int, path: seq<int>): Value
    requires ArraySplatSafe(v, defaultValue, splat, offsetFromEnd, path)
    decreases |path|
  {
    if path == [] then v
    else if splat && |path| == 1 then Splat(v, path[0], offsetFromEnd)
    else ArrayPath(ArrayStep(v, path[0], defaultValue), defaultValue, splat, offsetFromEnd, path[1..])
  }

  method ArrayValueByPath(v: Value, defaultValue: Value, splat: bool, offsetFromEnd: int, path: seq<int>)
    returns (r: Value)
    requires ArraySplatSafe(v, defaultValue, splat, offsetFromEnd, path)
    ensures r == ArrayPath(v, defaultValue, splat, offsetFromEnd, path)
  {
    var returnValue := v;
    var i := 0;
    while i < |path|
      invariant 0 <= i <= |path|
      invariant ArraySplatSafe(returnValue, defaultValue, splat, offsetFromEnd, path[i..])
      invariant ArrayPath(v, defaultValue, splat, offsetFromEnd, path)
                == ArrayPath(returnValue, defaultValue, splat, offsetFromEnd, path[i..])
    {
      var index := path[i];
      assert path[i..][1..] == path[i + 1..];
      if splat && i == |path| - 1 {
        r := SplatValue(returnValue, index, offsetFromEnd);
        return;
      } else {
        if returnValue.Array? {
          var aryLen := |returnValue.elems|;
          if index < 0 {
            index := aryLen + index;
          }
          if index < 0 {
            returnValue := defaultValue;
          } else if index < aryLen {
            returnValue := returnValue.elems[index];
          } else {
            returnValue := defaultValue;
          }
        } else if index == 0 {
          // a non-array is its own element 0
        } else {
          returnValue := defaultValue;
        }
      }
      i := i + 1;
    }
    return returnValue;
  }

  /** A single step on an array: negative indices count from the end, and
      anything outside the array gives the default. */
  lemma ArrayStepOnArray(elems: seq<Value>, index: int, defaultValue: Value)
    ensures -|elems| <= index < 0 ==> ArrayPath(Array(elems), defaultValue, false, 0, [index]) == elems[|elems| + index]
    ensures 0 <= index < |elems| ==> ArrayPath(Array(elems), defaultValue, false, 0, [index]) == elems[index]
    ensures index < -|elems| || |elems| <= index ==> ArrayPath(Array(elems), defaultValue, false, 0, [index]) == defaultValue
  {
    assert [index][1..] == [];
  }

  /** A non-array is passed through by index 0 and replaced by the default otherwise. */
  lemma ArrayStepOnScalar(v: Value, index: int, defaultValue: Value)
    requires !v.Array?
    ensures ArrayPath(v, defaultValue, false, 0, [index]) == if index == 0 then v else defaultValue
  {
    assert [index][1..] == [];
  }

  /** Without a splat, following a path is following its parts one after the other. */
  lemma {:induction false} ArrayPathCompose(v: Value, defaultValue: Value, p: seq<int>, q: seq<int>)
    ensures ArrayPath(v, defaultValue, false, 0, p + q)
            == ArrayPath(ArrayPath(v, defaultValue, false, 0, p), defaultValue, false, 0, q)
    decreases |p|
  {
    if p == [] {
      assert p + q == q;
    } else {
      assert (p + q)[1..] == p[1..] + q;
      ArrayPathCompose(ArrayStep(v, p[0], defaultValue), defaultValue, p[1..], q);
    }
  }

  // ---------------------------------------------------------------------
  // arg_value_by_path: the same walk, aware of the parameter list's
  // optional arguments.
  // ---------------------------------------------------------------------

  /** The shape of the parameter list a path is read for. */
  datatype ArgShape = ArgShape(
    defaultValue: Value,
    splat: bool,
    totalCount: int,
    defaultCount: int,
    defaultsOnRight: bool,
    offsetFromEnd: int)
  {
    /** A nil default counts as no default. */
    predicate HasDefault() { defaultValue != Nil }
    function RequiredCount(): int { totalCount - defaultCount }
  }

  /** A step either continues the walk or ends it at once with the default. */
  datatype Step = Continue(v: Value) | Done(v: Value)

  /** The left shift applied to the only index of a one-step path when
      optional arguments on the left are missing. */
  function ShiftLeft(index: int, aryLen: int, s: ArgShape): int
  {
    var extraCount := aryLen - s.RequiredCount();
    if !s.defaultsOnRight && extraCount > 0 && s.defaultCount >= extraCount && index >= extraCount then
      index - (s.defaultCount - extraCount)
    else if aryLen <= s.RequiredCount() && !s.defaultsOnRight then
      index - s.defaultCount
    else index
  }

  /** A negative index counts from the end of a full array, and from the
      end of the parameter list when the array is shorter than that. */
  function FromRight(index: int, aryLen: int, totalCount: int): int
  {
    if index >= 0 then index
    else if aryLen >= totalCount then aryLen + index
    else totalCount - 1 + index
  }

  /** An optional argument on the left that the given arguments do not reach. */
  predicate InDefaultWindow(index: int, aryLen: int, s: ArgShape)
  {
    s.HasDefault() && !s.defaultsOnRight && aryLen - s.RequiredCount() <= index < s.defaultCount
  }

  /** One non-splat step of arg_value_by_path; `first` marks the only step of a one-step path. */
  function ArgStep(v: Value, index: int, s: ArgShape, first: bool): Step
  {
    if v.Array? then
      var aryLen := |v.elems|;
      if InDefaultWindow(index, aryLen, s) then Done(s.defaultValue)
      else
        var shifted := if first then ShiftLeft(index, aryLen, s) else index;
        Continue(Pick(v.elems, FromRight(shifted, aryLen, s.totalCount), s.defaultValue))
    else if index == 0 then Continue(v)
    else Continue(s.defaultValue)
  }

  /** As ArraySplatSafe, for the walk of arg_value_by_path: a walk that ends
      early in a default window never splats. */
  predicate ArgSplatSafe(v: Value, s: ArgShape, path: seq<int>, first: bool)
    decreases |path|
  {
    if !s.splat || path == [] then true
    else if |path| == 1 then SplatSafe(v, path[0], s.offsetFromEnd)
    else match ArgStep(v, path[0], s, first)
      case Done(_) => true
      case Continue(x) => ArgSplatSafe(x, s, path[1..], false)
  }

  function ArgWalk(v: Value, s: ArgShape, path: seq<int>, first: bool): Value
    requires ArgSplatSafe(v, s, path, first)
    decreases |path|
  {
    if path == [] then v
    else if s.splat && |path| == 1 then Splat(v, path[0], s.offsetFromEnd)
    else match ArgStep(v, path[0], s, first)
      case Done(x) => x
      case Continue(x) => ArgWalk(x, s, path[1..], false)
  }

  /** The value arg_value_by_path reaches; only a one-step path shifts its index. */
  function ArgPath(v: Value, s: ArgShape, path: seq<int>): Value
    requires ArgSplatSafe(v, s, path, |path| == 1)
  {
    ArgWalk(v, s, path, |path| == 1)
  }

  method ArgValueByPath(v: Value, defaultValue: Value, splat: bool, totalCount: int, defaultCount: int,
                        defaultsOnRight: bool, offsetFromEnd: int, path: seq<int>)
    returns (r: Value)
    requires ArgSplatSafe(v, ArgShape(defaultValue, splat, totalCount, defaultCount, defaultsOnRight, offsetFromEnd),
                          path, |path| == 1)
    ensures r == ArgPath(v, ArgShape(defaultValue, splat, totalCount, defaultCount, defaultsOnRight, offsetFromEnd), path)
  {
    ghost var s := ArgShape(defaultValue, splat, totalCount, defaultCount, defaultsOnRight, offsetFromEnd);
    var hasDefault := defaultValue != Nil;
    var defaultsOnLeft := !defaultsOnRight;
    var requiredCount := totalCount - defaultCount;
    var returnValue := v;
    var i := 0;
    while i < |path|
      invariant 0 <= i <= |path|
      invariant ArgSplatSafe(returnValue, s, path[i..], i == 0 && |path| == 1)
      invariant ArgPath(v, s, path) == ArgWalk(returnValue, s, path[i..], i == 0 && |path| == 1)
    {
      var index := path[i];
      assert path[i..][1..] == path[i + 1..];
      if splat && i == |path| - 1 {
        r := SplatValue(returnValue, index, offsetFromEnd);
        return;
      } else {
        if returnValue.Array? {
          var aryLen := |returnValue.elems|;
          var firstRequired := defaultCount;
          var remain := aryLen - requiredCount;
          if hasDefault && index >= remain && index < firstRequired && defaultsOnLeft {
            return defaultValue;
          }
          if i == 0 && |path| == 1 {
            var extraCount := aryLen - requiredCount;
            if defaultsOnLeft && extraCount > 0 && defaultCount >= extraCount && index >= extraCount {
              index := index - (defaultCount - extraCount);
            } else if aryLen <= requiredCount && defaultsOnLeft {
              index := index - defaultCount;
            }
          }
          if index < 0 {
            if aryLen >= totalCount {
              index := aryLen + index;
            } else {
              index := totalCount - 1 + index;
            }
          }
          if index < 0 {
            returnValue := defaultValue;
          } else if index < aryLen {
            returnValue := returnValue.elems[index];
          } else {
            returnValue := defaultValue;
          }
        } else if index == 0 {
          // a non-array is its own element 0
        } else {
          returnValue := defaultValue;
        }
      }
      i := i + 1;
    }
    return returnValue;
  }

  /** With no optional parameters and an array that fills the parameter
      list, a step of arg_value_by_path is a step of array_value_by_path. */
  lemma ArgStepWithoutDefaults(v: Value, index: int, s: ArgShape, first: bool)
    requires s.defaultCount == 0
    requires v.Array? ==> |v.elems| >= s.totalCount
    ensures ArgStep(v, index, s, first) == Continue(ArrayStep(v, index, s.defaultValue))
  {
  }

  /** An optional argument the given arguments do not reach reads as its
      default, whatever the rest of the path. */
  lemma ArgPathDefaultWindow(elems: seq<Value>, s: ArgShape, path: seq<int>)
    requires path != [] && !(s.splat && |path| == 1)
    requires InDefaultWindow(path[0], |elems|, s)
    ensures ArgPath(Array(elems), s, path) == s.defaultValue
  {
  }

  /** Negative indices: from the end of an array that fills the parameter
      list (three parameters, five values: -1 is element 4), and from the
      end of the parameter list otherwise (three parameters, two values:
      -1 is element 1). */
  lemma ArgNegativeIndex(a: Value, b: Value, c: Value, e: Value, f: Value)
    ensures var s := ArgShape(Nil, false, 3, 0, true, 0);
            ArgPath(Array([a, b, c, e, f]), s, [-1]) == f && ArgPath(Array([a, b]), s, [-1]) == b
  {
    var s := ArgShape(Nil, false, 3, 0, true, 0);
    assert [-1][1..] == [];
    assert ArgStep(Array([a, b, c, e, f]), -1, s, true) == Continue(f);
    assert ArgStep(Array([a, b]), -1, s, true) == Continue(b);
  }

  /** `def m(a = 1, b = 2, c)` called with two values x and y: a is x, b
      takes its default, and c, at parameter index 2, is shifted onto y. */
  lemma LeftDefaultsExample(x: Value, y: Value, one: Value, two: Value)
    requires one != Nil && two != Nil
    ensures ArgPath(Array([x, y]), ArgShape(one, false, 3, 2, false, 0), [0]) == x
    ensures ArgPath(Array([x, y]), ArgShape(two, false, 3, 2, false, 0), [1]) == two
    ensures ArgPath(Array([x, y]), ArgShape(Nil, false, 3, 2, false, 0), [2]) == y
  {
    assert [0][1..] == [] && [2][1..] == [];
    assert ArgStep(Array([x, y]), 0, ArgShape(one, false, 3, 2, false, 0), true) == Continue(x);
    assert ArgStep(Array([x, y]), 2, ArgShape(Nil, false, 3, 2, false, 0), true) == Continue(y);
  }

  /** The shift applies only to a one-step path: the same index without a
      shift runs past the two values when it is the first of two steps. */
  lemma ShiftOnlyForOneStepPath(x: Value, y: Value)
    requires !y.Array?
    ensures ArgPath(Array([x, y]), ArgShape(Nil, false, 3, 2, false, 0), [2]) == y
    ensures ArgPath(Array([x, y]), ArgShape(Nil, false, 3, 2, false, 0), [2, 0]) == Nil
  {
    var s := ArgShape(Nil, false, 3, 2, false, 0);
    assert [2][1..] == [] && [2, 0][1..] == [0] && [0][1..] == [];
    assert ArgStep(Array([x, y]), 2, s, true) == Continue(y);
    assert ArgStep(Array([x, y]), 2, s, false) == Continue(Nil);
    assert ArgWalk(Nil, s, [0], false) == Nil;
  }

  /** Optional arguments on the left, none of them given: the only index of
      a one-step path past the optional parameters is moved left by their
      number. */
  lemma ArgShiftNoDefaultsGiven(elems: seq<Value>, s: ArgShape, index: int)
    requires !s.splat && !s.defaultsOnRight && |elems| <= s.RequiredCount()
    requires 0 <= index - s.defaultCount < |elems|
    ensures ArgPath(Array(elems), s, [index]) == elems[index - s.defaultCount]
  {
    assert [index][1..] == [];
    assert ArgStep(Array(elems), index, s, true) == Continue(elems[index - s.defaultCount]);
    assert ArgWalk(Array(elems), s, [index], true) == ArgWalk(elems[index - s.defaultCount], s, [], false);
  }

  /** Optional arguments on the left, some of them given: an index past the
      given ones and outside the default window is moved left by the number
      of optional arguments still missing. */
  lemma ArgShiftSomeDefaultsGiven(elems: seq<Value>, s: ArgShape, index: int)
    requires !s.splat && !s.defaultsOnRight
    requires 0 < |elems| - s.RequiredCount() <= s.defaultCount
    requires |elems| - s.RequiredCount() <= index && !InDefaultWindow(index, |elems|, s)
    requires 0 <= index - (s.defaultCount - (|elems| - s.RequiredCount())) < |elems|
    ensures ArgPath(Array(elems), s, [index]) == elems[index - (s.defaultCount - (|elems| - s.RequiredCount()))]
  {
    assert [index][1..] == [];
    var shifted := index - (s.defaultCount - (|elems| - s.RequiredCount()));
    assert ShiftLeft(index, |elems|, s) == shifted;
    assert ArgStep(Array(elems), index, s, true) == Continue(elems[shifted]);
    assert ArgWalk(Array(elems), s, [index], true) == ArgWalk(elems[shifted], s, [], false);
  }

  /** Negative indices without optional parameters: an array that fills the
      parameter list is counted from its own end; a shorter one from the end
      of the parameter list, where a default window covers the parameters
      the array does not reach. */
  lemma ArgNegativeIndexRule(elems: seq<Value>, s: ArgShape, index: int)
    requires !s.splat && s.defaultCount == 0 && index < 0
    ensures |elems| >= s.totalCount && -|elems| <= index ==>
              ArgPath(Array(elems), s, [index]) == elems[|elems| + index]
    ensures |elems| < s.totalCount && !InDefaultWindow(index, |elems|, s) &&
            0 <= s.totalCount - 1 + index < |elems| ==>
              ArgPath(Array(elems), s, [index]) == elems[s.totalCount - 1 + index]
    ensures |elems| < s.totalCount && s.HasDefault() && !s.defaultsOnRight && |elems| - s.totalCount <= index ==>
              ArgPath(Array(elems), s, [index]) == s.defaultValue
  {
    assert [index][1..] == [];
    assert ShiftLeft(index, |elems|, s) == index;
    if !InDefaultWindow(index, |elems|, s) {
      var at := FromRight(index, |elems|, s.totalCount);
      assert ArgStep(Array(elems), index, s, true) == Continue(Pick(elems, at, s.defaultValue));
      assert ArgWalk(Array(elems), s, [index], true) == ArgWalk(Pick(elems, at, s.defaultValue), s, [], false);
    }
  }

  // ---------------------------------------------------------------------
  // Keyword arguments.
  // ---------------------------------------------------------------------

  /** The trailing hash that carries keyword arguments, if the last argument is a hash. */
  function KeywordCarrier(args: seq<Value>): Option<HashValue>
  {
    if |args| > 0 && args[|args| - 1].Hash? then Some(args[|args| - 1].table) else None
  }

  ghost predicate KeywordCarrierValid(args: seq<Value>)
    reads if |args| > 0 && args[|args| - 1].Hash? then {args[|args| - 1].table} else {}
  {
    |args| > 0 && args[|args| - 1].Hash? ==> args[|args| - 1].table.Valid()
  }

  /** kwarg_value_by_name: the keyword's value in the trailing hash (an
      empty hash when there is none), else the default, else
      ArgumentError. */
  method KwargValueByName(args: seq<Value>, name: string, defaultValue: Option<Value>, d: Dispatch)
    returns (r: Result<Value>)
    requires KeywordCarrierValid(args)
    ensures var found := match KeywordCarrier(args)
                         case None => None
                         case Some(h) => Lookup(h.Entries(), d.hash(Symbol(name)));
            match found
            case Some(v) => r == Ok(v)
            case None =>
              if defaultValue.Some? then r == Ok(defaultValue.value)
              else r == Err(Error(ArgumentError, "missing keyword: :" + name))
  {
    var hash: HashValue;
    if |args| == 0 {
      hash := new HashValue();
    } else {
      var last := args[|args| - 1];
      if last.Hash? {
        hash := last.table;
      } else {
        hash := new HashValue();
      }
    }
    var value := hash.Get(Symbol(name), d);
    if value.None? {
      if defaultValue.Some? {
        return Ok(defaultValue.value);
      } else {
        return Err(Error(ArgumentError, "missing keyword: :" + name));
      }
    }
    return Ok(value.value);
  }

  // ---------------------------------------------------------------------
  // Block arguments.
  // ---------------------------------------------------------------------

  /** to_ary: an array as it is; otherwise what `to_ary` answers when the
      object responds to it (an array, or else the object wrapped alone,
      unless a conversion is demanded and the answer is not nil); an object
      without `to_ary` is wrapped alone. */
  function ToAry(obj: Value, raiseForNonArray: bool, d: Dispatch): (r: Result<seq<Value>>)
    ensures obj.Array? ==> r == Ok(obj.elems)
    ensures !obj.Array? && !d.respondTo(obj, "to_ary") ==> r == Ok([obj])
    ensures r.Err? ==> raiseForNonArray && r.error.kind == TypeError
  {
    if obj.Array? then Ok(obj.elems)
    else if d.respondTo(obj, "to_ary") then
      var ary := d.send(obj, "to_ary");
      if ary.Array? then Ok(ary.elems)
      else if ary.Nil? || !raiseForNonArray then Ok([obj])
      else
        var className := d.className(obj);
        Err(Error(TypeError, "can't convert " + className + " to Array (" + className + "#to_ary gives " + d.className(ary) + ")"))
    else Ok([obj])
  }

  /** args_to_array: the arguments, in order, in a new array. */
  method ArgsToArray(args: seq<Value>) returns (r: Value)
    ensures r.Array? && |r.elems| == |args| && forall i :: 0 <= i < |args| ==> r.elems[i] == args[i]
  {
    var ary: seq<Value> := [];
    var i := 0;
    while i < |args|
      invariant 0 <= i <= |args| && ary == args[..i]
    {
      ary := ary + [args[i]];
      i := i + 1;
    }
    assert args[..i] == args;
    return Array(ary);
  }

  /** block_args_to_array: a single argument given to a block that takes
      several parameters is spread with to_ary; otherwise the arguments are
      taken as they are. */
  method BlockArgsToArray(signatureSize: int, args: seq<Value>, d: Dispatch) returns (r: Result<Value>)
    ensures |args| == 1 && signatureSize > 1 ==>
              match ToAry(args[0], true, d)
              case Ok(elems) => r == Ok(Array(elems))
              case Err(e) => r == Err(e)
    ensures !(|args| == 1 && signatureSize > 1) ==> r == Ok(Array(args))
    ensures |args| == 1 && signatureSize > 1 && args[0].Array? ==> r == Ok(args[0])
    ensures r.Err? ==> |args| == 1 && signatureSize > 1 && !args[0].Array? && r.error.kind == TypeError
  {
    if |args| == 1 && signatureSize > 1 {
      var converted := ToAry(args[0], true, d);
      if converted.Err? {
        return Err(converted.error);
      }
      return Ok(Array(converted.value));
    }
    var ary := ArgsToArray(args);
    assert ary.elems == args;
    return Ok(ary);
  }

  // ---------------------------------------------------------------------
  // arg_spread: unpacking native arguments by a format string.
  // ---------------------------------------------------------------------

  /** What one specifier stores through its out-pointer. */
  datatype Spread =
    | SpreadObject(obj: Value)      // 'o'
    | SpreadInt(n: int)             // 'i', into a C int
    | SpreadString(s: Option<string>) // 's', None for nullptr
    | SpreadBool(b: bool)           // 'b'
    | SpreadPointer(address: int)   // 'v'

  const TWO_32: int := 0x1_0000_0000
  const TWO_31: int := 0x8000_0000

  /** Storing a 64-bit integer into a C `int` keeps its low 32 bits, read as two's complement. */
  function Int32(n: int): (r: int)
    ensures -TWO_31 <= r < TWO_31
    ensures (r - n) % TWO_32 == 0
    ensures -TWO_31 <= n < TWO_31 ==> r == n
  {
    (n + TWO_31) % TWO_32 - TWO_31
  }

  function ArityError(argc: int, argIndex: int): Error
  {
    Error(ArgumentError, "wrong number of arguments (given " + DecimalString(argc) + ", expected " + DecimalString(argIndex + 1) + ")")
  }

  /** The failed `assert` of a 'v' argument whose @_ptr is not a raw pointer. */
  const PointerAssertion: Error := Error(Abort, "")

  /** What specifier `c`, the i-th of the format, makes of the i-th argument. */
  function SpreadOne(c: char, args: seq<Value>, i: nat, d: Dispatch): Result<Spread>
  {
    if c !in "oisbv" then Err(Error(Abort, "Unknown arg spread arrangement specifier: %" + [c]))
    else if i >= |args| then Err(ArityError(|args|, i))
    else
      var obj := args[i];
      if c == 'o' then Ok(SpreadObject(obj))
      else if c == 'i' then
        if obj.Integer? then Ok(SpreadInt(Int32(obj.number))) else Err(Error(TypeError, "Integer"))
      else if c == 's' then
        if obj.Nil? then Ok(SpreadString(None))
        else if obj.String? then Ok(SpreadString(Some(obj.chars)))
        else Err(Error(TypeError, "String"))
      else if c == 'b' then Ok(SpreadBool(Truthy(obj)))
      else
        var ptr := d.ptrIvar(obj);
        if ptr.VoidP? then Ok(SpreadPointer(ptr.address)) else Err(PointerAssertion)
  }

  /** 's' as the source writes it: the nullptr stored for nil is overwritten
      by converting nil with as_string, which is defined for String values
      only; the model reads that as the abort of a failed type assertion. */
  function SpreadOneAsWritten(c: char, args: seq<Value>, i: nat, d: Dispatch): Result<Spread>
  {
    if c == 's' && i < |args| && args[i].Nil? then Err(Error(Abort, ""))
    else SpreadOne(c, args, i, d)
  }

  /** The as-written 's' fails on nil where the nil branch meant to store nullptr. */
  lemma NilStringFinding(d: Dispatch)
    ensures SpreadOneAsWritten('s', [Nil], 0, d).Err?
    ensures SpreadOne('s', [Nil], 0, d) == Ok(SpreadString(None))
  {
  }

  /** The stores of the whole format, or the first failure. */
  function SpreadArgs(args: seq<Value>, arrangement: string, d: Dispatch): (r: Result<seq<Spread>>)
    ensures r.Ok? ==> |r.value| == |arrangement|
  {
    if arrangement == [] then Ok([])
    else
      var n := |arrangement| - 1;
      match SpreadArgs(args, arrangement[..n], d)
      case Err(e) => Err(e)
      case Ok(outs) =>
        match SpreadOne(arrangement[n], args, n, d)
        case Err(e) => Err(e)
        case Ok(o) => Ok(outs + [o])
  }

  lemma SpreadArgsStep(args: seq<Value>, arrangement: string, i: nat, d: Dispatch)
    requires i < |arrangement| && SpreadArgs(args, arrangement[..i], d).Ok?
    ensures SpreadArgs(args, arrangement[..i + 1], d) == match SpreadOne(arrangement[i], args, i, d)
                                                       case Err(e) => Err(e)
                                                       case Ok(o) => Ok(SpreadArgs(args, arrangement[..i], d).value + [o])
  {
    assert arrangement[..i + 1][..i] == arrangement[..i];
  }

  lemma {:induction false} SpreadErrorSticks(args: seq<Value>, arrangement: string, i: nat, e: Error, d: Dispatch)
    requires i < |arrangement| && SpreadArgs(args, arrangement[..i + 1], d) == Err(e)
    ensures SpreadArgs(args, arrangement, d) == Err(e)
    decreases |arrangement|
  {
    if |arrangement| == i + 1 {
      assert arrangement[..i + 1] == arrangement;
    } else {
      var init := arrangement[..|arrangement| - 1];
      assert init[..i + 1] == arrangement[..i + 1];
      SpreadErrorSticks(args, init, i, e, d);
    }
  }

  /** On success every specifier consumed its own argument, in order: the
      i-th store is the i-th specifier applied to the i-th argument, and
      there were at least as many arguments as specifiers. */
  lemma {:induction false} SpreadArgsOk(args: seq<Value>, arrangement: string, d: Dispatch)
    requires SpreadArgs(args, arrangement, d).Ok?
    ensures |arrangement| <= |args|
    ensures forall i :: 0 <= i < |arrangement| ==>
              SpreadOne(arrangement[i], args, i, d) == Ok(SpreadArgs(args, arrangement, d).value[i])
    decreases |arrangement|
  {
    if arrangement != [] {
      var n := |arrangement| - 1;
      var init := arrangement[..n];
      SpreadArgsOk(args, init, d);
      assert SpreadOne(arrangement[n], args, n, d).Ok?;
      forall i | 0 <= i < |arrangement|
        ensures SpreadOne(arrangement[i], args, i, d) == Ok(SpreadArgs(args, arrangement, d).value[i])
      {
        if i < n { assert init[i] == arrangement[i]; }
      }
    }
  }

  /** A format of 'o' and 'b' only, given fewer arguments than specifiers,
      fails on the first missing argument. */
  lemma {:induction false} SpreadTooFewArgs(args: seq<Value>, arrangement: string, d: Dispatch)
    requires forall i :: 0 <= i < |arrangement| ==> arrangement[i] in "ob"
    requires |args| < |arrangement|
    ensures SpreadArgs(args, arrangement, d) == Err(ArityError(|args|, |args|))
    decreases |arrangement|
  {
    var n := |arrangement| - 1;
    var init := arrangement[..n];
    if |args| < n {
      SpreadTooFewArgs(args, init, d);
    } else {
      assert |args| == n;
      SpreadAllPresent(args, init, d);
    }
  }

  /** A format of 'o' and 'b' only succeeds while the arguments last. */
  lemma {:induction false} SpreadAllPresent(args: seq<Value>, arrangement: string, d: Dispatch)
    requires forall i :: 0 <= i < |arrangement| ==> arrangement[i] in "ob"
    requires |arrangement| <= |args|
    ensures SpreadArgs(args, arrangement, d).Ok?
    decreases |arrangement|
  {
    if arrangement != [] {
      var n := |arrangement| - 1;
      SpreadAllPresent(args, arrangement[..n], d);
    }
  }

  /** arg_spread: one argument per specifier, in order, each stored through
      the next out-pointer; extra arguments are ignored. */
  method ArgSpread(args: seq<Value>, arrangement: string, d: Dispatch) returns (r: Result<seq<Spread>>)
    ensures r == SpreadArgs(args, arrangement, d)
  {
    var outs: seq<Spread> := [];
    var argIndex := 0;
    var i := 0;
    while i < |arrangement|
      invariant 0 <= i <= |arrangement| && argIndex == i
      invariant SpreadArgs(args, arrangement[..i], d) == Ok(outs)
    {
      var c := arrangement[i];
      SpreadArgsStep(args, arrangement, i, d);
      var out: Spread;
      if c !in "oisbv" {
        SpreadErrorSticks(args, arrangement, i, Error(Abort, "Unknown arg spread arrangement specifier: %" + [c]), d);
        return Err(Error(Abort, "Unknown arg spread arrangement specifier: %" + [c]));
      }
      if argIndex >= |args| {
        SpreadErrorSticks(args, arrangement, i, ArityError(|args|, argIndex), d);
        return Err(ArityError(|args|, argIndex));
      }
      var obj := args[argIndex];
      argIndex := argIndex + 1;
      if c == 'o' {
        out := SpreadObject(obj);
      } else if c == 'i' {
        if !obj.Integer? {
          SpreadErrorSticks(args, arrangement, i, Error(TypeError, "Integer"), d);
          return Err(Error(TypeError, "Integer"));
        }
        out := SpreadInt(Int32(obj.number));
      } else if c == 's' {
        if obj.Nil? {
          out := SpreadString(None);
        } else if obj.String? {
          out := SpreadString(Some(obj.chars));
        } else {
          SpreadErrorSticks(args, arrangement, i, Error(TypeError, "String"), d);
          return Err(Error(TypeError, "String"));
        }
      } else if c == 'b' {
        out := SpreadBool(Truthy(obj));
      } else {
        var ptr := d.ptrIvar(obj);
        if !ptr.VoidP? {
          SpreadErrorSticks(args, arrangement, i, PointerAssertion, d);
          return Err(PointerAssertion);
        }
        out := SpreadPointer(ptr.address);
      }
      outs := outs + [out];
      i := i + 1;
    }
    assert arrangement[..i] == arrangement;
    return Ok(outs);
  }
}
