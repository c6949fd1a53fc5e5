/**
 * The values of DML programs (Dml/Parse/DmlObject.cs, DmlType.cs,
 * DmlFunction.cs): a `DmlObject` is a type tag with a payload, bound
 * variables are a map from names to objects, and the one concrete function
 * class defined beside `DmlObject`, the option factory, binds its arguments
 * to named parameters.
 */
module DmlObjects {
  import opened Exceptions

  /** The type tag of a DML value (DmlType.cs). */
  datatype DmlType =
    | NullType | BoolType | StringType | NumberType | VectorType | ColourType | ListType
    | FunctionType | BulletType | BulletClassType | PatternType | StructType | OptionType

  /** An option factory: a function that packs its arguments into an option object. */
  datatype OptionFactory = OptionFactory(name: string, parameters: seq<string>, types: seq<DmlType>)

  /** The `Value` of a function-typed object. */
  datatype DmlFunction =
    | Builtin(name: string, pure: bool)
    | Factory(factory: OptionFactory)
  {
    /** `IsPure` read through a `DmlFunction` reference; every option factory is pure. */
    predicate IsPure() {
      match this
      case Builtin(_, p) => p
      case Factory(_) => true
    }
  }

  /**
   * A DML value. `NoObject` is the C# null reference (an absent object), which
   * is not the same thing as `NullObj`, the object of type `Null`.
   * Vectors, colours, bullets and patterns keep only their type tag.
   */
  datatype DmlObject =
    | NoObject
    | NullObj
    | BoolObj(b: bool)
    | StringObj(s: string)
    | NumberObj(n: real)
    | InfinityObj
    | FunctionObj(fn: DmlFunction)
    | OptionObj(bound: map<string, DmlObject>)
    | BulletClassObj(className: string)
    | OtherObj(otherType: DmlType)

  /** The name `SetVar` binds: one leading quote and one trailing quote are removed. */
  function StripQuotes(name: string): (r: Result<string>)
    ensures r.Throw? <==> name == "" || name == "\""
    ensures r.Throw? ==> r.exception == IndexOutOfRange
    ensures r.Ok? ==> |name| - 2 <= |r.value| <= |name|
  {
    if |name| == 0 then Throw(IndexOutOfRange)
    else
      var unled := if name[0] == '"' then name[1..] else name;
      if |unled| == 0 then Throw(IndexOutOfRange)
      else if unled[|unled| - 1] == '"' then Ok(unled[..|unled| - 1])
      else Ok(unled)
  }

  /** Quoting a name and binding it binds the name itself: stripping undoes quoting. */
  lemma QuotedNameRoundTrip(s: string)
    ensures StripQuotes("\"" + s + "\"") == Ok(s)
  {
    var q := "\"" + s + "\"";
    assert q[1..] == s + "\"";
    assert (s + "\"")[..|s|] == s;
  }

  /** A name that neither starts nor ends with a quote is bound unchanged. */
  lemma UnquotedNameUnchanged(s: string)
    requires |s| > 0 && s[0] != '"' && s[|s| - 1] != '"'
    ensures StripQuotes(s) == Ok(s)
  {
  }

  /**
   * `SetVar`: binds `obj` under the stripped name, overwriting any earlier
   * binding and leaving every other binding as it was.
   */
  function SetVar(vars: map<string, DmlObject>, name: string, obj: DmlObject): (r: Result<map<string, DmlObject>>)
    ensures r.Ok? <==> StripQuotes(name).Ok?
    ensures r.Ok? ==> var key := StripQuotes(name).value;
      r.value.Keys == vars.Keys + {key} && r.value[key] == obj &&
      forall k :: k in vars && k != key ==> r.value[k] == vars[k]
  {
    var key :- StripQuotes(name);
    Ok(vars[key := obj])
  }

  /** `CompatibleWithArgCount` of an option factory: exactly one argument per parameter. */
  function CompatibleWithArgCount(f: OptionFactory, argCount: int): (r: bool)
    ensures r ==> argCount >= 0
    ensures r <==> argCount == |f.parameters|
  {
    argCount == |f.parameters|
  }

  /** `CompatibleWithArgTypes` of an option factory: the types agree position by position. */
  method CompatibleWithArgTypes(f: OptionFactory, types: seq<DmlType>) returns (ok: bool)
    ensures ok <==> types == f.types
  {
    if |types| != |f.types| {
      return false;
    }
    var i := 0;
    while i < |types|
      invariant 0 <= i <= |types|
      invariant types[..i] == f.types[..i]
    {
      if f.types[i] != types[i] {
        return false;
      }
      i := i + 1;
    }
    assert types == types[..i] && f.types == f.types[..i];
    return true;
  }

  /**
   * `CallDynamic` of an option factory as written: the i-th pop (the stack
   * top first) is bound to the i-th parameter. The value stack is a sequence
   * whose first element is the top. Popping an empty stack throws
   * InvalidOperation; running out of parameters throws IndexOutOfRange.
   */
  function BindPoppedAsWritten(parameters: seq<string>, argCount: int, stack: seq<DmlObject>, i: nat,
                               bound: map<string, DmlObject>): (r: Result<(map<string, DmlObject>, seq<DmlObject>)>)
    decreases argCount - i
  {
    if i >= argCount then Ok((bound, stack))
    else if |stack| == 0 then Throw(InvalidOperation)
    else if i >= |parameters| then Throw(IndexOutOfRange)
    else BindPoppedAsWritten(parameters, argCount, stack[1..], i + 1, bound[parameters[i] := stack[0]])
  }

  function CallOptionFactoryAsWritten(f: OptionFactory, argCount: int, stack: seq<DmlObject>): (r: Result<(DmlObject, seq<DmlObject>)>)
    ensures r.Ok? ==> r.value.0.OptionObj?
  {
    var (bound, rest) :- BindPoppedAsWritten(f.parameters, argCount, stack, 0, map[]);
    Ok((OptionObj(bound), rest))
  }

  /**
   * The builtin `UniformDistribution(0, 10)`: the arguments are pushed in
   * order, so 10 is on top, and the as-written factory binds it to `a`.
   */
  lemma OptionArgumentsReversedAsWritten()
    ensures var f := OptionFactory("UniformDistrubtion", ["a", "b"], [NumberType, NumberType]);
      var pushed := [NumberObj(10.0), NumberObj(0.0)];
      CallOptionFactoryAsWritten(f, 2, pushed) == Ok((OptionObj(map["a" := NumberObj(10.0), "b" := NumberObj(0.0)]), []))
  {
    var f := OptionFactory("UniformDistrubtion", ["a", "b"], [NumberType, NumberType]);
    var pushed := [NumberObj(10.0), NumberObj(0.0)];
    assert BindPoppedAsWritten(f.parameters, 2, pushed[2..], 2, map["a" := NumberObj(10.0), "b" := NumberObj(0.0)])
        == Ok((map["a" := NumberObj(10.0), "b" := NumberObj(0.0)], []));
    assert pushed[1..][1..] == pushed[2..];
  }

  /** As-written binding invariant: after popping `i` arguments, parameters `0 .. i` hold them, top first. */
  lemma {:induction false} BindPoppedAsWrittenBindsReversed(parameters: seq<string>, argCount: nat, stack: seq<DmlObject>,
                                                            i: nat, bound: map<string, DmlObject>, whole: seq<DmlObject>)
    requires argCount == |parameters| && i <= argCount
    requires forall a, b :: 0 <= a < b < |parameters| ==> parameters[a] != parameters[b]
    requires |whole| >= argCount && stack == whole[i..]
    requires forall k :: 0 <= k < i ==> parameters[k] in bound && bound[parameters[k]] == whole[k]
    ensures BindPoppedAsWritten(parameters, argCount, stack, i, bound).Ok?
    ensures var (b, rest) := BindPoppedAsWritten(parameters, argCount, stack, i, bound).value;
      rest == whole[argCount..] &&
      forall k :: 0 <= k < argCount ==> parameters[k] in b && b[parameters[k]] == whole[k]
    decreases argCount - i
  {
    if i < argCount {
      var bound' := bound[parameters[i] := stack[0]];
      forall k | 0 <= k < i + 1
        ensures parameters[k] in bound' && bound'[parameters[k]] == whole[k]
      {
        if k != i {
          assert parameters[k] != parameters[i];
        }
      }
      assert stack[1..] == whole[i + 1..];
      BindPoppedAsWrittenBindsReversed(parameters, argCount, stack[1..], i + 1, bound', whole);
    }
  }

  /**
   * The factory as written, called with one argument per (distinct)
   * parameter, binds the j-th parameter to the j-th argument from the end:
   * the argument order is reversed. It still pops exactly the arguments.
   */
  lemma CallOptionFactoryAsWrittenReverses(f: OptionFactory, args: seq<DmlObject>, below: seq<DmlObject>)
    requires |args| == |f.parameters|
    requires forall a, b :: 0 <= a < b < |f.parameters| ==> f.parameters[a] != f.parameters[b]
    ensures var stack := Reverse(args) + below;
      var r := CallOptionFactoryAsWritten(f, |args|, stack);
      r.Ok? && r.value.1 == below &&
      forall j :: 0 <= j < |args| ==>
        f.parameters[j] in r.value.0.bound && r.value.0.bound[f.parameters[j]] == args[|args| - 1 - j]
  {
    var stack := Reverse(args) + below;
    BindPoppedAsWrittenBindsReversed(f.parameters, |args|, stack, 0, map[], stack);
    assert stack[|args|..] == below;
  }

  /**
   * The option factory with the argument order every other builtin uses
   * (Atan2 pops its second argument first): the k-th pop is the last-but-k
   * argument, so it is bound to parameter `argCount - 1 - k`.
   */
  function BindPopped(parameters: seq<string>, argCount: int, stack: seq<DmlObject>, i: nat,
                      bound: map<string, DmlObject>): (r: Result<(map<string, DmlObject>, seq<DmlObject>)>)
    decreases argCount - i
  {
    if i >= argCount then Ok((bound, stack))
    else if |stack| == 0 then Throw(InvalidOperation)
    else if argCount - 1 - i >= |parameters| then Throw(IndexOutOfRange)
    else BindPopped(parameters, argCount, stack[1..], i + 1, bound[parameters[argCount - 1 - i] := stack[0]])
  }

  function CallOptionFactory(f: OptionFactory, argCount: int, stack: seq<DmlObject>): (r: Result<(DmlObject, seq<DmlObject>)>)
    ensures r.Ok? ==> r.value.0.OptionObj?
  {
    var (bound, rest) :- BindPopped(f.parameters, argCount, stack, 0, map[]);
    Ok((OptionObj(bound), rest))
  }

  /** Binding invariant: after popping `i` arguments, parameters `argCount-i ..` hold them. */
  lemma {:induction false} BindPoppedBindsInOrder(parameters: seq<string>, argCount: nat, stack: seq<DmlObject>,
                                                 i: nat, bound: map<string, DmlObject>, whole: seq<DmlObject>)
    requires argCount == |parameters| && i <= argCount
    requires forall a, b :: 0 <= a < b < |parameters| ==> parameters[a] != parameters[b]
    requires |whole| >= argCount && stack == whole[i..]
    requires forall k :: argCount - i <= k < argCount ==> parameters[k] in bound && bound[parameters[k]] == whole[argCount - 1 - k]
    ensures BindPopped(parameters, argCount, stack, i, bound).Ok?
    ensures var (b, rest) := BindPopped(parameters, argCount, stack, i, bound).value;
      rest == whole[argCount..] &&
      forall k :: 0 <= k < argCount ==> parameters[k] in b && b[parameters[k]] == whole[argCount - 1 - k]
    decreases argCount - i
  {
    if i < argCount {
      var bound' := bound[parameters[argCount - 1 - i] := stack[0]];
      forall k | argCount - (i + 1) <= k < argCount
        ensures parameters[k] in bound' && bound'[parameters[k]] == whole[argCount - 1 - k]
      {
        if k != argCount - 1 - i {
          assert parameters[k] != parameters[argCount - 1 - i];
        }
      }
      assert stack[1..] == whole[i + 1..];
      BindPoppedBindsInOrder(parameters, argCount, stack[1..], i + 1, bound', whole);
    }
  }

  /**
   * Calling the factory with one argument per (distinct) parameter binds the
   * j-th argument, in the order the call wrote them, to the j-th parameter, and
   * pops exactly the arguments.
   */
  lemma CallOptionFactoryBindsArguments(f: OptionFactory, args: seq<DmlObject>, below: seq<DmlObject>)
    requires |args| == |f.parameters|
    requires forall a, b :: 0 <= a < b < |f.parameters| ==> f.parameters[a] != f.parameters[b]
    ensures var stack := Reverse(args) + below;
      var r := CallOptionFactory(f, |args|, stack);
      r.Ok? && r.value.1 == below &&
      forall j :: 0 <= j < |args| ==> f.parameters[j] in r.value.0.bound && r.value.0.bound[f.parameters[j]] == args[j]
  {
    var stack := Reverse(args) + below;
    BindPoppedBindsInOrder(f.parameters, |args|, stack, 0, map[], stack);
    assert stack[|args|..] == below;
  }

  /** The parameters at positions `0 .. n`. */
  function ParametersBelow(parameters: seq<string>, n: nat): set<string>
    requires n <= |parameters|
  {
    set k | 0 <= k < n :: parameters[k]
  }

  /** With no more arguments than parameters, binding binds exactly the first `argCount` parameters. */
  lemma {:induction false} BindPoppedKeys(parameters: seq<string>, argCount: nat, stack: seq<DmlObject>, i: nat,
                                          bound: map<string, DmlObject>)
    requires argCount <= |parameters| && i <= argCount && |stack| >= argCount - i
    ensures BindPopped(parameters, argCount, stack, i, bound).Ok?
    ensures BindPopped(parameters, argCount, stack, i, bound).value.0.Keys ==
      bound.Keys + ParametersBelow(parameters, argCount - i)
    decreases argCount - i
  {
    if i < argCount {
      var j := argCount - 1 - i;
      assert ParametersBelow(parameters, j + 1) == ParametersBelow(parameters, j) + {parameters[j]};
      BindPoppedKeys(parameters, argCount, stack[1..], i + 1, bound[parameters[j] := stack[0]]);
    } else {
      assert ParametersBelow(parameters, 0) == {};
    }
  }

  /**
   * `CompatibleWithArgCount` is the check that makes the call complete: with
   * the arguments on the stack and distinct parameters, the factory binds
   * every parameter exactly when the count matches. Fewer arguments leave
   * the last parameter unbound, and more make the binding index past the
   * parameters.
   */
  lemma ArgCountCheckMeansCompleteBinding(f: OptionFactory, argCount: nat, stack: seq<DmlObject>)
    requires |stack| >= argCount
    requires forall a, b :: 0 <= a < b < |f.parameters| ==> f.parameters[a] != f.parameters[b]
    ensures var r := CallOptionFactory(f, argCount, stack);
      CompatibleWithArgCount(f, argCount) <==> r.Ok? && forall p :: p in f.parameters ==> p in r.value.0.bound
    ensures argCount > |f.parameters| ==> CallOptionFactory(f, argCount, stack) == Throw(IndexOutOfRange)
  {
    var n := |f.parameters|;
    if argCount <= n {
      BindPoppedKeys(f.parameters, argCount, stack, 0, map[]);
      var r := CallOptionFactory(f, argCount, stack);
      if argCount == n {
        forall p | p in f.parameters
          ensures p in r.value.0.bound
        {
          var k :| 0 <= k < n && f.parameters[k] == p;
          assert p in ParametersBelow(f.parameters, n);
        }
      } else {
        var last := f.parameters[n - 1];
        assert last !in ParametersBelow(f.parameters, argCount) by {
          forall k | 0 <= k < argCount
            ensures f.parameters[k] != last
          {
          }
        }
        assert last in f.parameters && last !in r.value.0.bound;
      }
    }
  }

  /** The stack after pushing `args` in order: the last argument is on top. */
  function Reverse<T>(args: seq<T>): (r: seq<T>)
    ensures |r| == |args|
    ensures forall k :: 0 <= k < |args| ==> r[k] == args[|args| - 1 - k]
  {
    if |args| == 0 then [] else Reverse(args[1..]) + [args[0]]
  }
}
