/**
 * VacuumTool.ApplyFilterParameters, ApplyTargetParameters and
 * GetParameterValueFromTsonNode: defaults for optional parameters, the set
 * of required names still unset, and typed values from the content file.
 */
module ParameterBinding {
  import opened Wrappers
  import opened Common
  import opened Tson
  import opened ParameterAttributes
  import opened FilterClasses

  // ---------------------------------------------------------------------
  // Values from nodes

  /** The C# cast (int)x of a double: truncation toward zero. */
  function TruncateToInt(x: real): (r: int)
    ensures x >= 0.0 ==> 0.0 <= r as real <= x < r as real + 1.0
    ensures x < 0.0 ==> r as real - 1.0 < x <= r as real <= 0.0
  {
    if x >= 0.0 then x.Floor else -((-x).Floor)
  }

  /** GetParameterValueFromTsonNode: Some value for the four supported types, None for any other. */
  function ConvertParameter(t: ParamType, node: TsonNode): Result<Option<Value>, Error>
  {
    match t
    case DoubleType => if node.NumberNode? then Success(Some(DoubleValue(node.number))) else Failure(NotANumber)
    case IntType => if node.NumberNode? then Success(Some(IntValue(TruncateToInt(node.number)))) else Failure(NotANumber)
    case StringType => if node.StringNode? then Success(Some(StringValue(node.text))) else Failure(NotAString)
    case BoolType => if node.BooleanNode? then Success(Some(BoolValue(node.flag))) else Failure(NotBoolean)
    case OtherType(_) => Success(None)
  }

  /** The parameter type a value belongs to. */
  function TypeOf(v: Value): ParamType
  {
    match v
    case BoolValue(_) => BoolType
    case IntValue(_) => IntType
    case DoubleValue(_) => DoubleType
    case StringValue(_) => StringType
  }

  /** The node that writes a value in the content file. */
  function NodeOf(v: Value): TsonNode
  {
    match v
    case BoolValue(b) => BooleanNode(b)
    case IntValue(n) => NumberNode(n as real)
    case DoubleValue(d) => NumberNode(d)
    case StringValue(s) => StringNode(s)
  }

  /** The node kind each supported type accepts: a number for double and int, a string, a boolean. */
  predicate Fits(t: ParamType, node: TsonNode)
  {
    match t
    case DoubleType => node.NumberNode?
    case IntType => node.NumberNode?
    case StringType => node.StringNode?
    case BoolType => node.BooleanNode?
    case OtherType(_) => false
  }

  /**
   * A supported type yields a value of that type exactly when the node has
   * the kind it accepts, and an error otherwise; any other type yields no
   * value at all.
   */
  lemma ConvertTyped(t: ParamType, node: TsonNode)
    ensures t.OtherType? <==> ConvertParameter(t, node) == Success(None)
    ensures !t.OtherType? ==> (ConvertParameter(t, node).Success? <==> Fits(t, node))
    ensures ConvertParameter(t, node).Success? && ConvertParameter(t, node).value.Some? ==>
      TypeOf(ConvertParameter(t, node).value.value) == t
  {
  }

  /** Writing a value in the content file and reading it back gives the same value. */
  lemma ConvertRoundTrip(v: Value)
    ensures ConvertParameter(TypeOf(v), NodeOf(v)) == Success(Some(v))
  {
    if v.IntValue? {
      var n := v.number;
      if n < 0 {
        assert (-(n as real)).Floor == -n;
      }
    }
  }

  // ---------------------------------------------------------------------
  // Binding

  /** List.Find by property name: the first parameter with that name. */
  function Find(params: seq<AttributedProperty>, key: string): (r: Option<nat>)
    ensures r.Some? ==> r.value < |params| && params[r.value].property.name == key
    ensures r.Some? ==> forall j :: 0 <= j < r.value ==> params[j].property.name != key
    ensures r.None? ==> forall j :: 0 <= j < |params| ==> params[j].property.name != key
  {
    if params == [] then None
    else if params[0].property.name == key then Some(0)
    else match Find(params[1..], key)
      case None => None
      case Some(i) => Some(i + 1)
  }

  /** The state of a binding: the values set so far, the required names not yet set, the warnings and the error if one was thrown. */
  datatype Binding = Binding(values: map<string, Value>, required: set<string>, warnings: seq<string>, error: Option<Error>)

  /** The first loop: defaults of the optional parameters set, in order. */
  function DefaultValues(params: seq<AttributedProperty>, values: map<string, Value>): map<string, Value>
  {
    if params == [] then values
    else
      var p := params[|params| - 1];
      var m := DefaultValues(params[..|params| - 1], values);
      if Required(p.attribute) then m else m[p.property.name := p.attribute.default.value]
  }

  /** The first loop: the names of the required parameters. */
  function RequiredNames(params: seq<AttributedProperty>): set<string>
  {
    if params == [] then {}
    else
      var p := params[|params| - 1];
      RequiredNames(params[..|params| - 1]) + if Required(p.attribute) then {p.property.name} else {}
  }

  /** One supplied key/value pair of the second loop. */
  function BindKey(params: seq<AttributedProperty>, filter: string, b: Binding, kv: (string, TsonNode)): Binding
  {
    if b.error.Some? then b
    else
      match Find(params, kv.0)
      case None => b.(warnings := b.warnings + [kv.0])
      case Some(i) =>
        var p := params[i].property;
        if !p.canWrite then b.(error := Some(ParameterNotWritable(kv.0, filter)))
        else
          match ConvertParameter(p.propertyType, kv.1)
          case Failure(e) => b.(error := Some(e))
          case Success(None) => b.(error := Some(UnsupportedParameterType(kv.0, filter)))
          case Success(Some(v)) => b.(values := b.values[p.name := v], required := b.required - {p.name})
  }

  /** The second loop, as a fold over the supplied pairs in document order. */
  function BindKeys(params: seq<AttributedProperty>, filter: string, b: Binding, kvs: Parameters): Binding
  {
    if kvs == [] then b else BindKey(params, filter, BindKeys(params, filter, b, kvs[..|kvs| - 1]), kvs[|kvs| - 1])
  }

  /** Both loops, from the instance's current values. */
  function Bind(params: seq<AttributedProperty>, filter: string, values: map<string, Value>, node: Option<Parameters>): Binding
  {
    var b0 := Binding(DefaultValues(params, values), RequiredNames(params), [], None);
    if node.None? then b0 else BindKeys(params, filter, b0, node.value)
  }

  // ---------------------------------------------------------------------
  // What binding promises

  /** Every supplied key that the filter declares names a writable parameter whose type accepts the node. */
  predicate AllConvertible(params: seq<AttributedProperty>, kvs: Parameters)
  {
    forall i :: 0 <= i < |kvs| ==> ConvertsAt(params, kvs, i)
  }

  /** The supplied keys the filter does not declare, in document order: one warning each. */
  function UnknownKeys(params: seq<AttributedProperty>, kvs: Parameters): seq<string>
  {
    if kvs == [] then []
    else UnknownKeys(params, kvs[..|kvs| - 1]) + if Find(params, kvs[|kvs| - 1].0).None? then [kvs[|kvs| - 1].0] else []
  }

  /** The supplied keys the filter declares. */
  function DeclaredKeys(params: seq<AttributedProperty>, kvs: Parameters): set<string>
  {
    if kvs == [] then {}
    else DeclaredKeys(params, kvs[..|kvs| - 1]) + if Find(params, kvs[|kvs| - 1].0).Some? then {kvs[|kvs| - 1].0} else {}
  }

  /** The supplied keys. */
  function Keys(kvs: Parameters): set<string>
  {
    if kvs == [] then {} else Keys(kvs[..|kvs| - 1]) + {kvs[|kvs| - 1].0}
  }

  /**
   * The second loop throws exactly when some declared key names a parameter
   * that is not writable or whose type rejects the node; until then it
   * warns once per undeclared key and takes each declared key off the
   * required set.
   */
  lemma {:induction false} BindKeysSpec(params: seq<AttributedProperty>, filter: string, b: Binding, kvs: Parameters)
    requires b.error.None?
    ensures BindKeys(params, filter, b, kvs).error.None? <==> AllConvertible(params, kvs)
    ensures BindKeys(params, filter, b, kvs).error.None? ==>
      BindKeys(params, filter, b, kvs).warnings == b.warnings + UnknownKeys(params, kvs)
      && BindKeys(params, filter, b, kvs).required == b.required - DeclaredKeys(params, kvs)
  {
    if kvs != [] {
      var init := kvs[..|kvs| - 1];
      var last := kvs[|kvs| - 1];
      BindKeysSpec(params, filter, b, init);
      assert forall i :: 0 <= i < |init| ==> ConvertsAt(params, init, i) == ConvertsAt(params, kvs, i);
      var mid := BindKeys(params, filter, b, init);
      if mid.error.None? {
        assert AllConvertible(params, kvs) <==> AllConvertible(params, init) && ConvertsAt(params, kvs, |kvs| - 1);
      } else {
        assert !AllConvertible(params, kvs) by {
          var i :| 0 <= i < |init| && !ConvertsAt(params, init, i);
          assert !ConvertsAt(params, kvs, i);
        }
      }
    }
  }

  /** The pair at position i is undeclared, or it names a writable parameter whose type accepts the node. */
  predicate ConvertsAt(params: seq<AttributedProperty>, kvs: Parameters, i: nat)
    requires i < |kvs|
  {
    Find(params, kvs[i].0).Some? ==>
      var p := params[Find(params, kvs[i].0).value].property;
      p.canWrite && ConvertParameter(p.propertyType, kvs[i].1).Success?
      && ConvertParameter(p.propertyType, kvs[i].1).value.Some?
  }

  /** The required names are among the declared names. */
  lemma {:induction false} RequiredAreDeclared(params: seq<AttributedProperty>, name: string)
    requires name in RequiredNames(params)
    ensures Find(params, name).Some?
  {
    var init := params[..|params| - 1];
    if name in RequiredNames(init) {
      RequiredAreDeclared(init, name);
      var i := Find(init, name).value;
      assert params[i] == init[i];
    } else {
      assert params[|params| - 1].property.name == name;
    }
  }

  /** A declared key is supplied, and a supplied key that is declared counts as declared. */
  lemma {:induction false} DeclaredKeysAreKeys(params: seq<AttributedProperty>, kvs: Parameters, name: string)
    ensures name in DeclaredKeys(params, kvs) <==> name in Keys(kvs) && Find(params, name).Some?
  {
    if kvs != [] {
      DeclaredKeysAreKeys(params, kvs[..|kvs| - 1], name);
    }
  }

  /**
   * Binding completes without error exactly when every declared key
   * converts and every required parameter is supplied; the warnings are the
   * undeclared keys.
   */
  lemma BindSucceedsIff(params: seq<AttributedProperty>, filter: string, values: map<string, Value>, kvs: Parameters)
    ensures var b := Bind(params, filter, values, Some(kvs));
      (b.error.None? && b.required == {}) <==> (AllConvertible(params, kvs) && RequiredNames(params) <= Keys(kvs))
    ensures Bind(params, filter, values, Some(kvs)).error.None? ==>
      Bind(params, filter, values, Some(kvs)).warnings == UnknownKeys(params, kvs)
  {
    var b0 := Binding(DefaultValues(params, values), RequiredNames(params), [], None);
    BindKeysSpec(params, filter, b0, kvs);
    assert [] + UnknownKeys(params, kvs) == UnknownKeys(params, kvs);
    forall name | name in RequiredNames(params)
      ensures name in DeclaredKeys(params, kvs) <==> name in Keys(kvs)
    {
      RequiredAreDeclared(params, name);
      DeclaredKeysAreKeys(params, kvs, name);
    }
  }

  /** The errors binding can raise. */
  predicate IsBindError(e: Error, filter: string)
  {
    e == NotANumber || e == NotAString || e == NotBoolean
    || (e.ParameterNotWritable? && e.filter == filter)
    || (e.UnsupportedParameterType? && e.filter == filter)
  }

  /** An error raised by the second loop is a conversion error, or names a parameter of this filter it cannot write or convert. */
  lemma {:induction false} BindKeysErrorKinds(params: seq<AttributedProperty>, filter: string, b: Binding, kvs: Parameters)
    requires b.error.None?
    ensures BindKeys(params, filter, b, kvs).error.Some? ==> IsBindError(BindKeys(params, filter, b, kvs).error.value, filter)
  {
    if kvs != [] {
      BindKeysErrorKinds(params, filter, b, kvs[..|kvs| - 1]);
    }
  }

  /** How binding can fail: with a binding error, or with a required parameter of this filter left unset. */
  lemma BindFailureKinds(params: seq<AttributedProperty>, filter: string, values: map<string, Value>,
                         node: Option<Parameters>, r: Outcome<Error>)
    requires Completes(Bind(params, filter, values, node), filter, r) && r.Fail?
    ensures IsBindError(r.error, filter)
      || (r.error.RequiredParameterNotSet? && r.error.filter == filter && r.error.parameter in RequiredNames(params))
  {
    var b0 := Binding(DefaultValues(params, values), RequiredNames(params), [], None);
    if node.Some? {
      BindKeysErrorKinds(params, filter, b0, node.value);
      BindKeysRequiredShrinks(params, filter, b0, node.value);
    }
  }

  /** The second loop only removes names from the required set. */
  lemma {:induction false} BindKeysRequiredShrinks(params: seq<AttributedProperty>, filter: string, b: Binding, kvs: Parameters)
    ensures BindKeys(params, filter, b, kvs).required <= b.required
  {
    if kvs != [] {
      BindKeysRequiredShrinks(params, filter, b, kvs[..|kvs| - 1]);
    }
  }

  /** Without a parameter node, binding succeeds exactly when no parameter is required. */
  lemma BindWithoutNode(params: seq<AttributedProperty>, filter: string, values: map<string, Value>)
    ensures var b := Bind(params, filter, values, None);
      b.error.None? && b.warnings == [] && b.required == RequiredNames(params)
  {
  }

  /** Distinct parameter names. */
  predicate NamesDistinct(params: seq<AttributedProperty>)
  {
    forall i, j :: 0 <= i < j < |params| ==> params[i].property.name != params[j].property.name
  }

  /** The first loop sets each optional parameter to its default. */
  lemma {:induction false} DefaultsSet(params: seq<AttributedProperty>, values: map<string, Value>, i: nat)
    requires NamesDistinct(params) && i < |params| && !Required(params[i].attribute)
    ensures params[i].property.name in DefaultValues(params, values)
    ensures DefaultValues(params, values)[params[i].property.name] == params[i].attribute.default.value
  {
    var init := params[..|params| - 1];
    if i < |init| {
      DefaultsSet(init, values, i);
      assert init[i] == params[i];
    }
  }

  /** The second loop never touches a parameter whose name is not supplied. */
  lemma {:induction false} UnsuppliedUntouched(params: seq<AttributedProperty>, filter: string, b: Binding, kvs: Parameters, name: string)
    requires name !in Keys(kvs)
    ensures name in BindKeys(params, filter, b, kvs).values <==> name in b.values
    ensures name in b.values ==> BindKeys(params, filter, b, kvs).values[name] == b.values[name]
  {
    if kvs != [] {
      UnsuppliedUntouched(params, filter, b, kvs[..|kvs| - 1], name);
    }
  }

  /**
   * An optional parameter that the node does not mention keeps its
   * default, whatever else the node holds.
   */
  lemma UnsuppliedOptionalGetsDefault(params: seq<AttributedProperty>, filter: string, values: map<string, Value>,
                                      node: Option<Parameters>, i: nat)
    requires NamesDistinct(params) && i < |params| && !Required(params[i].attribute)
    requires node.Some? ==> params[i].property.name !in Keys(node.value)
    ensures var b := Bind(params, filter, values, node);
      params[i].property.name in b.values && b.values[params[i].property.name] == params[i].attribute.default.value
  {
    DefaultsSet(params, values, i);
    if node.Some? {
      var b0 := Binding(DefaultValues(params, values), RequiredNames(params), [], None);
      UnsuppliedUntouched(params, filter, b0, node.value, params[i].property.name);
    }
  }

  /** The pair at position i is the last one naming its key. */
  predicate LastOccurrence(kvs: Parameters, i: nat)
    requires i < |kvs|
  {
    forall j :: i < j < |kvs| ==> kvs[j].0 != kvs[i].0
  }

  /** Once bound, a pair's value stays: later pairs with other keys do not touch it. */
  lemma {:induction false} SuppliedValueKept(params: seq<AttributedProperty>, filter: string, b: Binding, kvs: Parameters, i: nat)
    requires i < |kvs| && LastOccurrence(kvs, i)
    requires BindKeys(params, filter, b, kvs).error.None?
    requires Find(params, kvs[i].0).Some?
    ensures var p := params[Find(params, kvs[i].0).value].property;
      ConvertParameter(p.propertyType, kvs[i].1).Success? && ConvertParameter(p.propertyType, kvs[i].1).value.Some?
      && kvs[i].0 in BindKeys(params, filter, b, kvs).values
      && BindKeys(params, filter, b, kvs).values[kvs[i].0] == ConvertParameter(p.propertyType, kvs[i].1).value.value
  {
    var init := kvs[..|kvs| - 1];
    assert BindKeys(params, filter, b, init).error.None?;
    if i < |init| {
      assert init[i] == kvs[i];
      assert LastOccurrence(init, i) by {
        forall j | i < j < |init|
          ensures init[j].0 != init[i].0
        {
          assert init[j] == kvs[j];
        }
      }
      SuppliedValueKept(params, filter, b, init, i);
    }
  }

  /**
   * How a binding ends: with its error if one was thrown, otherwise with
   * success exactly when no required name is left, and else with one of the
   * names left (HashSet.First).
   */
  predicate Completes(b: Binding, filter: string, r: Outcome<Error>)
  {
    (b.error.Some? ==> r == Fail(b.error.value))
    && (b.error.None? ==> (r.Pass? <==> b.required == {}))
    && (b.error.None? && r.Fail? ==>
          r.error.RequiredParameterNotSet? && r.error.parameter in b.required && r.error.filter == filter)
  }

  /**
   * The shared body of ApplyFilterParameters (scope FilterScope) and
   * ApplyTargetParameters (scope TargetScope). Returns the warnings printed
   * for undeclared keys and whether the binding completed.
   */
  method ApplyParameters(fc: FilterClass, scope: Scope, node: Option<Parameters>)
    returns (warnings: seq<string>, r: Outcome<Error>)
    modifies fc
    ensures var b := Bind(fc.ParametersIn(scope), fc.name, old(fc.parameterValues), node);
      fc.parameterValues == b.values && warnings == b.warnings && Completes(b, fc.name, r)
    ensures fc.extensions == old(fc.extensions)
  {
    var params := fc.ParametersIn(scope);
    var required: set<string> := {};
    var values := fc.parameterValues;
    var k := 0;
    while k < |params|
      invariant 0 <= k <= |params|
      invariant values == DefaultValues(params[..k], old(fc.parameterValues))
      invariant required == RequiredNames(params[..k])
    {
      assert params[..k + 1][..k] == params[..k];
      var attrProp := params[k];
      if Required(attrProp.attribute) {
        required := required + {attrProp.property.name};
      } else {
        values := values[attrProp.property.name := attrProp.attribute.default.value];
      }
      k := k + 1;
    }
    assert params[..k] == params;
    fc.parameterValues := values;
    warnings := [];
    if node.Some? {
      var kvs := node.value;
      ghost var b0 := Binding(values, required, [], None);
      k := 0;
      while k < |kvs|
        invariant 0 <= k <= |kvs|
        invariant BindKeys(params, fc.name, b0, kvs[..k]) == Binding(fc.parameterValues, required, warnings, None)
        invariant fc.extensions == old(fc.extensions)
      {
        assert kvs[..k + 1][..k] == kvs[..k];
        var key := kvs[k].0;
        var found := Find(params, key);
        if found.None? {
          warnings := warnings + [key];
          k := k + 1;
          continue;
        }
        var p := params[found.value].property;
        if !p.canWrite {
          BindErrorSticks(params, fc.name, b0, kvs, k + 1);
          return warnings, Fail(ParameterNotWritable(key, fc.name));
        }
        var obj := ConvertParameter(p.propertyType, kvs[k].1);
        if obj.Failure? {
          BindErrorSticks(params, fc.name, b0, kvs, k + 1);
          return warnings, Fail(obj.error);
        }
        if obj.value.None? {
          BindErrorSticks(params, fc.name, b0, kvs, k + 1);
          return warnings, Fail(UnsupportedParameterType(key, fc.name));
        }
        fc.parameterValues := fc.parameterValues[p.name := obj.value.value];
        required := required - {p.name};
        k := k + 1;
      }
      assert kvs[..k] == kvs;
    }
    if required != {} {
      var name :| name in required;
      return warnings, Fail(RequiredParameterNotSet(name, fc.name));
    }
    return warnings, Pass;
  }

  /** Once an error is recorded, the remaining pairs change nothing. */
  lemma {:induction false} BindErrorSticks(params: seq<AttributedProperty>, filter: string, b: Binding, kvs: Parameters, k: nat)
    requires k <= |kvs|
    requires BindKeys(params, filter, b, kvs[..k]).error.Some?
    ensures BindKeys(params, filter, b, kvs) == BindKeys(params, filter, b, kvs[..k])
    decreases |kvs| - k
  {
    if k < |kvs| {
      assert kvs[..k + 1][..k] == kvs[..k];
      BindErrorSticks(params, filter, b, kvs, k + 1);
    } else {
      assert kvs[..k] == kvs;
    }
  }
}
