/**
 * FilterClass: a registered filter type, its parameter schema and the
 * filter instance whose properties the engine sets by reflection.
 */
module FilterClasses {
  import opened Wrappers
  import opened Common
  import opened ParameterAttributes

  /** A public instance property of a filter type, with its parameter attributes. */
  datatype PropertyInfo = PropertyInfo(
    name: string,
    propertyType: ParamType,
    canRead: bool,
    canWrite: bool,
    attributes: seq<ParameterAttribute>)

  /** A property that carries exactly one parameter attribute. */
  datatype AttributedProperty = AttributedProperty(attribute: ParameterAttribute, property: PropertyInfo)

  /** What reflection reports about a type of a filter assembly. */
  datatype FilterType = FilterType(
    fullName: string,
    isAbstract: bool,
    implementsFilter: bool,
    properties: seq<PropertyInfo>,
    extensions: seq<Extension>)

  /** The result of the constructor's property loop. */
  datatype Classification = Classification(
    targetProperty: Option<PropertyInfo>,
    contextProperty: Option<PropertyInfo>,
    extensionsProperty: Option<PropertyInfo>,
    filterParameters: seq<AttributedProperty>,
    targetParameters: seq<AttributedProperty>)

  const NoProperties := Classification(None, None, None, [], [])

  predicate IsSlotName(name: string)
  {
    name == "Target" || name == "Context" || name == "Extensions"
  }

  /** A property that becomes a parameter: not a special slot, exactly one parameter attribute. */
  predicate IsParameter(p: PropertyInfo)
  {
    !IsSlotName(p.name) && |p.attributes| == 1
  }

  function Names(aps: seq<AttributedProperty>): (r: seq<string>)
    ensures |r| == |aps|
    ensures forall i :: 0 <= i < |aps| ==> r[i] == aps[i].property.name
  {
    if aps == [] then [] else Names(aps[..|aps| - 1]) + [aps[|aps| - 1].property.name]
  }

  predicate Distinct<T(==)>(s: seq<T>)
  {
    forall i, j :: 0 <= i < j < |s| ==> s[i] != s[j]
  }

  /** One iteration of the constructor's loop over the type's properties. */
  function ClassifyStep(typeName: string, c: Classification, p: PropertyInfo): Result<Classification, Error>
  {
    if p.name == "Target" then Success(c.(targetProperty := Some(p)))
    else if p.name == "Context" then Success(c.(contextProperty := Some(p)))
    else if p.name == "Extensions" then Success(c.(extensionsProperty := Some(p)))
    else if |p.attributes| != 1 then Success(c)
    else if !(p.canRead && p.canWrite) then Failure(PropertyNotReadWrite(p.name, typeName))
    else if ForFilter(p.attributes[0]) then
      if p.name in Names(c.filterParameters) then Failure(DuplicateParameter(p.name, typeName))
      else Success(c.(filterParameters := c.filterParameters + [AttributedProperty(p.attributes[0], p)]))
    else
      if p.name in Names(c.targetParameters) then Failure(DuplicateParameter(p.name, typeName))
      else Success(c.(targetParameters := c.targetParameters + [AttributedProperty(p.attributes[0], p)]))
  }

  /** The constructor's loop over `props`, as a fold. */
  function Classify(typeName: string, props: seq<PropertyInfo>): Result<Classification, Error>
  {
    if props == [] then Success(NoProperties)
    else
      match Classify(typeName, props[..|props| - 1])
      case Failure(e) => Failure(e)
      case Success(c) => ClassifyStep(typeName, c, props[|props| - 1])
  }

  /** The parameters of the given scope, in property order. */
  function ParametersOf(props: seq<PropertyInfo>, scope: Scope): (r: seq<AttributedProperty>)
    ensures forall ap :: ap in r ==>
      (ap.property in props && IsParameter(ap.property)
       && ap.attribute == ap.property.attributes[0] && ap.attribute.scope == scope)
  {
    if props == [] then []
    else
      var p := props[|props| - 1];
      ParametersOf(props[..|props| - 1], scope)
        + if IsParameter(p) && p.attributes[0].scope == scope then [AttributedProperty(p.attributes[0], p)] else []
  }

  /** Every attributed property can be read and written. */
  predicate AllReadWrite(props: seq<PropertyInfo>)
  {
    forall p :: p in props && IsParameter(p) ==> p.canRead && p.canWrite
  }

  /**
   * A successful classification puts every single-attributed, non-slot
   * property into the list of its scope, in property order; the special
   * slots never become parameters.
   */
  lemma {:induction false} ClassifyParameters(typeName: string, props: seq<PropertyInfo>)
    requires Classify(typeName, props).Success?
    ensures Classify(typeName, props).value.filterParameters == ParametersOf(props, FilterScope)
    ensures Classify(typeName, props).value.targetParameters == ParametersOf(props, TargetScope)
  {
    if props != [] {
      var init, p := props[..|props| - 1], props[|props| - 1];
      assert Classify(typeName, init).Success?;
      ClassifyParameters(typeName, init);
      ClassifyStepParameters(typeName, Classify(typeName, init).value, p);
    }
  }

  /** A successful step appends the property to the list of its scope, if it is a parameter, and to no other. */
  lemma ClassifyStepParameters(typeName: string, c: Classification, p: PropertyInfo)
    requires ClassifyStep(typeName, c, p).Success?
    ensures ClassifyStep(typeName, c, p).value.filterParameters == c.filterParameters
      + if IsParameter(p) && p.attributes[0].scope == FilterScope then [AttributedProperty(p.attributes[0], p)] else []
    ensures ClassifyStep(typeName, c, p).value.targetParameters == c.targetParameters
      + if IsParameter(p) && p.attributes[0].scope == TargetScope then [AttributedProperty(p.attributes[0], p)] else []
  {
    if !IsParameter(p) {
      assert c.filterParameters + [] == c.filterParameters && c.targetParameters + [] == c.targetParameters;
    } else if p.attributes[0].scope == FilterScope {
      assert c.targetParameters + [] == c.targetParameters;
    } else {
      assert c.filterParameters + [] == c.filterParameters;
    }
  }

  /** What a successful classification needs of the type's properties. */
  predicate Classifiable(props: seq<PropertyInfo>)
  {
    AllReadWrite(props)
    && Distinct(Names(ParametersOf(props, FilterScope)))
    && Distinct(Names(ParametersOf(props, TargetScope)))
  }

  /**
   * Classification succeeds exactly when every attributed property is
   * read/write and no name is added twice to the same parameter list.
   */
  lemma {:induction false} ClassifySucceedsIff(typeName: string, props: seq<PropertyInfo>)
    ensures Classify(typeName, props).Success? <==> Classifiable(props)
  {
    if props != [] {
      var init := props[..|props| - 1];
      var p := props[|props| - 1];
      assert props == init + [p];
      ClassifySucceedsIff(typeName, init);
      AllReadWriteSnoc(init, p);
      DistinctNamesSnoc(init, p, FilterScope);
      DistinctNamesSnoc(init, p, TargetScope);
      if Classify(typeName, init).Success? {
        var c := Classify(typeName, init).value;
        ClassifyParameters(typeName, init);
        ClassifyStepSucceedsIff(typeName, c, p);
        assert Classify(typeName, props) == ClassifyStep(typeName, c, p);
      } else {
        assert Classify(typeName, props).Failure?;
      }
    }
  }

  /** One step fails exactly on a non-read/write parameter or a name already in its list. */
  lemma ClassifyStepSucceedsIff(typeName: string, c: Classification, p: PropertyInfo)
    ensures ClassifyStep(typeName, c, p).Success? <==>
      (IsParameter(p) ==>
        (p.canRead && p.canWrite
         && (p.attributes[0].scope == FilterScope ==> p.name !in Names(c.filterParameters))
         && (p.attributes[0].scope == TargetScope ==> p.name !in Names(c.targetParameters))))
  {
  }

  lemma AllReadWriteSnoc(init: seq<PropertyInfo>, p: PropertyInfo)
    ensures AllReadWrite(init + [p]) <==> AllReadWrite(init) && (IsParameter(p) ==> p.canRead && p.canWrite)
  {
    assert forall q :: q in init + [p] <==> q in init || q == p;
  }

  lemma DistinctNamesSnoc(init: seq<PropertyInfo>, p: PropertyInfo, scope: Scope)
    ensures Distinct(Names(ParametersOf(init + [p], scope))) <==>
      (Distinct(Names(ParametersOf(init, scope)))
       && (IsParameter(p) && p.attributes[0].scope == scope ==> p.name !in Names(ParametersOf(init, scope))))
  {
    assert (init + [p])[..|init|] == init;
    if IsParameter(p) && p.attributes[0].scope == scope {
      var a := ParametersOf(init, scope);
      assert ParametersOf(init + [p], scope) == a + [AttributedProperty(p.attributes[0], p)];
      assert Names(a + [AttributedProperty(p.attributes[0], p)]) == Names(a) + [p.name];
      DistinctAppend(Names(a), p.name);
    } else {
      assert ParametersOf(init + [p], scope) == ParametersOf(init, scope);
    }
  }

  lemma DistinctAppend<T>(s: seq<T>, x: T)
    ensures Distinct(s + [x]) <==> Distinct(s) && x !in s
  {
    var t := s + [x];
    assert forall i :: 0 <= i < |s| ==> t[i] == s[i];
    assert t[|s|] == x;
  }

  /** When the type's property names are unique, no name is both a filter and a target parameter. */
  lemma {:induction false} ParameterScopesDisjoint(props: seq<PropertyInfo>, name: string)
    requires forall i, j :: 0 <= i < j < |props| ==> props[i].name != props[j].name
    ensures !(name in Names(ParametersOf(props, FilterScope)) && name in Names(ParametersOf(props, TargetScope)))
  {
    if props != [] {
      var init := props[..|props| - 1];
      var p := props[|props| - 1];
      UniqueNamesSplit(props, init);
      ParameterScopesDisjoint(init, name);
      ParametersOfLast(props, init, p, FilterScope);
      ParametersOfLast(props, init, p, TargetScope);
      if p.name == name {
        NamesAvoid(init, FilterScope, name);
        NamesAvoid(init, TargetScope, name);
      }
    }
  }

  /** Unique names stay unique without the last property, and none of the others has its name. */
  lemma UniqueNamesSplit(props: seq<PropertyInfo>, init: seq<PropertyInfo>)
    requires props != [] && init == props[..|props| - 1]
    requires forall i, j :: 0 <= i < j < |props| ==> props[i].name != props[j].name
    ensures forall i, j :: 0 <= i < j < |init| ==> init[i].name != init[j].name
    ensures forall i :: 0 <= i < |init| ==> init[i].name != props[|props| - 1].name
  {
    assert forall i :: 0 <= i < |init| ==> init[i] == props[i];
  }

  /** The parameter names of a scope gain the last property's name exactly when it is a parameter of that scope. */
  lemma ParametersOfLast(props: seq<PropertyInfo>, init: seq<PropertyInfo>, p: PropertyInfo, scope: Scope)
    requires props != [] && init == props[..|props| - 1] && p == props[|props| - 1]
    ensures Names(ParametersOf(props, scope)) == Names(ParametersOf(init, scope))
      + if IsParameter(p) && p.attributes[0].scope == scope then [p.name] else []
  {
    assert props == init + [p];
    ParametersOfSnoc(init, p, scope);
  }

  lemma ParametersOfSnoc(init: seq<PropertyInfo>, p: PropertyInfo, scope: Scope)
    ensures Names(ParametersOf(init + [p], scope)) ==
      Names(ParametersOf(init, scope)) + if IsParameter(p) && p.attributes[0].scope == scope then [p.name] else []
  {
    assert (init + [p])[..|init|] == init;
    if IsParameter(p) && p.attributes[0].scope == scope {
      var a := ParametersOf(init, scope);
      assert Names(a + [AttributedProperty(p.attributes[0], p)]) == Names(a) + [p.name];
    }
  }

  lemma NamesAvoid(props: seq<PropertyInfo>, scope: Scope, name: string)
    requires forall i :: 0 <= i < |props| ==> props[i].name != name
    ensures name !in Names(ParametersOf(props, scope))
  {
    var r := ParametersOf(props, scope);
    forall k | 0 <= k < |r|
      ensures Names(r)[k] != name
    {
      assert r[k] in r;
    }
  }

  /** Some property of the type has this name. */
  predicate HasPropertyNamed(props: seq<PropertyInfo>, name: string)
  {
    exists i :: 0 <= i < |props| && props[i].name == name
  }

  /**
   * A successful classification fills the Target, Context and Extensions
   * slots exactly when the type has a property of that name.
   */
  lemma {:induction false} ClassifySlots(typeName: string, props: seq<PropertyInfo>)
    requires Classify(typeName, props).Success?
    ensures Classify(typeName, props).value.targetProperty.Some? <==> HasPropertyNamed(props, "Target")
    ensures Classify(typeName, props).value.contextProperty.Some? <==> HasPropertyNamed(props, "Context")
    ensures Classify(typeName, props).value.extensionsProperty.Some? <==> HasPropertyNamed(props, "Extensions")
  {
    if props != [] {
      var init, p := props[..|props| - 1], props[|props| - 1];
      assert Classify(typeName, init).Success?;
      ClassifySlots(typeName, init);
      forall name | true
        ensures HasPropertyNamed(props, name) <==> HasPropertyNamed(init, name) || p.name == name
      {
        if HasPropertyNamed(props, name) && p.name != name {
          var i :| 0 <= i < |props| && props[i].name == name;
          assert init[i] == props[i];
        }
        if HasPropertyNamed(init, name) {
          var i :| 0 <= i < |init| && init[i].name == name;
          assert props[i] == init[i];
        }
      }
    }
  }

  /** Once the fold has failed, later properties do not change the error. */
  lemma {:induction false} ClassifyFailureSticks(typeName: string, props: seq<PropertyInfo>, k: nat)
    requires k <= |props|
    requires Classify(typeName, props[..k]).Failure?
    ensures Classify(typeName, props) == Classify(typeName, props[..k])
    decreases |props| - k
  {
    if k < |props| {
      assert props[..k + 1][..k] == props[..k];
      ClassifyFailureSticks(typeName, props, k + 1);
    } else {
      assert props[..k] == props;
    }
  }

  /** The constructor's property loop: sorts properties into the slots and the two parameter lists. */
  method ClassifyProperties(typeName: string, props: seq<PropertyInfo>) returns (r: Result<Classification, Error>)
    ensures r == Classify(typeName, props)
  {
    var c := NoProperties;
    var k := 0;
    while k < |props|
      invariant 0 <= k <= |props|
      invariant Classify(typeName, props[..k]) == Success(c)
    {
      var p := props[k];
      assert props[..k + 1][..k] == props[..k];
      if p.name == "Target" {
        c := c.(targetProperty := Some(p));
      } else if p.name == "Context" {
        c := c.(contextProperty := Some(p));
      } else if p.name == "Extensions" {
        c := c.(extensionsProperty := Some(p));
      } else if |p.attributes| == 1 {
        if !(p.canRead && p.canWrite) {
          ClassifyFailureSticks(typeName, props, k + 1);
          return Failure(PropertyNotReadWrite(p.name, typeName));
        }
        var property := AttributedProperty(p.attributes[0], p);
        if ForFilter(p.attributes[0]) {
          if p.name in Names(c.filterParameters) {
            ClassifyFailureSticks(typeName, props, k + 1);
            return Failure(DuplicateParameter(p.name, typeName));
          }
          c := c.(filterParameters := c.filterParameters + [property]);
        } else {
          if p.name in Names(c.targetParameters) {
            ClassifyFailureSticks(typeName, props, k + 1);
            return Failure(DuplicateParameter(p.name, typeName));
          }
          c := c.(targetParameters := c.targetParameters + [property]);
        }
      }
      k := k + 1;
    }
    assert props[..k] == props;
    return Success(c);
  }

  /** The only errors classification raises name the type and one of its properties. */
  lemma {:induction false} ClassifyErrorKinds(typeName: string, props: seq<PropertyInfo>)
    requires Classify(typeName, props).Failure?
    ensures var e := Classify(typeName, props).error;
      (e.PropertyNotReadWrite? && e.filter == typeName && exists p :: p in props && p.name == e.property && IsParameter(p) && !(p.canRead && p.canWrite))
      || (e.DuplicateParameter? && e.filter == typeName && exists p :: p in props && p.name == e.property && IsParameter(p))
  {
    var init := props[..|props| - 1];
    var last := props[|props| - 1];
    assert last in props;
    if Classify(typeName, init).Failure? {
      ClassifyErrorKinds(typeName, init);
      assert forall p :: p in init ==> p in props;
    }
  }

  /**
   * A FilterClass together with its filter instance: the schema is fixed at
   * construction; the instance's Extensions property and its parameter
   * properties are what the engine later sets.
   */
  class FilterClass {
    /** Type.FullName. */
    const name: string
    const filterParameters: seq<AttributedProperty>
    const targetParameters: seq<AttributedProperty>
    const hasTargetProperty: bool
    const hasContextProperty: bool
    const hasExtensionsProperty: bool
    /** The instance's Extensions property. */
    var extensions: seq<Extension>
    /** The instance's parameter properties that have been set, by name. */
    var parameterValues: map<string, Value>

    constructor (t: FilterType, c: Classification)
      ensures name == t.fullName
      ensures filterParameters == c.filterParameters && targetParameters == c.targetParameters
      ensures hasTargetProperty == c.targetProperty.Some?
      ensures hasContextProperty == c.contextProperty.Some?
      ensures hasExtensionsProperty == c.extensionsProperty.Some?
      ensures extensions == t.extensions && parameterValues == map[]
    {
      name := t.fullName;
      filterParameters := c.filterParameters;
      targetParameters := c.targetParameters;
      hasTargetProperty := c.targetProperty.Some?;
      hasContextProperty := c.contextProperty.Some?;
      hasExtensionsProperty := c.extensionsProperty.Some?;
      extensions := t.extensions;
      parameterValues := map[];
    }

    /** The parameter list of the given scope. */
    function ParametersIn(scope: Scope): seq<AttributedProperty>
    {
      if scope == FilterScope then filterParameters else targetParameters
    }
  }

  /** new FilterClass(…): instantiates the type and classifies its properties. */
  method NewFilterClass(t: FilterType) returns (r: Result<FilterClass, Error>)
    ensures r.Failure? <==> Classify(t.fullName, t.properties).Failure?
    ensures r.Failure? ==> r.error == Classify(t.fullName, t.properties).error
    ensures r.Success? ==>
      (fresh(r.value) && r.value.name == t.fullName
       && r.value.filterParameters == ParametersOf(t.properties, FilterScope)
       && r.value.targetParameters == ParametersOf(t.properties, TargetScope)
       && r.value.hasTargetProperty == HasPropertyNamed(t.properties, "Target")
       && r.value.hasContextProperty == HasPropertyNamed(t.properties, "Context")
       && r.value.hasExtensionsProperty == HasPropertyNamed(t.properties, "Extensions")
       && r.value.extensions == t.extensions && r.value.parameterValues == map[])
  {
    var c := ClassifyProperties(t.fullName, t.properties);
    if c.Failure? {
      return Failure(c.error);
    }
    ClassifyParameters(t.fullName, t.properties);
    ClassifySlots(t.fullName, t.properties);
    var fc := new FilterClass(t, c.value);
    return Success(fc);
  }

  /** The classes are distinct objects, as LoadFilterClasses creates them. */
  predicate DistinctClasses(classes: seq<FilterClass>)
  {
    forall i, j :: 0 <= i < j < |classes| ==> classes[i] != classes[j]
  }

  lemma DistinctClassesSnoc(classes: seq<FilterClass>, c: FilterClass)
    requires DistinctClasses(classes) && c !in classes
    ensures DistinctClasses(classes + [c])
  {
  }

  lemma DistinctClassesAppend(a: seq<FilterClass>, b: seq<FilterClass>)
    requires DistinctClasses(a) && DistinctClasses(b)
    requires forall i, j :: 0 <= i < |a| && 0 <= j < |b| ==> a[i] != b[j]
    ensures DistinctClasses(a + b)
  {
  }
}
