/**
 * ParameterAttribute and its two scopes: the declaration attached to a
 * filter property that makes it a filter-level or a target-level parameter.
 */
module ParameterAttributes {
  import opened Wrappers

  /** A parameter value as reflection stores it on the filter instance. */
  datatype Value = BoolValue(flag: bool) | IntValue(number: int) | DoubleValue(double: real) | StringValue(text: string)

  /** The CLR type of a parameter property. */
  datatype ParamType = BoolType | IntType | DoubleType | StringType | OtherType(typeName: string)

  /** FilterParameterAttribute marks FilterScope, TargetParameterAttribute marks TargetScope. */
  datatype Scope = FilterScope | TargetScope

  /** A parameter attribute: its scope, its description and its Default (None for null). */
  datatype ParameterAttribute = ParameterAttribute(scope: Scope, description: string, default: Option<Value>)

  /** Required is derived from Default: a parameter is required exactly when it has no default. */
  predicate Required(a: ParameterAttribute)
  {
    a.default.None?
  }

  /** The parameterless constructor: empty description, no default. */
  function NewParameterAttribute(scope: Scope): (a: ParameterAttribute)
    ensures a.scope == scope && a.description == "" && a.default == None
    ensures Required(a)
  {
    ParameterAttribute(scope, "", None)
  }

  /** The one-argument constructor: the given description, no default. */
  function NewParameterAttributeWithDescription(scope: Scope, description: string): (a: ParameterAttribute)
    ensures a.scope == scope && a.description == description && a.default == None
    ensures Required(a)
  {
    NewParameterAttribute(scope).(description := description)
  }

  /** Setting Default (the `Default = …` named argument) makes the parameter optional and changes nothing else. */
  function SetDefault(a: ParameterAttribute, v: Value): (b: ParameterAttribute)
    ensures !Required(b) && b.default == Some(v)
    ensures b.scope == a.scope && b.description == a.description
  {
    a.(default := Some(v))
  }

  /** ContentFilterParameterAttribute.ForFilter: whether the attribute marks a filter-level parameter. */
  predicate ForFilter(a: ParameterAttribute)
  {
    a.scope == FilterScope
  }
}
