/**
 * VacuumTool.ApplyFilterSettings: the content file's filter settings give
 * each filter class its extensions and its filter-scope parameters.
 */
module FilterSettings {
  import opened Wrappers
  import opened Common
  import opened Tson
  import opened Strings
  import opened ParameterAttributes
  import opened FilterClasses
  import opened ParameterBinding

  /** FirstOrDefault: the first setting whose name the class's full name ends with (compared ordinally and case-sensitively). */
  function FindSetting(settings: seq<FilterSetting>, className: string): (r: Option<nat>)
    ensures r.Some? ==> r.value < |settings| && EndsWith(className, settings[r.value].name)
    ensures r.Some? ==> forall j :: 0 <= j < r.value ==> !EndsWith(className, settings[j].name)
    ensures r.None? ==> forall j :: 0 <= j < |settings| ==> !EndsWith(className, settings[j].name)
  {
    if settings == [] then None
    else if EndsWith(className, settings[0].name) then Some(0)
    else match FindSetting(settings[1..], className)
      case None => None
      case Some(i) => Some(i + 1)
  }

  /** The setting that applies to a class, if any. */
  function SettingFor(settings: seq<FilterSetting>, className: string): Option<FilterSetting>
  {
    match FindSetting(settings, className)
    case None => None
    case Some(i) => Some(settings[i])
  }

  /** The FilterExtension list built from a setting's extension nodes, in order. */
  function SettingExtensions(nodes: seq<ExtensionNode>): (r: seq<Extension>)
    ensures |r| == |nodes|
    ensures forall i :: 0 <= i < |nodes| ==> r[i] == Extension(nodes[i].inputs, nodes[i].outputs)
  {
    if nodes == [] then []
    else
      var last := nodes[|nodes| - 1];
      SettingExtensions(nodes[..|nodes| - 1]) + [Extension(last.inputs, last.outputs)]
  }

  /**
   * The class's extensions after the settings: unchanged without a setting
   * or with an empty extension list; otherwise the setting's list, which a
   * class without an Extensions property cannot take.
   */
  function SettledExtensions(fc: FilterClass, setting: Option<FilterSetting>, extensions: seq<Extension>): Result<seq<Extension>, Error>
  {
    if setting.None? || |setting.value.extensions| == 0 then Success(extensions)
    else if !fc.hasExtensionsProperty then Failure(InvalidExtensions(fc.name))
    else Success(SettingExtensions(setting.value.extensions))
  }

  /** The parameter node the filter parameters are bound from: the setting's, or none. */
  function SettingParameters(setting: Option<FilterSetting>): Option<Parameters>
  {
    if setting.None? then None else setting.value.parameters
  }

  /**
   * One class after its settings, from the given extensions and parameter
   * values: the new fields, the warnings and the outcome.
   */
  ghost predicate Settled(fc: FilterClass, settings: seq<FilterSetting>, extensions0: seq<Extension>,
                          values0: map<string, Value>, warnings: seq<string>, r: Outcome<Error>)
    reads fc
  {
    var setting := SettingFor(settings, fc.name);
    match SettledExtensions(fc, setting, extensions0)
    case Failure(e) =>
      r == Fail(e) && warnings == [] && fc.extensions == extensions0 && fc.parameterValues == values0
    case Success(extensions) =>
      var b := Bind(fc.ParametersIn(FilterScope), fc.name, values0, SettingParameters(setting));
      fc.extensions == extensions && fc.parameterValues == b.values && warnings == b.warnings && Completes(b, fc.name, r)
  }

  /**
   * A class no setting names keeps its extensions and binds its filter
   * parameters from no node: only the defaults, and it fails exactly when
   * it has a required filter parameter.
   */
  lemma UnnamedClassKeepsExtensions(fc: FilterClass, settings: seq<FilterSetting>, extensions0: seq<Extension>,
                                    values0: map<string, Value>)
    requires forall j :: 0 <= j < |settings| ==> !EndsWith(fc.name, settings[j].name)
    ensures SettledExtensions(fc, SettingFor(settings, fc.name), extensions0) == Success(extensions0)
    ensures var b := Bind(fc.ParametersIn(FilterScope), fc.name, values0, SettingParameters(SettingFor(settings, fc.name)));
      b.warnings == [] && b.error.None? && b.required == RequiredNames(fc.ParametersIn(FilterScope))
  {
    BindWithoutNode(fc.ParametersIn(FilterScope), fc.name, values0);
  }

  /** Only the first setting matching a class counts: later ones are never read. */
  lemma FirstSettingWins(settings: seq<FilterSetting>, more: seq<FilterSetting>, className: string)
    requires FindSetting(settings, className).Some?
    ensures SettingFor(settings + more, className) == SettingFor(settings, className)
  {
    var i := FindSetting(settings, className).value;
    var j := FindSetting(settings + more, className);
    assert (settings + more)[i] == settings[i];
    assert forall k :: 0 <= k < i ==> (settings + more)[k] == settings[k];
  }

  /** The settings of one filter class. */
  method ApplyFilterSetting(fc: FilterClass, settings: seq<FilterSetting>) returns (warnings: seq<string>, r: Outcome<Error>)
    modifies fc
    ensures Settled(fc, settings, old(fc.extensions), old(fc.parameterValues), warnings, r)
  {
    var found := FindSetting(settings, fc.name);
    if found.None? {
      warnings, r := ApplyParameters(fc, FilterScope, None);
      return;
    }
    var setting := settings[found.value];
    var nodes := setting.extensions;
    var extensions := [];
    var i := 0;
    while i < |nodes|
      invariant 0 <= i <= |nodes|
      invariant extensions == SettingExtensions(nodes[..i])
      invariant fc.extensions == if i == 0 then old(fc.extensions) else extensions
      invariant fc.parameterValues == old(fc.parameterValues)
      invariant i > 0 ==> fc.hasExtensionsProperty
    {
      assert nodes[..i + 1][..i] == nodes[..i];
      extensions := extensions + [Extension(nodes[i].inputs, nodes[i].outputs)];
      if !fc.hasExtensionsProperty {
        return [], Fail(InvalidExtensions(fc.name));
      }
      fc.extensions := extensions;
      i := i + 1;
    }
    assert nodes[..i] == nodes;
    warnings, r := ApplyParameters(fc, FilterScope, setting.parameters);
  }

  /** The warnings of the classes in order. */
  function Concat(ws: seq<seq<string>>): seq<string>
  {
    if ws == [] then [] else Concat(ws[..|ws| - 1]) + ws[|ws| - 1]
  }

  /**
   * VacuumTool.ApplyFilterSettings over every filter class in order,
   * stopping at the first class that fails (`stop`, which is |classes| when
   * none does); `perClass` holds each visited class's warnings.
   */
  method ApplyFilterSettings(classes: seq<FilterClass>, settings: seq<FilterSetting>)
    returns (warnings: seq<string>, r: Outcome<Error>, ghost stop: nat, ghost perClass: seq<seq<string>>)
    requires DistinctClasses(classes)
    modifies set c | c in classes
    ensures stop <= |classes| && (r.Pass? <==> stop == |classes|)
    ensures |perClass| == (if r.Pass? then stop else stop + 1) && warnings == Concat(perClass)
    ensures forall i :: 0 <= i < stop ==>
      Settled(classes[i], settings, old(classes[i].extensions), old(classes[i].parameterValues), perClass[i], Pass)
    ensures stop < |classes| ==>
      Settled(classes[stop], settings, old(classes[stop].extensions), old(classes[stop].parameterValues), perClass[stop], r)
    ensures forall i :: stop < i < |classes| ==>
      classes[i].extensions == old(classes[i].extensions) && classes[i].parameterValues == old(classes[i].parameterValues)
  {
    warnings := [];
    perClass := [];
    var k := 0;
    while k < |classes|
      invariant 0 <= k <= |classes| && |perClass| == k && warnings == Concat(perClass)
      invariant forall i :: 0 <= i < k ==>
        Settled(classes[i], settings, old(classes[i].extensions), old(classes[i].parameterValues), perClass[i], Pass)
      invariant forall i :: k <= i < |classes| ==>
        classes[i].extensions == old(classes[i].extensions) && classes[i].parameterValues == old(classes[i].parameterValues)
    {
      var fc := classes[k];
      assert forall i :: 0 <= i < |classes| && i != k ==> classes[i] != fc;
      var w, rk := ApplyFilterSetting(fc, settings);
      assert (perClass + [w])[..k] == perClass;
      warnings := warnings + w;
      perClass := perClass + [w];
      if rk.Fail? {
        return warnings, rk, k, perClass;
      }
      k := k + 1;
    }
    return warnings, Pass, k, perClass;
  }
}
