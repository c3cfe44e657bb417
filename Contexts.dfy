/**
 * VacuumContext: the layered property collection, the location of the
 * hashes file, the global hash and the registered filter classes.
 */
module Contexts {
  import opened Wrappers
  import opened Common
  import opened Tson
  import opened Externals
  import opened Strings
  import opened Times
  import opened ParameterAttributes
  import opened FilterClasses
  import opened FileSystems
  import opened Targets

  /** A constructed VacuumContext. */
  datatype Context = Context(
    contentFilePath: Path,
    contentFile: ContentFile,
    properties: map<string, string>,
    contentFileHashesPath: Path,
    contentFileWriteTime: Time,
    globalHash: string,
    filterClasses: seq<FilterClass>,
    newestAssemblyWriteTime: Time)

  // ---------------------------------------------------------------------
  // Property layering

  /** PropertyCollection.Set for each pair in turn. */
  function Overlay(m: map<string, string>, pairs: seq<(string, string)>): map<string, string>
  {
    if pairs == [] then m
    else Overlay(m, pairs[..|pairs| - 1])[pairs[|pairs| - 1].0 := pairs[|pairs| - 1].1]
  }

  /** The value of the last pair naming `key`. */
  function LastValue(pairs: seq<(string, string)>, key: string): Option<string>
  {
    if pairs == [] then None
    else if pairs[|pairs| - 1].0 == key then Some(pairs[|pairs| - 1].1)
    else LastValue(pairs[..|pairs| - 1], key)
  }

  /** After the overlay a key holds the value of its last pair, or its old value when no pair names it. */
  lemma {:induction false} OverlayLookup(m: map<string, string>, pairs: seq<(string, string)>, key: string)
    ensures key in Overlay(m, pairs) <==> key in m || LastValue(pairs, key).Some?
    ensures LastValue(pairs, key).Some? ==> Overlay(m, pairs)[key] == LastValue(pairs, key).value
    ensures LastValue(pairs, key).None? && key in m ==> Overlay(m, pairs)[key] == m[key]
  {
    if pairs != [] {
      OverlayLookup(m, pairs[..|pairs| - 1], key);
    }
  }

  /** Overlaying two lists in sequence is overlaying their concatenation. */
  lemma {:induction false} OverlayAppend(m: map<string, string>, p: seq<(string, string)>, q: seq<(string, string)>)
    ensures Overlay(m, p + q) == Overlay(Overlay(m, p), q)
    decreases |q|
  {
    if q == [] {
      assert p + q == p;
    } else {
      OverlayAppend(m, p, q[..|q| - 1]);
      assert (p + q)[..|p + q| - 1] == p + q[..|q| - 1];
    }
  }

  /** A key named in the later list takes its value from that list. */
  lemma {:induction false} LastValueAppend(p: seq<(string, string)>, q: seq<(string, string)>, key: string)
    ensures LastValue(p + q, key) == if LastValue(q, key).Some? then LastValue(q, key) else LastValue(p, key)
    decreases |q|
  {
    if q == [] {
      assert p + q == p;
    } else {
      LastValueAppend(p, q[..|q| - 1], key);
      assert (p + q)[..|p + q| - 1] == p + q[..|q| - 1];
    }
  }

  /** PropertyCollection.AddFromList: Set for each pair, in order. */
  method AddFromList(properties: map<string, string>, pairs: seq<(string, string)>) returns (r: map<string, string>)
    ensures r == Overlay(properties, pairs)
  {
    r := properties;
    var k := 0;
    while k < |pairs|
      invariant 0 <= k <= |pairs|
      invariant r == Overlay(properties, pairs[..k])
    {
      assert pairs[..k + 1][..k] == pairs[..k];
      r := r[pairs[k].0 := pairs[k].1];
      k := k + 1;
    }
    assert pairs[..k] == pairs;
  }

  /** The four built-in directory properties. */
  function BuiltIns(vacuumDir: string, contentFileDir: string): seq<(string, string)>
  {
    [("VacuumDir", vacuumDir), ("ContentFileDir", contentFileDir), ("InputDir", contentFileDir), ("OutputDir", contentFileDir)]
  }

  /** The content file's property pairs, in document order. */
  function ContentProperties(properties: seq<NameAndString>): (r: seq<(string, string)>)
    ensures |r| == |properties|
    ensures forall i :: 0 <= i < |properties| ==> r[i] == (properties[i].name, properties[i].value)
  {
    if properties == [] then []
    else ContentProperties(properties[..|properties| - 1]) + [(properties[|properties| - 1].name, properties[|properties| - 1].value)]
  }

  /** The collection after the environment, the built-ins, the content file and the command line, in that order. */
  function Layered(environment: map<string, string>, vacuumDir: string, contentFileDir: string,
                   content: seq<(string, string)>, commandLine: seq<(string, string)>): map<string, string>
  {
    Overlay(environment, BuiltIns(vacuumDir, contentFileDir) + content + commandLine)
  }

  /**
   * Later sources override earlier ones: a key takes its value from the
   * command line if set there, else from the content file, else from the
   * built-ins, else from the environment; OutputDir is always present.
   */
  lemma LayerPrecedence(environment: map<string, string>, vacuumDir: string, contentFileDir: string,
                        content: seq<(string, string)>, commandLine: seq<(string, string)>, key: string)
    ensures var r := Layered(environment, vacuumDir, contentFileDir, content, commandLine);
      "OutputDir" in r
      && (LastValue(commandLine, key).Some? ==> key in r && r[key] == LastValue(commandLine, key).value)
      && (LastValue(commandLine, key).None? && LastValue(content, key).Some? ==>
            key in r && r[key] == LastValue(content, key).value)
      && (LastValue(commandLine, key).None? && LastValue(content, key).None?
          && LastValue(BuiltIns(vacuumDir, contentFileDir), key).Some? ==>
            key in r && r[key] == LastValue(BuiltIns(vacuumDir, contentFileDir), key).value)
      && (LastValue(commandLine, key).None? && LastValue(content, key).None?
          && LastValue(BuiltIns(vacuumDir, contentFileDir), key).None? ==>
            (key in r <==> key in environment) && (key in environment ==> r[key] == environment[key]))
  {
    var b := BuiltIns(vacuumDir, contentFileDir);
    var all := b + content + commandLine;
    LastValueAppend(b + content, commandLine, key);
    LastValueAppend(b, content, key);
    OverlayLookup(environment, all, key);
    LastValueAppend(b + content, commandLine, "OutputDir");
    LastValueAppend(b, content, "OutputDir");
    assert LastValue(b, "OutputDir").Some?;
    OverlayLookup(environment, all, "OutputDir");
  }

  /**
   * Lines 51-56 as written: the test looks for "ContentFileHashes" but the
   * default is stored under "ContentHashesFile".
   */
  function WithDefaultHashesFile(env: Env, properties: map<string, string>, contentFilePath: Path): Result<map<string, string>, Error>
  {
    if "ContentFileHashes" in properties then Success(properties)
    else if "OutputDir" !in properties then Failure(MissingProperty("OutputDir"))
    else Success(properties["ContentHashesFile" := DefaultHashesFile(env, properties["OutputDir"], contentFilePath)])
  }

  /** OutputDir/<content file name and extension>.hashes */
  function DefaultHashesFile(env: Env, outputDir: string, contentFilePath: Path): string
  {
    env.combine(outputDir, env.fileAndExtensionOf(contentFilePath) + ".hashes")
  }

  /** Line 58: the path is always read from "ContentHashesFile". */
  function HashesFilePath(env: Env, properties: map<string, string>): Result<Path, Error>
  {
    if "ContentHashesFile" !in properties then Failure(MissingProperty("ContentHashesFile"))
    else
      match env.fullPath(properties["ContentHashesFile"])
      case None => Failure(BadPath(properties["ContentHashesFile"]))
      case Some(p) => Success(p)
  }

  /** The location stage of the constructor: the default, then the lookup. */
  function ResolveHashesFile(env: Env, properties: map<string, string>, contentFilePath: Path): Result<(map<string, string>, Path), Error>
  {
    match WithDefaultHashesFile(env, properties, contentFilePath)
    case Failure(e) => Failure(e)
    case Success(ps) =>
      match HashesFilePath(env, ps)
      case Failure(e) => Failure(e)
      case Success(p) => Success((ps, p))
  }

  /**
   * Without a "ContentFileHashes" property the hashes file is always the
   * default location: a "ContentHashesFile" the user set is overwritten.
   */
  lemma UserHashesFileIgnored(env: Env, properties: map<string, string>, contentFilePath: Path)
    requires "ContentFileHashes" !in properties && "OutputDir" in properties
    ensures var d := DefaultHashesFile(env, properties["OutputDir"], contentFilePath);
      ResolveHashesFile(env, properties, contentFilePath)
        == if env.fullPath(d).Some? then Success((properties["ContentHashesFile" := d], env.fullPath(d).value))
           else Failure(BadPath(d))
  {
  }

  /**
   * Setting "ContentFileHashes" only switches the default off: the file is
   * still read from "ContentHashesFile", and the constructor fails when
   * that property is not set as well.
   */
  lemma ContentFileHashesSwitchesDefaultOff(env: Env, properties: map<string, string>, contentFilePath: Path)
    requires "ContentFileHashes" in properties
    ensures ResolveHashesFile(env, properties, contentFilePath).Success? ==>
      ResolveHashesFile(env, properties, contentFilePath).value.0 == properties
      && "ContentHashesFile" in properties
      && Some(ResolveHashesFile(env, properties, contentFilePath).value.1) == env.fullPath(properties["ContentHashesFile"])
    ensures "ContentHashesFile" !in properties ==>
      ResolveHashesFile(env, properties, contentFilePath) == Failure(MissingProperty("ContentHashesFile"))
  {
  }

  // ---------------------------------------------------------------------
  // The global hash

  function AssemblyText(assemblies: seq<string>): string
  {
    if assemblies == [] then "" else AssemblyText(assemblies[..|assemblies| - 1]) + assemblies[|assemblies| - 1]
  }

  function PropertyText(properties: seq<NameAndString>): string
  {
    if properties == [] then ""
    else
      var last := properties[|properties| - 1];
      PropertyText(properties[..|properties| - 1]) + last.name + last.value
  }

  function Joined(parts: seq<string>): string
  {
    if parts == [] then "" else Joined(parts[..|parts| - 1]) + parts[|parts| - 1]
  }

  function ExtensionText(extensions: seq<ExtensionNode>): string
  {
    if extensions == [] then ""
    else
      var last := extensions[|extensions| - 1];
      ExtensionText(extensions[..|extensions| - 1]) + Joined(last.inputs) + Joined(last.outputs)
  }

  /** One filter setting: its name node's text, its extensions, then its parameter pairs. */
  function SettingText(env: Env, setting: FilterSetting): string
  {
    env.stringText(setting.name) + ExtensionText(setting.extensions)
      + if setting.parameters.Some? then ParameterText(env, setting.parameters.value) else ""
  }

  function SettingsText(env: Env, settings: seq<FilterSetting>): string
  {
    if settings == [] then ""
    else SettingsText(env, settings[..|settings| - 1]) + SettingText(env, settings[|settings| - 1])
  }

  /** Everything that can affect the build except the targets, in document order. */
  function GlobalPreImage(env: Env, file: ContentFile): string
  {
    AssemblyText(file.filterAssemblies) + PropertyText(file.properties) + SettingsText(env, file.filterSettings)
  }

  /** The targets section never contributes: editing targets cannot change the global hash. */
  lemma GlobalHashIgnoresTargets(env: Env, file: ContentFile, targets: seq<RawTarget>, location: Location)
    ensures GlobalPreImage(env, file.(targets := targets, location := location)) == GlobalPreImage(env, file)
  {
  }

  /** Each filter setting adds its own text after the text of the ones before it. */
  lemma {:induction false} SettingsTextAppend(env: Env, a: seq<FilterSetting>, b: seq<FilterSetting>)
    ensures SettingsText(env, a + b) == SettingsText(env, a) + SettingsText(env, b)
    decreases |b|
  {
    if b == [] {
      assert a + b == a;
    } else {
      SettingsTextAppend(env, a, b[..|b| - 1]);
      assert (a + b)[..|a + b| - 1] == a + b[..|b| - 1];
    }
  }

  /** The StringBuilder for one extension: its inputs, then its outputs. */
  method AppendStrings(sb0: string, parts: seq<string>) returns (sb: string)
    ensures sb == sb0 + Joined(parts)
  {
    sb := sb0;
    var k := 0;
    while k < |parts|
      invariant 0 <= k <= |parts|
      invariant sb == sb0 + Joined(parts[..k])
    {
      assert parts[..k + 1][..k] == parts[..k];
      sb := sb + parts[k];
      k := k + 1;
    }
    assert parts[..k] == parts;
  }

  /** The loops over one filter setting. */
  method AppendSetting(env: Env, sb0: string, setting: FilterSetting) returns (sb: string)
    ensures sb == sb0 + SettingText(env, setting)
  {
    var text := AppendExtensions(env.stringText(setting.name), setting.extensions);
    var parameterText := "";
    if setting.parameters.Some? {
      parameterText := AppendParameters(env, "", setting.parameters.value);
      assert "" + ParameterText(env, setting.parameters.value) == ParameterText(env, setting.parameters.value);
    }
    sb := sb0 + (text + parameterText);
  }

  /** The loop over a setting's extensions: each input, then each output, appended to `sb0`. */
  method AppendExtensions(sb0: string, extensions: seq<ExtensionNode>) returns (sb: string)
    ensures sb == sb0 + ExtensionText(extensions)
  {
    sb := sb0;
    var k := 0;
    while k < |extensions|
      invariant 0 <= k <= |extensions|
      invariant sb == sb0 + ExtensionText(extensions[..k])
    {
      assert extensions[..k + 1][..k] == extensions[..k];
      sb := AppendStrings(sb, extensions[k].inputs);
      sb := AppendStrings(sb, extensions[k].outputs);
      k := k + 1;
    }
    assert extensions[..k] == extensions;
  }

  /** Lines 63-99: the StringBuilder loops and the SHA1 of their text. */
  method ComputeGlobalHash(env: Env, file: ContentFile) returns (hash: string)
    ensures hash == env.sha1(GlobalPreImage(env, file))
  {
    var sb := "";
    var assemblies := file.filterAssemblies;
    var i := 0;
    while i < |assemblies|
      invariant 0 <= i <= |assemblies|
      invariant sb == AssemblyText(assemblies[..i])
    {
      assert assemblies[..i + 1][..i] == assemblies[..i];
      sb := sb + assemblies[i];
      i := i + 1;
    }
    assert assemblies[..i] == assemblies;
    var properties := file.properties;
    var propertyText := "";
    i := 0;
    while i < |properties|
      invariant 0 <= i <= |properties|
      invariant propertyText == PropertyText(properties[..i])
    {
      assert properties[..i + 1][..i] == properties[..i];
      propertyText := propertyText + properties[i].name + properties[i].value;
      i := i + 1;
    }
    assert properties[..i] == properties;
    var settings := file.filterSettings;
    var settingsText := "";
    i := 0;
    while i < |settings|
      invariant 0 <= i <= |settings|
      invariant settingsText == SettingsText(env, settings[..i])
    {
      assert settings[..i + 1][..i] == settings[..i];
      settingsText := AppendSetting(env, settingsText, settings[i]);
      i := i + 1;
    }
    assert settings[..i] == settings;
    hash := env.sha1(sb + propertyText + settingsText);
  }

  // ---------------------------------------------------------------------
  // Filter classes

  /** What Assembly.LoadFrom yields: its location and its types, None where GetTypes throws. */
  datatype Assembly = Assembly(location: Path, types: Option<seq<FilterType>>)

  /** A type that is registered: not abstract and implementing IFilter. */
  predicate IsFilterType(t: FilterType)
  {
    !t.isAbstract && t.implementsFilter
  }

  /** The registered types of one assembly, in type order. */
  function FilterTypes(types: seq<FilterType>): (r: seq<FilterType>)
    ensures |r| <= |types|
  {
    if types == [] then []
    else FilterTypes(types[..|types| - 1]) + if IsFilterType(types[|types| - 1]) then [types[|types| - 1]] else []
  }

  /** Exactly the non-abstract IFilter types are registered, in their original order. */
  lemma {:induction false} FilterTypesSelect(types: seq<FilterType>)
    ensures forall t :: t in FilterTypes(types) <==> t in types && IsFilterType(t)
    ensures forall i, j :: 0 <= i < j < |types| && IsFilterType(types[i]) && IsFilterType(types[j]) ==>
      exists i', j' :: 0 <= i' < j' < |FilterTypes(types)|
        && FilterTypes(types)[i'] == types[i] && FilterTypes(types)[j'] == types[j]
  {
    if types != [] {
      var init := types[..|types| - 1];
      FilterTypesSelect(init);
      assert types == init + [types[|types| - 1]];
      var r := FilterTypes(types);
      var ri := FilterTypes(init);
      assert r[..|ri|] == ri;
      forall i, j | 0 <= i < j < |types| && IsFilterType(types[i]) && IsFilterType(types[j])
        ensures exists i', j' :: 0 <= i' < j' < |r| && r[i'] == types[i] && r[j'] == types[j]
      {
        if j < |init| {
          assert init[i] == types[i] && init[j] == types[j];
          var i', j' :| 0 <= i' < j' < |ri| && ri[i'] == init[i] && ri[j'] == init[j];
          assert r[i'] == ri[i'] && r[j'] == ri[j'];
        } else {
          assert init[i] == types[i];
          assert types[i] in ri;
          var i' :| 0 <= i' < |ri| && ri[i'] == types[i];
          assert r[i'] == ri[i'] && r[|ri|] == types[j];
        }
      }
    }
  }

  /** The strict expansion of the assembly names (the first loop of LoadFilterClasses). */
  function ExpandAssemblies(env: Env, properties: map<string, string>, raws: seq<string>): (r: Result<seq<Path>, Error>)
    ensures r.Success? ==> |r.value| == |raws|
  {
    if raws == [] then Success([])
    else
      match ExpandAssemblies(env, properties, raws[..|raws| - 1])
      case Failure(e) => Failure(e)
      case Success(ps) =>
        match env.expand(properties, raws[|raws| - 1], true)
        case None => Failure(AssemblyPathExpansionFailed(raws[|raws| - 1]))
        case Some(p) => Success(ps + [p])
  }

  /** The first loop of LoadFilterClasses. */
  method ExpandAssemblyPaths(env: Env, properties: map<string, string>, raws: seq<string>) returns (r: Result<seq<Path>, Error>)
    ensures r == ExpandAssemblies(env, properties, raws)
    ensures r.Success? ==> |r.value| == |raws|
  {
    var paths := [];
    var k := 0;
    while k < |raws|
      invariant 0 <= k <= |raws|
      invariant ExpandAssemblies(env, properties, raws[..k]) == Success(paths) && |paths| == k
    {
      assert raws[..k + 1][..k] == raws[..k];
      var s := env.expand(properties, raws[k], true);
      if s.None? {
        ExpandFailureSticks(env, properties, raws, k + 1);
        return Failure(AssemblyPathExpansionFailed(raws[k]));
      }
      paths := paths + [s.value];
      k := k + 1;
    }
    assert raws[..k] == raws;
    return Success(paths);
  }

  lemma {:induction false} ExpandFailureSticks(env: Env, properties: map<string, string>, raws: seq<string>, k: nat)
    requires k <= |raws|
    requires ExpandAssemblies(env, properties, raws[..k]).Failure?
    ensures ExpandAssemblies(env, properties, raws) == ExpandAssemblies(env, properties, raws[..k])
    decreases |raws| - k
  {
    if k < |raws| {
      assert raws[..k + 1][..k] == raws[..k];
      ExpandFailureSticks(env, properties, raws, k + 1);
    } else {
      assert raws[..k] == raws;
    }
  }

  /** Every registered type of the loaded assemblies, in assembly order and then type order. */
  function RegisteredTypes(assemblies: seq<Assembly>): seq<FilterType>
    requires AllReflected(assemblies)
  {
    if assemblies == [] then []
    else RegisteredTypes(assemblies[..|assemblies| - 1]) + FilterTypes(assemblies[|assemblies| - 1].types.value)
  }

  /** The write times of the loaded assemblies. */
  function AssemblyTimes(fs: FileSystem, assemblies: seq<Assembly>): (r: seq<Time>)
    reads fs
    ensures |r| == |assemblies|
    ensures forall i :: 0 <= i < |assemblies| ==> r[i] == fs.LastWriteTime(assemblies[i].location)
  {
    if assemblies == [] then []
    else AssemblyTimes(fs, assemblies[..|assemblies| - 1]) + [fs.LastWriteTime(assemblies[|assemblies| - 1].location)]
  }

  /**
   * The class new FilterClass builds for `t`, before the engine sets
   * anything on it: its name, its two parameter lists, which of the
   * Target, Context and Extensions properties the type has, the instance's
   * own extensions and no parameter value yet.
   */
  predicate BuiltFor(c: FilterClass, t: FilterType)
    reads c
  {
    c.name == t.fullName
    && c.filterParameters == ParametersOf(t.properties, FilterScope)
    && c.targetParameters == ParametersOf(t.properties, TargetScope)
    && c.hasTargetProperty == HasPropertyNamed(t.properties, "Target")
    && c.hasContextProperty == HasPropertyNamed(t.properties, "Context")
    && c.hasExtensionsProperty == HasPropertyNamed(t.properties, "Extensions")
    && c.extensions == t.extensions && c.parameterValues == map[]
  }

  /** The filter classes built for `types`, one per type, in order. */
  predicate BuiltFrom(classes: seq<FilterClass>, types: seq<FilterType>)
    reads classes
  {
    |classes| == |types| && forall i :: 0 <= i < |types| ==> BuiltFor(classes[i], types[i])
  }

  lemma BuiltFromAppend(a: seq<FilterClass>, b: seq<FilterClass>, ta: seq<FilterType>, tb: seq<FilterType>)
    requires BuiltFrom(a, ta) && BuiltFrom(b, tb)
    ensures BuiltFrom(a + b, ta + tb)
  {
    forall i | 0 <= i < |ta + tb|
      ensures BuiltFor((a + b)[i], (ta + tb)[i])
    {
      if i >= |a| {
        assert (a + b)[i] == b[i - |a|] && (ta + tb)[i] == tb[i - |a|];
      }
    }
  }

  /** A type the registration loop skips adds no class. */
  lemma BuiltFromSkip(added: seq<FilterClass>, types: seq<FilterType>, k: nat)
    requires k < |types| && !IsFilterType(types[k]) && BuiltFrom(added, FilterTypes(types[..k]))
    ensures BuiltFrom(added, FilterTypes(types[..k + 1]))
  {
    assert types[..k + 1][..k] == types[..k];
  }

  /** A registered type adds its class. */
  lemma BuiltFromAdd(added: seq<FilterClass>, types: seq<FilterType>, k: nat, c: FilterClass)
    requires k < |types| && IsFilterType(types[k]) && BuiltFrom(added, FilterTypes(types[..k]))
    requires BuiltFor(c, types[k])
    ensures BuiltFrom(added + [c], FilterTypes(types[..k + 1]))
  {
    assert types[..k + 1][..k] == types[..k];
  }

  /**
   * The error the registration loop throws for one assembly's types: that
   * of the first registered type whose FilterClass constructor throws, or
   * none.
   */
  function RegisterError(types: seq<FilterType>): Option<Error>
  {
    if types == [] then None
    else
      match RegisterError(types[..|types| - 1])
      case Some(e) => Some(e)
      case None =>
        var t := types[|types| - 1];
        if IsFilterType(t) && Classify(t.fullName, t.properties).Failure? then Some(Classify(t.fullName, t.properties).error)
        else None
  }

  /**
   * Registration fails exactly when some registered type cannot be
   * classified, and then with the error of the first such type.
   */
  lemma {:induction false} RegisterErrorSpec(types: seq<FilterType>)
    ensures RegisterError(types).None? <==>
      forall i :: 0 <= i < |types| && IsFilterType(types[i]) ==> Classify(types[i].fullName, types[i].properties).Success?
    ensures RegisterError(types).Some? ==>
      exists i :: 0 <= i < |types| && IsFilterType(types[i])
        && Classify(types[i].fullName, types[i].properties) == Failure(RegisterError(types).value)
        && forall j :: 0 <= j < i && IsFilterType(types[j]) ==> Classify(types[j].fullName, types[j].properties).Success?
  {
    if types != [] {
      var init := types[..|types| - 1];
      RegisterErrorSpec(init);
      assert forall i :: 0 <= i < |init| ==> init[i] == types[i];
    }
  }

  lemma RegisterErrorStep(types: seq<FilterType>, k: nat)
    requires k < |types| && RegisterError(types[..k]).None?
    ensures RegisterError(types[..k + 1]) ==
      if IsFilterType(types[k]) && Classify(types[k].fullName, types[k].properties).Failure?
      then Some(Classify(types[k].fullName, types[k].properties).error) else None
  {
    assert types[..k + 1][..k] == types[..k];
  }

  lemma {:induction false} RegisterErrorSticks(types: seq<FilterType>, k: nat)
    requires k <= |types|
    requires RegisterError(types[..k]).Some?
    ensures RegisterError(types) == RegisterError(types[..k])
    decreases |types| - k
  {
    if k < |types| {
      assert types[..k + 1][..k] == types[..k];
      RegisterErrorSticks(types, k + 1);
    } else {
      assert types[..k] == types;
    }
  }

  /**
   * One type of that loop, after the types before `k` registered into
   * `added`: abstract and non-IFilter types are skipped, any other gets its
   * new class appended.
   */
  method RegisterType(types: seq<FilterType>, k: nat, added: seq<FilterClass>) returns (r: Result<seq<FilterClass>, Error>)
    requires k < |types| && BuiltFrom(added, FilterTypes(types[..k])) && RegisterError(types[..k]).None?
    requires DistinctClasses(added)
    ensures r.Failure? <==> RegisterError(types[..k + 1]).Some?
    ensures r.Failure? ==> r.error == RegisterError(types[..k + 1]).value
    ensures r.Success? ==>
      BuiltFrom(r.value, FilterTypes(types[..k + 1])) && DistinctClasses(r.value)
      && |r.value| >= |added| && r.value[..|added|] == added
      && forall i :: |added| <= i < |r.value| ==> fresh(r.value[i])
  {
    RegisterErrorStep(types, k);
    var t := types[k];
    if t.isAbstract || !t.implementsFilter {
      BuiltFromSkip(added, types, k);
      return Success(added);
    }
    var fc := NewFilterClass(t);
    if fc.Failure? {
      return Failure(fc.error);
    }
    BuiltFromAdd(added, types, k, fc.value);
    DistinctClassesSnoc(added, fc.value);
    return Success(added + [fc.value]);
  }

  /** The loop over one assembly's types: a new class for each registered type, in order. */
  method ClassesOfTypes(types: seq<FilterType>) returns (r: Result<seq<FilterClass>, Error>)
    ensures r.Failure? <==> RegisterError(types).Some?
    ensures r.Failure? ==> r.error == RegisterError(types).value
    ensures r.Success? ==>
      BuiltFrom(r.value, FilterTypes(types))
      && (forall i :: 0 <= i < |r.value| ==> fresh(r.value[i]))
      && DistinctClasses(r.value)
  {
    var added: seq<FilterClass> := [];
    var k := 0;
    while k < |types|
      invariant 0 <= k <= |types|
      invariant BuiltFrom(added, FilterTypes(types[..k]))
      invariant RegisterError(types[..k]).None?
      invariant forall i :: 0 <= i < |added| ==> fresh(added[i])
      invariant DistinctClasses(added)
    {
      var next := RegisterType(types, k, added);
      if next.Failure? {
        RegisterErrorSticks(types, k + 1);
        return Failure(next.error);
      }
      assert forall i :: 0 <= i < |added| ==> next.value[i] == added[i];
      added := next.value;
      k := k + 1;
    }
    assert types[..k] == types;
    return Success(added);
  }

  /** The only errors registration raises are those of classification. */
  lemma RegisterErrorKinds(types: seq<FilterType>)
    requires RegisterError(types).Some?
    ensures RegisterError(types).value.PropertyNotReadWrite? || RegisterError(types).value.DuplicateParameter?
  {
    RegisterErrorSpec(types);
    var i :| 0 <= i < |types| && IsFilterType(types[i])
      && Classify(types[i].fullName, types[i].properties) == Failure(RegisterError(types).value);
    ClassifyErrorKinds(types[i].fullName, types[i].properties);
  }

  /** Every assembly the loop has accepted had its types reflected. */
  predicate AllReflected(assemblies: seq<Assembly>)
  {
    forall i :: 0 <= i < |assemblies| ==> assemblies[i].types.Some?
  }

  /** What the loop has accumulated from the accepted assemblies. */
  predicate Accumulated(fs: FileSystem, assemblies: seq<Assembly>, classes: seq<FilterClass>, newest: Time)
    requires AllReflected(assemblies)
    reads fs, classes
  {
    BuiltFrom(classes, RegisteredTypes(assemblies)) && newest == Latest(MinTime, AssemblyTimes(fs, assemblies))
  }

  /** One assembly of the loop: its classes are appended and its write time folded in. */
  lemma AccumulateStep(fs: FileSystem, assemblies: seq<Assembly>, classes: seq<FilterClass>, newest: Time,
                       a: Assembly, added: seq<FilterClass>)
    requires AllReflected(assemblies) && Accumulated(fs, assemblies, classes, newest)
    requires a.types.Some? && BuiltFrom(added, FilterTypes(a.types.value))
    ensures AllReflected(assemblies + [a])
    ensures var t := fs.LastWriteTime(a.location);
      Accumulated(fs, assemblies + [a], classes + added, if t > newest then t else newest)
  {
    var next := assemblies + [a];
    assert next[..|assemblies|] == assemblies;
    BuiltFromAppend(classes, added, RegisteredTypes(assemblies), FilterTypes(a.types.value));
    assert AssemblyTimes(fs, next) == AssemblyTimes(fs, assemblies) + [fs.LastWriteTime(a.location)];
  }

  /**
   * VacuumContext.LoadFilterClasses: the classes of every registered type,
   * assembly by assembly, and the latest assembly write time, from
   * DateTime.MinValue. `loader` maps each path Assembly.LoadFrom can load
   * to what it loads.
   */
  method LoadFilterClasses(env: Env, properties: map<string, string>, raws: seq<string>,
                           loader: map<Path, Assembly>, fs: FileSystem)
    returns (r: Result<(seq<FilterClass>, Time), Error>, ghost assemblies: seq<Assembly>)
    ensures r.Failure? <==> LoadFailure(env, properties, raws, loader).Some?
    ensures r.Failure? ==> r.error == LoadFailure(env, properties, raws, loader).value
    ensures r.Success? ==>
      ExpandAssemblies(env, properties, raws).Success?
      && LoadedFrom(ExpandAssemblies(env, properties, raws).value, loader, assemblies)
      && Accumulated(fs, assemblies, r.value.0, r.value.1)
      && (forall i :: 0 <= i < |r.value.0| ==> fresh(r.value.0[i]))
      && DistinctClasses(r.value.0)
    ensures r.Failure? && ExpandAssemblies(env, properties, raws).Success? ==>
      r.error.AssemblyLoadFailed? || r.error.ReflectionFailed?
      || r.error.PropertyNotReadWrite? || r.error.DuplicateParameter?
  {
    var expanded := ExpandAssemblyPaths(env, properties, raws);
    if expanded.Failure? {
      return Failure(expanded.error), [];
    }
    r, assemblies := LoadAssemblies(expanded.value, raws, loader, fs);
    if r.Failure? {
      LoadErrorKinds(expanded.value, raws, loader);
    }
  }

  /** Each path was loaded, in order, into the assembly at the same position, whose types were reflected. */
  predicate LoadedFrom(paths: seq<Path>, loader: map<Path, Assembly>, assemblies: seq<Assembly>)
  {
    |assemblies| == |paths| && AllReflected(assemblies)
    && forall i :: 0 <= i < |paths| ==> paths[i] in loader && loader[paths[i]] == assemblies[i]
  }

  /** The loop's next path, once loaded and reflected, extends what it has loaded. */
  lemma LoadedFromSnoc(paths: seq<Path>, loader: map<Path, Assembly>, assemblies: seq<Assembly>, i: nat)
    requires i < |paths| && LoadedFrom(paths[..i], loader, assemblies)
    requires paths[i] in loader && loader[paths[i]].types.Some?
    ensures LoadedFrom(paths[..i + 1], loader, assemblies + [loader[paths[i]]])
  {
  }

  /**
   * The error the assembly loop throws: at the first assembly that
   * Assembly.LoadFrom cannot load, whose types cannot be reflected, or one
   * of whose registered types cannot be classified; none when every
   * assembly registers.
   */
  function LoadError(paths: seq<Path>, raws: seq<string>, loader: map<Path, Assembly>): Option<Error>
    requires |paths| == |raws|
  {
    if paths == [] then None
    else
      var n := |paths| - 1;
      match LoadError(paths[..n], raws[..n], loader)
      case Some(e) => Some(e)
      case None => AssemblyError(paths[n], raws[n], loader)
  }

  /** The error one assembly of that loop throws: it does not load, its types cannot be reflected, or they do not register. */
  function AssemblyError(path: Path, raw: string, loader: map<Path, Assembly>): Option<Error>
  {
    if path !in loader then Some(AssemblyLoadFailed(raw))
    else if loader[path].types.None? then Some(ReflectionFailed(raw))
    else RegisterError(loader[path].types.value)
  }

  /** An assembly that loads, reflects and registers. */
  predicate Registers(path: Path, loader: map<Path, Assembly>)
  {
    path in loader && loader[path].types.Some? && RegisterError(loader[path].types.value).None?
  }

  /** The assembly loop fails exactly when some assembly does not register, and then at the first that does not. */
  lemma {:induction false} LoadErrorSpec(paths: seq<Path>, raws: seq<string>, loader: map<Path, Assembly>)
    requires |paths| == |raws|
    ensures LoadError(paths, raws, loader).None? <==> forall i :: 0 <= i < |paths| ==> Registers(paths[i], loader)
    ensures LoadError(paths, raws, loader).Some? ==>
      exists i :: 0 <= i < |paths| && !Registers(paths[i], loader) && forall j :: 0 <= j < i ==> Registers(paths[j], loader)
  {
    if paths != [] {
      var n := |paths| - 1;
      var init := paths[..n];
      LoadErrorSpec(init, raws[..n], loader);
      assert forall i :: 0 <= i < n ==> init[i] == paths[i];
      if LoadError(init, raws[..n], loader).Some? {
        var i :| 0 <= i < n && !Registers(init[i], loader) && forall j :: 0 <= j < i ==> Registers(init[j], loader);
        assert !Registers(paths[i], loader) && forall j :: 0 <= j < i ==> Registers(paths[j], loader);
      } else {
        assert LoadError(paths, raws, loader).None? <==> Registers(paths[n], loader);
      }
    }
  }

  lemma LoadErrorStep(paths: seq<Path>, raws: seq<string>, loader: map<Path, Assembly>, i: nat)
    requires |paths| == |raws| && i < |paths| && LoadError(paths[..i], raws[..i], loader).None?
    ensures LoadError(paths[..i + 1], raws[..i + 1], loader) == AssemblyError(paths[i], raws[i], loader)
  {
    assert paths[..i + 1][..i] == paths[..i] && raws[..i + 1][..i] == raws[..i];
  }

  /** The assembly loop raises only load, reflection and classification errors. */
  lemma {:induction false} LoadErrorKinds(paths: seq<Path>, raws: seq<string>, loader: map<Path, Assembly>)
    requires |paths| == |raws| && LoadError(paths, raws, loader).Some?
    ensures var e := LoadError(paths, raws, loader).value;
      e.AssemblyLoadFailed? || e.ReflectionFailed? || e.PropertyNotReadWrite? || e.DuplicateParameter?
  {
    var n := |paths| - 1;
    if LoadError(paths[..n], raws[..n], loader).Some? {
      LoadErrorKinds(paths[..n], raws[..n], loader);
    } else if paths[n] in loader && loader[paths[n]].types.Some? {
      RegisterErrorKinds(loader[paths[n]].types.value);
    }
  }

  lemma {:induction false} LoadErrorSticks(paths: seq<Path>, raws: seq<string>, loader: map<Path, Assembly>, k: nat)
    requires |paths| == |raws| && k <= |paths|
    requires LoadError(paths[..k], raws[..k], loader).Some?
    ensures LoadError(paths, raws, loader) == LoadError(paths[..k], raws[..k], loader)
    decreases |paths| - k
  {
    if k < |paths| {
      assert paths[..k + 1][..k] == paths[..k] && raws[..k + 1][..k] == raws[..k];
      LoadErrorSticks(paths, raws, loader, k + 1);
    } else {
      assert paths[..k] == paths && raws[..k] == raws;
    }
  }

  /** What LoadFilterClasses throws: a path expansion error, or the assembly loop's error. */
  function LoadFailure(env: Env, properties: map<string, string>, raws: seq<string>, loader: map<Path, Assembly>): Option<Error>
  {
    match ExpandAssemblies(env, properties, raws)
    case Failure(e) => Some(e)
    case Success(paths) => LoadError(paths, raws, loader)
  }

  /**
   * One assembly of the second loop of LoadFilterClasses, after the paths
   * before `i` loaded into `assemblies`: it is loaded and reflected, a new
   * class is added per registered type and its write time is folded in.
   */
  method LoadAssembly(paths: seq<Path>, raws: seq<string>, loader: map<Path, Assembly>, fs: FileSystem, i: nat,
                      ghost assemblies: seq<Assembly>, classes: seq<FilterClass>, newest: Time)
    returns (r: Result<(seq<FilterClass>, Time), Error>, ghost next: seq<Assembly>)
    requires |paths| == |raws| && i < |paths|
    requires LoadedFrom(paths[..i], loader, assemblies) && Accumulated(fs, assemblies, classes, newest)
    requires LoadError(paths[..i], raws[..i], loader).None? && DistinctClasses(classes)
    ensures r.Failure? <==> LoadError(paths[..i + 1], raws[..i + 1], loader).Some?
    ensures r.Failure? ==> r.error == LoadError(paths[..i + 1], raws[..i + 1], loader).value
    ensures r.Success? ==>
      LoadedFrom(paths[..i + 1], loader, next) && Accumulated(fs, next, r.value.0, r.value.1)
      && DistinctClasses(r.value.0) && |r.value.0| >= |classes| && r.value.0[..|classes|] == classes
      && forall j :: |classes| <= j < |r.value.0| ==> fresh(r.value.0[j])
  {
    LoadErrorStep(paths, raws, loader, i);
    next := assemblies;
    if paths[i] !in loader {
      return Failure(AssemblyLoadFailed(raws[i])), next;
    }
    var assembly := loader[paths[i]];
    if assembly.types.None? {
      return Failure(ReflectionFailed(raws[i])), next;
    }
    var added := ClassesOfTypes(assembly.types.value);
    if added.Failure? {
      return Failure(added.error), next;
    }
    AccumulateStep(fs, assemblies, classes, newest, assembly, added.value);
    DistinctClassesAppend(classes, added.value);
    LoadedFromSnoc(paths, loader, assemblies, i);
    next := assemblies + [assembly];
    var dateTime := fs.LastWriteTime(assembly.location);
    var latest := if dateTime > newest then dateTime else newest;
    assert (classes + added.value)[..|classes|] == classes;
    return Success((classes + added.value, latest)), next;
  }

  /** The second loop of LoadFilterClasses. */
  method LoadAssemblies(paths: seq<Path>, raws: seq<string>, loader: map<Path, Assembly>, fs: FileSystem)
    returns (r: Result<(seq<FilterClass>, Time), Error>, ghost assemblies: seq<Assembly>)
    requires |paths| == |raws|
    ensures r.Failure? <==> LoadError(paths, raws, loader).Some?
    ensures r.Failure? ==> r.error == LoadError(paths, raws, loader).value
    ensures r.Success? ==>
      LoadedFrom(paths, loader, assemblies) && Accumulated(fs, assemblies, r.value.0, r.value.1)
      && (forall i :: 0 <= i < |r.value.0| ==> fresh(r.value.0[i]))
      && DistinctClasses(r.value.0)
  {
    var classes: seq<FilterClass> := [];
    var newest := MinTime;
    assemblies := [];
    var i := 0;
    while i < |paths|
      invariant 0 <= i <= |paths|
      invariant LoadedFrom(paths[..i], loader, assemblies) && Accumulated(fs, assemblies, classes, newest)
      invariant LoadError(paths[..i], raws[..i], loader).None?
      invariant (forall j :: 0 <= j < |classes| ==> fresh(classes[j])) && DistinctClasses(classes)
    {
      var one;
      one, assemblies := LoadAssembly(paths, raws, loader, fs, i, assemblies, classes, newest);
      if one.Failure? {
        LoadErrorSticks(paths, raws, loader, i + 1);
        return one, assemblies;
      }
      assert forall j :: 0 <= j < |classes| ==> one.value.0[j] == classes[j];
      classes, newest := one.value.0, one.value.1;
      i := i + 1;
    }
    assert paths[..i] == paths && raws[..i] == raws;
    return Success((classes, newest)), assemblies;
  }

  // ---------------------------------------------------------------------
  // The constructor

  /**
   * new VacuumContext(properties, contentFilePath), given the parsed content
   * file, the environment variables, the directory of the executing
   * assembly and the command-line properties as pairs.
   */
  method NewContext(env: Env, fs: FileSystem, loader: map<Path, Assembly>,
                    environment: map<string, string>, vacuumDir: string, commandLine: seq<(string, string)>,
                    contentFilePath: Path, file: ContentFile)
    returns (r: Result<Context, Error>)
    ensures var layered := Layered(environment, vacuumDir, env.directoryOf(contentFilePath),
                                   ContentProperties(file.properties), commandLine);
      var located := ResolveHashesFile(env, layered, contentFilePath);
      (located.Failure? ==> r == Failure(located.error))
      && (located.Success? ==>
            (r.Failure? <==> LoadFailure(env, located.value.0, file.filterAssemblies, loader).Some?)
            && (r.Failure? ==> r.error == LoadFailure(env, located.value.0, file.filterAssemblies, loader).value))
      && (r.Success? ==>
            located.Success?
            && r.value.contentFilePath == contentFilePath && r.value.contentFile == file
            && r.value.properties == located.value.0
            && r.value.contentFileHashesPath == located.value.1
            && r.value.contentFileWriteTime == fs.LastWriteTime(contentFilePath)
            && r.value.globalHash == env.sha1(GlobalPreImage(env, file))
            && ExpandAssemblies(env, located.value.0, file.filterAssemblies).Success?
            && exists assemblies ::
                 LoadedFrom(ExpandAssemblies(env, located.value.0, file.filterAssemblies).value, loader, assemblies)
                 && Accumulated(fs, assemblies, r.value.filterClasses, r.value.newestAssemblyWriteTime))
    ensures r.Success? ==>
      (forall i :: 0 <= i < |r.value.filterClasses| ==> fresh(r.value.filterClasses[i]))
      && DistinctClasses(r.value.filterClasses)
  {
    var contentFileDir := env.directoryOf(contentFilePath);
    var builtIns := BuiltIns(vacuumDir, contentFileDir);
    var content := ContentProperties(file.properties);
    var properties := AddFromList(environment, builtIns);
    properties := AddFromList(properties, content);
    properties := AddFromList(properties, commandLine);
    OverlayAppend(environment, builtIns, content);
    OverlayAppend(environment, builtIns + content, commandLine);
    var located := ResolveHashesFile(env, properties, contentFilePath);
    if located.Failure? {
      return Failure(located.error);
    }
    var (finalProperties, hashesPath) := located.value;
    var writeTime := fs.LastWriteTime(contentFilePath);
    var globalHash := ComputeGlobalHash(env, file);
    var loaded, assemblies := LoadFilterClasses(env, finalProperties, file.filterAssemblies, loader, fs);
    if loaded.Failure? {
      return Failure(loaded.error);
    }
    var (classes, newest) := loaded.value;
    return Success(Context(contentFilePath, file, finalProperties, hashesPath, writeTime, globalHash, classes, newest));
  }
}
