/**
 * VacuumTarget: one target of the content file with its expanded and
 * sorted input and output paths, its filter class and its content hash.
 */
module Targets {
  import opened Wrappers
  import opened Common
  import opened Tson
  import opened Externals
  import opened Strings
  import opened Sorting
  import opened FilterClasses
  import opened FileSystems

  /** A constructed VacuumTarget. */
  datatype Target = Target(
    name: string,
    inputPaths: seq<Path>,
    outputPaths: seq<Path>,
    extension: Extension,
    hash: string,
    properties: map<string, string>,
    node: RawTarget,
    filterClass: FilterClass)

  /** The target's own property collection: TargetName only. */
  function TargetProperties(name: string): (r: map<string, string>)
    ensures r.Keys == {"TargetName"} && r["TargetName"] == name
  {
    map["TargetName" := name]
  }

  /**
   * One raw input or output path: context properties expanded leniently,
   * then the target's properties strictly, then made a full path.
   */
  function ExpandPath(env: Env, context: map<string, string>, name: string, raw: string): Result<Path, Error>
  {
    match env.expand(context, raw, false)
    case None => Failure(ExpansionFailed(raw))
    case Some(s0) =>
      match env.expand(TargetProperties(name), s0, true)
      case None => Failure(ExpansionFailed(raw))
      case Some(s) =>
        match env.fullPath(s)
        case None => Failure(BadPath(s))
        case Some(p) => Success(p)
  }

  /** One input: a wildcard path becomes the files it matches in its (existing) directory. */
  function InputStep(env: Env, context: map<string, string>, name: string,
                     files: map<Path, FileEntry>, directories: set<Path>,
                     acc: seq<Path>, raw: string): Result<seq<Path>, Error>
  {
    match ExpandPath(env, context, name, raw)
    case Failure(e) => Failure(e)
    case Success(p) =>
      if !env.hasWildcards(p) then Success(acc + [p])
      else if env.directoryOf(p) !in directories then Failure(MissingDirectory(env.directoryOf(p)))
      else if |env.getFiles(files, p)| == 0 then Failure(NoWildcardMatches(p))
      else Success(acc + env.getFiles(files, p))
  }

  /** The input loop, as a fold over the raw inputs. */
  function CollectInputs(env: Env, context: map<string, string>, name: string,
                         files: map<Path, FileEntry>, directories: set<Path>,
                         raws: seq<string>): Result<seq<Path>, Error>
  {
    if raws == [] then Success([])
    else
      match CollectInputs(env, context, name, files, directories, raws[..|raws| - 1])
      case Failure(e) => Failure(e)
      case Success(acc) => InputStep(env, context, name, files, directories, acc, raws[|raws| - 1])
  }

  /** The output loop, as a fold over the raw outputs: no wildcard handling. */
  function CollectOutputs(env: Env, context: map<string, string>, name: string, raws: seq<string>): Result<seq<Path>, Error>
  {
    if raws == [] then Success([])
    else
      match CollectOutputs(env, context, name, raws[..|raws| - 1])
      case Failure(e) => Failure(e)
      case Success(acc) =>
        match ExpandPath(env, context, name, raws[|raws| - 1])
        case Failure(e) => Failure(e)
        case Success(p) => Success(acc + [p])
  }

  /** Each raw output yields exactly one path, the expansion of that raw output. */
  lemma {:induction false} OutputsAreExpansions(env: Env, context: map<string, string>, name: string, raws: seq<string>)
    requires CollectOutputs(env, context, name, raws).Success?
    ensures |CollectOutputs(env, context, name, raws).value| == |raws|
    ensures forall i :: 0 <= i < |raws| ==>
      ExpandPath(env, context, name, raws[i]) == Success(CollectOutputs(env, context, name, raws).value[i])
  {
    if raws != [] {
      var init := raws[..|raws| - 1];
      OutputsAreExpansions(env, context, name, init);
      assert forall i :: 0 <= i < |init| ==> raws[i] == init[i];
    }
  }

  /** A failed output expansion fails the whole list. */
  lemma {:induction false} OutputsFailIffSomeFails(env: Env, context: map<string, string>, name: string, raws: seq<string>)
    ensures CollectOutputs(env, context, name, raws).Failure? <==>
      exists i :: 0 <= i < |raws| && ExpandPath(env, context, name, raws[i]).Failure?
  {
    if raws != [] {
      var init := raws[..|raws| - 1];
      OutputsFailIffSomeFails(env, context, name, init);
      assert forall i :: 0 <= i < |init| ==> raws[i] == init[i];
      if CollectOutputs(env, context, name, raws).Failure? && CollectOutputs(env, context, name, init).Failure? {
        var i :| 0 <= i < |init| && ExpandPath(env, context, name, init[i]).Failure?;
        assert raws[i] == init[i];
      }
    }
  }

  /**
   * Every input contributes at least one path, and a list without wildcard
   * paths yields exactly one path per raw input, whatever the filesystem holds.
   */
  lemma {:induction false} InputsCoverEverySpec(env: Env, context: map<string, string>, name: string,
                                                 files: map<Path, FileEntry>, directories: set<Path>,
                                                 raws: seq<string>)
    requires CollectInputs(env, context, name, files, directories, raws).Success?
    ensures |CollectInputs(env, context, name, files, directories, raws).value| >= |raws|
    ensures (forall i :: 0 <= i < |raws| ==> !IsWildcard(env, context, name, raws[i])) ==>
      CollectInputs(env, context, name, files, directories, raws) == CollectOutputs(env, context, name, raws)
  {
    if raws != [] {
      var init := raws[..|raws| - 1];
      InputsCoverEverySpec(env, context, name, files, directories, init);
      assert forall i :: 0 <= i < |init| ==> raws[i] == init[i];
    }
  }

  /** The raw path expands to a path with wildcards. */
  predicate IsWildcard(env: Env, context: map<string, string>, name: string, raw: string)
  {
    ExpandPath(env, context, name, raw).Success? && env.hasWildcards(ExpandPath(env, context, name, raw).value)
  }

  /** The input loop of the constructor. */
  method ExpandInputs(env: Env, context: map<string, string>, name: string, fs: FileSystem, raws: seq<string>)
    returns (r: Result<seq<Path>, Error>)
    ensures r == CollectInputs(env, context, name, fs.files, fs.directories, raws)
  {
    ghost var files, directories := fs.files, fs.directories;
    var inputPaths := [];
    var k := 0;
    while k < |raws|
      invariant 0 <= k <= |raws|
      invariant CollectInputs(env, context, name, files, directories, raws[..k]) == Success(inputPaths)
    {
      CollectInputsStep(env, context, name, files, directories, raws, k, inputPaths);
      var pathSpec := ExpandPath(env, context, name, raws[k]);
      if pathSpec.Failure? {
        CollectInputsFailureSticks(env, context, name, files, directories, raws, k + 1);
        return Failure(pathSpec.error);
      }
      var p := pathSpec.value;
      if env.hasWildcards(p) {
        if env.directoryOf(p) !in fs.directories {
          CollectInputsFailureSticks(env, context, name, files, directories, raws, k + 1);
          return Failure(MissingDirectory(env.directoryOf(p)));
        }
        var matches := env.getFiles(fs.files, p);
        if |matches| == 0 {
          CollectInputsFailureSticks(env, context, name, files, directories, raws, k + 1);
          return Failure(NoWildcardMatches(p));
        }
        inputPaths := inputPaths + matches;
      } else {
        inputPaths := inputPaths + [p];
      }
      k := k + 1;
    }
    assert raws[..k] == raws;
    return Success(inputPaths);
  }

  /** One more raw input is one more InputStep on what the earlier ones collected. */
  lemma CollectInputsStep(env: Env, context: map<string, string>, name: string,
                          files: map<Path, FileEntry>, directories: set<Path>,
                          raws: seq<string>, k: nat, acc: seq<Path>)
    requires k < |raws| && CollectInputs(env, context, name, files, directories, raws[..k]) == Success(acc)
    ensures CollectInputs(env, context, name, files, directories, raws[..k + 1])
         == InputStep(env, context, name, files, directories, acc, raws[k])
  {
    assert raws[..k + 1][..k] == raws[..k];
  }

  lemma {:induction false} CollectInputsFailureSticks(env: Env, context: map<string, string>, name: string,
                                                      files: map<Path, FileEntry>, directories: set<Path>,
                                                      raws: seq<string>, k: nat)
    requires k <= |raws|
    requires CollectInputs(env, context, name, files, directories, raws[..k]).Failure?
    ensures CollectInputs(env, context, name, files, directories, raws) == CollectInputs(env, context, name, files, directories, raws[..k])
    decreases |raws| - k
  {
    if k < |raws| {
      assert raws[..k + 1][..k] == raws[..k];
      CollectInputsFailureSticks(env, context, name, files, directories, raws, k + 1);
    } else {
      assert raws[..k] == raws;
    }
  }

  /** The output loop of the constructor. */
  method ExpandOutputs(env: Env, context: map<string, string>, name: string, raws: seq<string>)
    returns (r: Result<seq<Path>, Error>)
    ensures r == CollectOutputs(env, context, name, raws)
  {
    var outputPaths := [];
    var k := 0;
    while k < |raws|
      invariant 0 <= k <= |raws|
      invariant CollectOutputs(env, context, name, raws[..k]) == Success(outputPaths)
    {
      assert raws[..k + 1][..k] == raws[..k];
      var outputFile := ExpandPath(env, context, name, raws[k]);
      if outputFile.Failure? {
        CollectOutputsFailureSticks(env, context, name, raws, k + 1);
        return Failure(outputFile.error);
      }
      outputPaths := outputPaths + [outputFile.value];
      k := k + 1;
    }
    assert raws[..k] == raws;
    return Success(outputPaths);
  }

  lemma {:induction false} CollectOutputsFailureSticks(env: Env, context: map<string, string>, name: string,
                                                       raws: seq<string>, k: nat)
    requires k <= |raws|
    requires CollectOutputs(env, context, name, raws[..k]).Failure?
    ensures CollectOutputs(env, context, name, raws) == CollectOutputs(env, context, name, raws[..k])
    decreases |raws| - k
  {
    if k < |raws| {
      assert raws[..k + 1][..k] == raws[..k];
      CollectOutputsFailureSticks(env, context, name, raws, k + 1);
    } else {
      assert raws[..k] == raws;
    }
  }

  /** The extensions of a list of paths, in order. */
  function ExtensionsOf(env: Env, paths: seq<Path>): (r: seq<string>)
    ensures |r| == |paths| && forall i :: 0 <= i < |paths| ==> r[i] == env.extensionOf(paths[i])
  {
    if paths == [] then [] else ExtensionsOf(env, paths[..|paths| - 1]) + [env.extensionOf(paths[|paths| - 1])]
  }

  /** new FilterExtension(inputs, outputs): the extension signature of a target's files. */
  function Signature(env: Env, inputs: seq<Path>, outputs: seq<Path>): Extension
  {
    Extension(ExtensionsOf(env, inputs), ExtensionsOf(env, outputs))
  }

  /** Some extension of the list equals the signature. */
  predicate Handles(env: Env, extensions: seq<Extension>, signature: Extension)
  {
    exists i :: 0 <= i < |extensions| && env.extensionEquals(extensions[i], signature)
  }

  /** A target without a filter name, or with an empty one, picks its filter by extension. */
  predicate ImplicitFilter(raw: RawTarget)
  {
    raw.filter.None? || |raw.filter.value| == 0
  }

  /** The implicit search: the first filter class, in order, one of whose extensions equals the signature. */
  method FindImplicitFilter(env: Env, classes: seq<FilterClass>, signature: Extension) returns (r: Option<nat>)
    ensures r.Some? ==> r.value < |classes| && Handles(env, classes[r.value].extensions, signature)
    ensures r.Some? ==> forall j :: 0 <= j < r.value ==> !Handles(env, classes[j].extensions, signature)
    ensures r.None? ==> forall j :: 0 <= j < |classes| ==> !Handles(env, classes[j].extensions, signature)
  {
    var c := 0;
    while c < |classes|
      invariant 0 <= c <= |classes|
      invariant forall j :: 0 <= j < c ==> !Handles(env, classes[j].extensions, signature)
    {
      var extensions := classes[c].extensions;
      var e := 0;
      while e < |extensions|
        invariant 0 <= e <= |extensions|
        invariant forall i :: 0 <= i < e ==> !env.extensionEquals(extensions[i], signature)
      {
        if env.extensionEquals(extensions[e], signature) {
          return Some(c);
        }
        e := e + 1;
      }
      c := c + 1;
    }
    return None;
  }

  /** The explicit search: the first filter class whose full name ends with the given name, ignoring case. */
  method FindExplicitFilter(classes: seq<FilterClass>, filter: string) returns (r: Option<nat>)
    ensures r.Some? ==> r.value < |classes| && EndsWithIgnoreCase(classes[r.value].name, filter)
    ensures r.Some? ==> forall j :: 0 <= j < r.value ==> !EndsWithIgnoreCase(classes[j].name, filter)
    ensures r.None? ==> forall j :: 0 <= j < |classes| ==> !EndsWithIgnoreCase(classes[j].name, filter)
  {
    var c := 0;
    while c < |classes|
      invariant 0 <= c <= |classes|
      invariant forall j :: 0 <= j < c ==> !EndsWithIgnoreCase(classes[j].name, filter)
    {
      if EndsWithIgnoreCase(classes[c].name, filter) {
        return Some(c);
      }
      c := c + 1;
    }
    return None;
  }

  /** The parameters' contribution to the hash pre-image: each key followed by its value's text. */
  function ParameterText(env: Env, parameters: Parameters): string
  {
    if parameters == [] then ""
    else
      var last := parameters[|parameters| - 1];
      ParameterText(env, parameters[..|parameters| - 1]) + last.0 + env.nodeText(last.1)
  }

  /** The text whose SHA1 is the target's hash: inputs, outputs, filter and parameters as written. */
  function HashPreImage(env: Env, raw: RawTarget): string
  {
    env.arrayText(raw.inputs) + env.arrayText(raw.outputs)
      + (if raw.filter.Some? then env.stringText(raw.filter.value) else "")
      + (if raw.parameters.Some? then ParameterText(env, raw.parameters.value) else "")
  }

  /** The parameter text of two parameter lists in sequence is the two texts in sequence. */
  lemma {:induction false} ParameterTextAppend(env: Env, p: Parameters, q: Parameters)
    ensures ParameterText(env, p + q) == ParameterText(env, p) + ParameterText(env, q)
    decreases |q|
  {
    if q == [] {
      assert p + q == p;
    } else {
      var q0 := q[..|q| - 1];
      ParameterTextAppend(env, p, q0);
      assert (p + q)[..|p + q| - 1] == p + q0;
    }
  }

  /**
   * The hash depends only on what the target declares: not on its name, not
   * on where it is declared, and not on the filesystem or the context.
   */
  lemma HashIgnoresNameAndLocation(env: Env, raw: RawTarget, name: string, location: Location)
    ensures HashPreImage(env, raw.(name := name, location := location)) == HashPreImage(env, raw)
  {
  }

  /** The loop over the parameter pairs: each key, then its value's text, appended to `sb0`. */
  method AppendParameters(env: Env, sb0: string, parameters: Parameters) returns (sb: string)
    ensures sb == sb0 + ParameterText(env, parameters)
  {
    sb := sb0;
    var k := 0;
    while k < |parameters|
      invariant 0 <= k <= |parameters|
      invariant sb == sb0 + ParameterText(env, parameters[..k])
    {
      assert parameters[..k + 1][..k] == parameters[..k];
      sb := sb + parameters[k].0 + env.nodeText(parameters[k].1);
      k := k + 1;
    }
    assert parameters[..k] == parameters;
  }

  /** The pre-image loop of the constructor. */
  method ComputeHash(env: Env, raw: RawTarget) returns (hash: string)
    ensures hash == env.sha1(HashPreImage(env, raw))
  {
    var filterText := if raw.filter.Some? then env.stringText(raw.filter.value) else "";
    var parameterText := "";
    if raw.parameters.Some? {
      parameterText := AppendParameters(env, "", raw.parameters.value);
      assert "" + ParameterText(env, raw.parameters.value) == ParameterText(env, raw.parameters.value);
    }
    hash := env.sha1(env.arrayText(raw.inputs) + env.arrayText(raw.outputs) + filterText + parameterText);
  }

  /** VacuumTarget.GetHashCode: the hash code of the name. */
  function GetHashCode(env: Env, t: Target): int
  {
    env.stringHash(t.name)
  }

  /** Two targets with the same name have the same hash code, whatever their files. */
  lemma SameNameSameHashCode(env: Env, t: Target, u: Target)
    requires t.name == u.name
    ensures GetHashCode(env, t) == GetHashCode(env, u)
  {
  }

  /**
   * The paths stage of the constructor, in its order of checks: inputs
   * present, inputs expanded, outputs present, outputs expanded; both lists
   * sorted.
   */
  function ResolvePaths(env: Env, context: map<string, string>, files: map<Path, FileEntry>,
                        directories: set<Path>, raw: RawTarget): Result<(seq<Path>, seq<Path>), Error>
  {
    if |raw.inputs| == 0 then Failure(NoInputs(raw.name))
    else
      match CollectInputs(env, context, raw.name, files, directories, raw.inputs)
      case Failure(e) => Failure(e)
      case Success(ins) =>
        if |raw.outputs| == 0 then Failure(NoOutputs(raw.name))
        else
          match CollectOutputs(env, context, raw.name, raw.outputs)
          case Failure(e) => Failure(e)
          case Success(outs) => Success((Sort(ins), Sort(outs)))
  }

  /** Resolved paths are sorted, non-empty, and the target has one output path per declared output. */
  lemma ResolvedPathsShape(env: Env, context: map<string, string>, files: map<Path, FileEntry>,
                           directories: set<Path>, raw: RawTarget)
    requires ResolvePaths(env, context, files, directories, raw).Success?
    ensures var (ins, outs) := ResolvePaths(env, context, files, directories, raw).value;
      Sorted(ins) && Sorted(outs) && |ins| >= |raw.inputs| > 0 && |outs| == |raw.outputs| > 0
  {
    InputsCoverEverySpec(env, context, raw.name, files, directories, raw.inputs);
    OutputsAreExpansions(env, context, raw.name, raw.outputs);
  }

  /**
   * Position `c` holds the filter class the target is given: the first one
   * handling the signature when the filter is implicit, otherwise the first
   * one whose full name ends with the filter name, ignoring case.
   */
  predicate Chooses(env: Env, raw: RawTarget, signature: Extension, classes: seq<FilterClass>, c: nat)
    reads classes
  {
    c < |classes| &&
    if ImplicitFilter(raw) then
      Handles(env, classes[c].extensions, signature)
      && forall j :: 0 <= j < c ==> !Handles(env, classes[j].extensions, signature)
    else
      EndsWithIgnoreCase(classes[c].name, raw.filter.value)
      && forall j :: 0 <= j < c ==> !EndsWithIgnoreCase(classes[j].name, raw.filter.value)
  }

  /**
   * `t` is the target built from `raw`: its paths resolved and sorted, its
   * signature, its properties, its hash and the filter class chosen for it.
   */
  ghost predicate Built(env: Env, context: map<string, string>, files: map<Path, FileEntry>, directories: set<Path>,
                        classes: seq<FilterClass>, raw: RawTarget, t: Target)
    reads classes
  {
    ResolvePaths(env, context, files, directories, raw).Success?
    && var (ins, outs) := ResolvePaths(env, context, files, directories, raw).value;
    t.name == raw.name && t.node == raw && t.inputPaths == ins && t.outputPaths == outs
    && t.extension == Signature(env, ins, outs)
    && t.properties == TargetProperties(raw.name)
    && t.hash == env.sha1(HashPreImage(env, raw))
    && exists c: nat :: Chooses(env, raw, t.extension, classes, c) && t.filterClass == classes[c]
  }

  /**
   * `e` is what the constructor throws for `raw`: the error of its paths
   * stage, or, once the paths resolve, the "no filter" error of the search
   * the declaration asks for, with no class matching.
   */
  predicate Rejects(env: Env, context: map<string, string>, files: map<Path, FileEntry>, directories: set<Path>,
                    classes: seq<FilterClass>, raw: RawTarget, e: Error)
    reads classes
  {
    match ResolvePaths(env, context, files, directories, raw)
    case Failure(pathError) => e == pathError
    case Success((ins, outs)) =>
      if ImplicitFilter(raw) then
        e == NoFilterForExtension(raw.name, Signature(env, ins, outs))
        && forall j :: 0 <= j < |classes| ==> !Handles(env, classes[j].extensions, Signature(env, ins, outs))
      else
        e == FilterNotFound(raw.filter.value)
        && forall j :: 0 <= j < |classes| ==> !EndsWithIgnoreCase(classes[j].name, raw.filter.value)
  }

  /** new VacuumTarget(rawTarget, vacuumContext). */
  method NewVacuumTarget(env: Env, context: map<string, string>, classes: seq<FilterClass>,
                         fs: FileSystem, raw: RawTarget) returns (r: Result<Target, Error>)
    ensures ResolvePaths(env, context, fs.files, fs.directories, raw).Failure? ==> r.Failure?
    ensures r.Failure? ==> Rejects(env, context, fs.files, fs.directories, classes, raw, r.error)
    ensures r.Success? ==> Built(env, context, fs.files, fs.directories, classes, raw, r.value)
  {
    var paths := ResolveTargetPaths(env, context, fs, raw);
    if paths.Failure? {
      return Failure(paths.error);
    }
    var (inputPaths, outputPaths) := paths.value;
    var extension := Signature(env, inputPaths, outputPaths);
    var chosen := ChooseFilter(env, raw, extension, classes);
    if chosen.Failure? {
      return Failure(chosen.error);
    }
    var hash := ComputeHash(env, raw);
    var t := Target(raw.name, inputPaths, outputPaths, extension, hash, TargetProperties(raw.name), raw, classes[chosen.value]);
    return Success(t);
  }

  /** The first half of the constructor: the input and output lists, expanded and sorted. */
  method ResolveTargetPaths(env: Env, context: map<string, string>, fs: FileSystem, raw: RawTarget)
    returns (r: Result<(seq<Path>, seq<Path>), Error>)
    ensures r == ResolvePaths(env, context, fs.files, fs.directories, raw)
  {
    if |raw.inputs| == 0 {
      return Failure(NoInputs(raw.name));
    }
    var inputs := ExpandInputs(env, context, raw.name, fs, raw.inputs);
    if inputs.Failure? {
      return Failure(inputs.error);
    }
    var inputPaths := Sort(inputs.value);
    if |raw.outputs| == 0 {
      return Failure(NoOutputs(raw.name));
    }
    var outputs := ExpandOutputs(env, context, raw.name, raw.outputs);
    if outputs.Failure? {
      return Failure(outputs.error);
    }
    var outputPaths := Sort(outputs.value);
    return Success((inputPaths, outputPaths));
  }

  /** The second half of the constructor: the filter class named by the target or found by its extension. */
  method ChooseFilter(env: Env, raw: RawTarget, extension: Extension, classes: seq<FilterClass>)
    returns (r: Result<nat, Error>)
    ensures r.Success? ==> Chooses(env, raw, extension, classes, r.value)
    ensures r.Failure? && ImplicitFilter(raw) ==>
      r.error == NoFilterForExtension(raw.name, extension)
      && forall j :: 0 <= j < |classes| ==> !Handles(env, classes[j].extensions, extension)
    ensures r.Failure? && !ImplicitFilter(raw) ==>
      r.error == FilterNotFound(raw.filter.value)
      && forall j :: 0 <= j < |classes| ==> !EndsWithIgnoreCase(classes[j].name, raw.filter.value)
  {
    if ImplicitFilter(raw) {
      var chosen := FindImplicitFilter(env, classes, extension);
      if chosen.None? {
        return Failure(NoFilterForExtension(raw.name, extension));
      }
      return Success(chosen.value);
    } else {
      var chosen := FindExplicitFilter(classes, raw.filter.value);
      if chosen.None? {
        return Failure(FilterNotFound(raw.filter.value));
      }
      return Success(chosen.value);
    }
  }
}
