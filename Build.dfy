/**
 * The run loop of VacuumTool: preparing and ordering the targets, reading
 * and writing the content hashes file, cleaning, and filtering each target
 * that is out of date.
 */
module Build {
  import opened Wrappers
  import opened Common
  import opened Tson
  import opened Externals
  import opened FileSystems
  import opened ParameterAttributes
  import opened FilterClasses
  import opened ParameterBinding
  import opened Targets
  import opened TopologicalSort
  import opened Contexts
  import opened Staleness

  // ---------------------------------------------------------------------
  // PrepareVacuumTargets

  /** The targets in the given order of positions. */
  function Arrange(ts: seq<Target>, order: seq<nat>): (r: seq<Target>)
    requires forall i :: 0 <= i < |order| ==> order[i] < |ts|
    ensures |r| == |order| && forall i :: 0 <= i < |order| ==> r[i] == ts[order[i]]
  {
    seq(|order|, i requires 0 <= i < |order| => ts[order[i]])
  }

  /**
   * The first loop of VacuumTool.PrepareVacuumTargets: one target per raw
   * target, in content file order (`built`), stopping at the first
   * construction failure, which is wrapped with the raw target's name.
   */
  method BuildVacuumTargets(env: Env, ctx: Context, fs: FileSystem)
    returns (r: Result<seq<Target>, Error>, built: seq<Target>)
    ensures var raws := ctx.contentFile.targets;
      |built| <= |raws| && forall i :: 0 <= i < |built| ==> Built(env, ctx.properties, fs.files, fs.directories, ctx.filterClasses, raws[i], built[i])
    ensures var raws := ctx.contentFile.targets;
      |built| < |raws| ==>
        r.Failure? && r.error.PrepareFailed? && r.error.target == raws[|built|].name
        && Rejects(env, ctx.properties, fs.files, fs.directories, ctx.filterClasses, raws[|built|], r.error.inner)
    ensures |built| == |ctx.contentFile.targets| ==> r == Success(built)
  {
    var raws := ctx.contentFile.targets;
    var vacuumTargets := [];
    built := [];
    var k := 0;
    while k < |raws|
      invariant 0 <= k <= |raws| && |vacuumTargets| == k && built == vacuumTargets
      invariant forall i :: 0 <= i < k ==> Built(env, ctx.properties, fs.files, fs.directories, ctx.filterClasses, raws[i], vacuumTargets[i])
    {
      var t := NewVacuumTarget(env, ctx.properties, ctx.filterClasses, fs, raws[k]);
      if t.Failure? {
        return Failure(PrepareFailed(raws[k].name, t.error)), built;
      }
      vacuumTargets := vacuumTargets + [t.value];
      built := vacuumTargets;
      k := k + 1;
    }
    return Success(vacuumTargets), built;
  }

  /**
   * VacuumTool.PrepareVacuumTargets: the targets built in content file
   * order (`built`), then put in dependency order (`order`).
   */
  method PrepareVacuumTargets(env: Env, ctx: Context, fs: FileSystem)
    returns (r: Result<seq<Target>, Error>, built: seq<Target>, order: seq<nat>)
    ensures var raws := ctx.contentFile.targets;
      |built| <= |raws| && forall i :: 0 <= i < |built| ==> Built(env, ctx.properties, fs.files, fs.directories, ctx.filterClasses, raws[i], built[i])
    ensures var raws := ctx.contentFile.targets;
      |built| < |raws| ==>
        r.Failure? && r.error.PrepareFailed? && r.error.target == raws[|built|].name
        && Rejects(env, ctx.properties, fs.files, fs.directories, ctx.filterClasses, raws[|built|], r.error.inner)
    ensures |built| == |ctx.contentFile.targets| ==>
      (r.Success? <==> Acyclic(Nodes(built)) && SingleEdges(Nodes(built)))
      && (r.Success? ==>
            IsPermutation(Nodes(built), order) && RespectsFeeds(Nodes(built), order)
            && r.value == Arrange(built, order))
      && (r.Failure? ==> r.error.CircularDependency? && r.error.position < |built|)
  {
    var targets;
    targets, built := BuildVacuumTargets(env, ctx, fs);
    order := [];
    if targets.Failure? {
      return Failure(targets.error), built, order;
    }
    var vacuumTargets := targets.value;
    var sorted := TopologicallySortVacuumTargets(vacuumTargets);
    if sorted.Failure? {
      return Failure(sorted.error), built, order;
    }
    order := sorted.value;
    return Success(Arrange(vacuumTargets, sorted.value)), built, order;
  }

  // ---------------------------------------------------------------------
  // The content hashes file

  /** Every target's hash, in run order (the Select over the targets). */
  function TargetHashes(targets: seq<Target>): (r: seq<string>)
    ensures |r| == |targets| && forall i :: 0 <= i < |targets| ==> r[i] == targets[i].hash
  {
    if targets == [] then [] else TargetHashes(targets[..|targets| - 1]) + [targets[|targets| - 1].hash]
  }

  /** The record a run writes: the context's global hash and the targets' hashes. */
  function NewRecord(ctx: Context, targets: seq<Target>): HashRecord
  {
    HashRecord(ctx.globalHash, TargetHashes(targets))
  }

  /** How far the loop over a Targets node gets: the index of its first null element, or its length. */
  function FirstNull(ts: seq<Option<string>>): (k: nat)
    ensures k <= |ts| && (forall j :: 0 <= j < k ==> ts[j].Some?) && (k < |ts| ==> ts[k].None?)
  {
    if ts == [] || ts[0].None? then 0 else 1 + FirstNull(ts[1..])
  }

  /** Reading a parsed hashes file throws: it did not parse, or a node it dereferences is null. */
  predicate Unreadable(node: Option<HashesFileNode>)
  {
    node.None? || node.value.global.None? || node.value.targets.None?
    || FirstNull(node.value.targets.value) < |node.value.targets.value|
  }

  /**
   * What a run starts from: empty when the file is missing; otherwise the
   * global hash and the target hashes read before the read threw, if it did.
   */
  function OldHashes(env: Env, files: map<Path, FileEntry>, path: Path): (string, set<string>)
  {
    if path !in files then ("", {})
    else
      var node := env.parseHashes(files[path].text);
      if node.None? || node.value.global.None? then ("", {})
      else if node.value.targets.None? then (node.value.global.value, {})
      else
        var ts := node.value.targets.value;
        (node.value.global.value, set j | 0 <= j < FirstNull(ts) :: ts[j].value)
  }

  /** The files after reading the hashes file: an unreadable one is deleted. */
  function AfterRead(env: Env, files: map<Path, FileEntry>, path: Path): map<Path, FileEntry>
  {
    if path in files && Unreadable(env.parseHashes(files[path].text)) then files - {path} else files
  }

  /** VacuumTool.ReadOldContentFileHashes. */
  method ReadOldContentFileHashes(env: Env, path: Path, fs: FileSystem)
    returns (oldGlobalHash: string, oldTargetHashes: set<string>)
    modifies fs
    ensures (oldGlobalHash, oldTargetHashes) == OldHashes(env, old(fs.files), path)
    ensures fs.files == AfterRead(env, old(fs.files), path)
  {
    oldGlobalHash := "";
    oldTargetHashes := {};
    if fs.Exists(path) {
      var hashes := env.parseHashes(fs.files[path].text);
      if hashes.None? || hashes.value.global.None? {
        // A bad file is not used again
        fs.Delete(path);
        return;
      }
      oldGlobalHash := hashes.value.global.value;
      if hashes.value.targets.None? {
        fs.Delete(path);
        return;
      }
      var targets := hashes.value.targets.value;
      var k := 0;
      while k < |targets|
        invariant 0 <= k <= |targets| && forall j :: 0 <= j < k ==> targets[j].Some?
        invariant oldTargetHashes == set j | 0 <= j < k :: targets[j].value
      {
        if targets[k].None? {
          assert k == FirstNull(targets);
          fs.Delete(path);
          return;
        }
        oldTargetHashes := oldTargetHashes + {targets[k].value};
        k := k + 1;
      }
      assert k == FirstNull(targets);
    }
  }

  /** VacuumTool.WriteNewContentFileHashes at time `now`; a file that cannot be written only raises a warning. */
  method WriteNewContentFileHashes(env: Env, ctx: Context, targets: seq<Target>, fs: FileSystem, now: Time)
    returns (warned: bool)
    modifies fs
    ensures warned <==> ctx.contentFileHashesPath in fs.readOnly
    ensures fs.files == if warned then old(fs.files)
                        else old(fs.files)[ctx.contentFileHashesPath := FileEntry(now, env.formatHashes(NewRecord(ctx, targets)))]
  {
    var tson := env.formatHashes(HashRecord(ctx.globalHash, TargetHashes(targets)));
    var ok := fs.WriteAllText(ctx.contentFileHashesPath, tson, now);
    warned := !ok;
  }

  /**
   * When the hashes format reads back what it writes, the next run finds
   * this run's global hash and every target's hash, deletes nothing, and so
   * sees every target's definition as unchanged.
   */
  lemma NextRunSeesDefinitionsUnchanged(env: Env, ctx: Context, targets: seq<Target>,
                                        files: map<Path, FileEntry>, path: Path, now: Time)
    requires env.parseHashes(env.formatHashes(NewRecord(ctx, targets))) == Some(RecordNode(NewRecord(ctx, targets)))
    ensures var written := files[path := FileEntry(now, env.formatHashes(NewRecord(ctx, targets)))];
      AfterRead(env, written, path) == written
      && OldHashes(env, written, path) == (ctx.globalHash, set i | 0 <= i < |targets| :: targets[i].hash)
      && forall i :: 0 <= i < |targets| ==>
           !DefinitionChanged(OldHashes(env, written, path).0, ctx.globalHash, OldHashes(env, written, path).1, targets[i].hash)
  {
    var ts := RecordNode(NewRecord(ctx, targets)).targets.value;
    assert (set j | 0 <= j < |ts| :: ts[j].value) == set i | 0 <= i < |targets| :: targets[i].hash by {
      forall j | 0 <= j < |ts|
        ensures ts[j].value == targets[j].hash
      {
      }
    }
  }

  /** Without a readable record every target's definition counts as changed. */
  lemma MissingRecordChangesEveryDefinition(env: Env, files: map<Path, FileEntry>, path: Path,
                                            globalHash: string, hash: string)
    requires path !in files || env.parseHashes(files[path].text).None? || env.parseHashes(files[path].text).value.global.None?
    ensures OldHashes(env, files, path) == ("", {})
    ensures DefinitionChanged(OldHashes(env, files, path).0, globalHash, OldHashes(env, files, path).1, hash)
  {
  }

  // ---------------------------------------------------------------------
  // Clean

  /** Every output path of the targets. */
  function OutputsOf(targets: seq<Target>): set<Path>
  {
    if targets == [] then {}
    else
      var last := targets[|targets| - 1].outputPaths;
      OutputsOf(targets[..|targets| - 1]) + (set p | p in last)
  }

  /** A path is an output of the targets exactly when some target lists it. */
  lemma {:induction false} OutputsOfSpec(targets: seq<Target>, p: Path)
    ensures p in OutputsOf(targets) <==> exists i :: 0 <= i < |targets| && p in targets[i].outputPaths
  {
    if targets != [] {
      var init := targets[..|targets| - 1];
      OutputsOfSpec(init, p);
      assert forall i :: 0 <= i < |init| ==> init[i] == targets[i];
      if p in OutputsOf(targets) && p !in OutputsOf(init) {
        assert p in targets[|targets| - 1].outputPaths;
      }
    }
  }

  /** The inner loop of Clean: deletes those of the paths that exist. */
  method DeleteExisting(paths: seq<Path>, fs: FileSystem) returns (deleted: seq<Path>)
    modifies fs
    ensures fs.files == old(fs.files) - (set p | p in paths)
    ensures forall p :: p in deleted <==> p in paths && p in old(fs.files)
  {
    deleted := [];
    var k := 0;
    while k < |paths|
      invariant 0 <= k <= |paths|
      invariant fs.files == old(fs.files) - (set p | p in paths[..k])
      invariant forall p :: p in deleted <==> p in paths[..k] && p in old(fs.files)
    {
      assert paths[..k + 1] == paths[..k] + [paths[k]];
      if fs.Exists(paths[k]) {
        fs.Delete(paths[k]);
        deleted := deleted + [paths[k]];
      }
      k := k + 1;
    }
    assert paths[..k] == paths;
  }

  /** VacuumTool.Clean: deletes every existing output and the hashes file; `deleted` lists what it reports. */
  method Clean(ctx: Context, targets: seq<Target>, fs: FileSystem) returns (deleted: seq<Path>)
    modifies fs
    ensures fs.files == old(fs.files) - (OutputsOf(targets) + {ctx.contentFileHashesPath})
    ensures forall p :: p in deleted <==> p in old(fs.files) && (p in OutputsOf(targets) || p == ctx.contentFileHashesPath)
  {
    deleted := [];
    var k := 0;
    while k < |targets|
      invariant 0 <= k <= |targets|
      invariant fs.files == old(fs.files) - OutputsOf(targets[..k])
      invariant forall p :: p in deleted <==> p in old(fs.files) && p in OutputsOf(targets[..k])
    {
      assert targets[..k + 1][..k] == targets[..k];
      var d := DeleteExisting(targets[k].outputPaths, fs);
      deleted := deleted + d;
      k := k + 1;
    }
    assert targets[..k] == targets;
    var hashPath := ctx.contentFileHashesPath;
    if fs.Exists(hashPath) {
      fs.Delete(hashPath);
      deleted := deleted + [hashPath];
    }
  }

  /** A non-empty sequence holds its first element. */
  lemma HeadIsMember(s: seq<Path>)
    requires s != []
    ensures s[0] in s
  {
  }

  /** Cleaning twice is cleaning once: the second Clean reports nothing and deletes nothing. */
  method CleanIdempotent(ctx: Context, targets: seq<Target>, fs: FileSystem) returns (first: seq<Path>, second: seq<Path>)
    modifies fs
    ensures fs.files == old(fs.files) - (OutputsOf(targets) + {ctx.contentFileHashesPath})
    ensures second == []
  {
    first := Clean(ctx, targets, fs);
    ghost var cleaned := fs.files;
    second := Clean(ctx, targets, fs);
    assert fs.files == cleaned;
    if second != [] {
      HeadIsMember(second);
      assert false;
    }
  }

  // ---------------------------------------------------------------------
  // Filter

  /**
   * FilterClass.FilterMethod.Invoke for a target of the named filter class,
   * given the class's parameter values and the files: the files afterwards,
   * and the inner exception's message when the filter throws.
   */
  type Invoker = (string, Target, map<string, Value>, map<Path, FileEntry>) -> (map<Path, FileEntry>, Option<string>)

  /** The position of the first of the paths that does not exist. */
  function FirstMissing(files: map<Path, FileEntry>, paths: seq<Path>): (r: Option<nat>)
    ensures r.Some? ==> r.value < |paths| && paths[r.value] !in files
    ensures r.Some? ==> forall j :: 0 <= j < r.value ==> paths[j] in files
    ensures r.None? <==> forall j :: 0 <= j < |paths| ==> paths[j] in files
  {
    if paths == [] then None
    else if paths[0] !in files then Some(0)
    else match FirstMissing(files, paths[1..])
      case None => None
      case Some(i) => Some(i + 1)
  }

  /** The loops of Filter that check that files exist. */
  method FindMissing(paths: seq<Path>, fs: FileSystem) returns (r: Option<nat>)
    ensures r == FirstMissing(fs.files, paths)
  {
    var k := 0;
    while k < |paths|
      invariant 0 <= k <= |paths|
      invariant forall j :: 0 <= j < k ==> paths[j] in fs.files
    {
      if !fs.Exists(paths[k]) {
        return Some(k);
      }
      k := k + 1;
    }
    return None;
  }

  /** One target's turn in Filter: the files and the class's parameter values before and after, and what happened. */
  datatype Turn = Turn(files0: map<Path, FileEntry>, values0: map<string, Value>,
                       files1: map<Path, FileEntry>, values1: map<string, Value>,
                       filtered: bool, r: Outcome<Error>)

  /** Nothing changed in the turn. */
  predicate Untouched(turn: Turn)
  {
    !turn.filtered && turn.files1 == turn.files0 && turn.values1 == turn.values0
  }

  /**
   * One iteration of Filter's loop for target `t`, in the order of its
   * checks: inputs exist, the target is out of date, the class has Context
   * and Target properties, the target parameters bind, the filter runs, the
   * outputs exist.
   */
  predicate TurnHolds(force: bool, ctx: Context, oldGlobalHash: string, oldTargetHashes: set<string>,
                      missingTime: Time, invoke: Invoker, t: Target, turn: Turn)
  {
    var fc := t.filterClass;
    match FirstMissing(turn.files0, t.inputPaths)
    case Some(i) => turn.r == Fail(MissingInputFile(t.inputPaths[i])) && Untouched(turn)
    case None =>
      if !Stale(force, ctx.newestAssemblyWriteTime, ctx.contentFileWriteTime,
                DefinitionChanged(oldGlobalHash, ctx.globalHash, oldTargetHashes, t.hash),
                TimesOf(turn.files0, missingTime, t.inputPaths), TimesOf(turn.files0, missingTime, t.outputPaths)) then
        turn.r == Pass && Untouched(turn)
      else if !fc.hasContextProperty then turn.r == Fail(MissingFilterProperty(fc.name, "Context")) && Untouched(turn)
      else if !fc.hasTargetProperty then turn.r == Fail(MissingFilterProperty(fc.name, "Target")) && Untouched(turn)
      else
        var b := Bind(fc.ParametersIn(TargetScope), fc.name, turn.values0, t.node.parameters);
        turn.values1 == b.values &&
        if !(b.error.None? && b.required == {}) then
          Completes(b, fc.name, turn.r) && !turn.filtered && turn.files1 == turn.files0
        else
          var (files, message) := invoke(fc.name, t, b.values, turn.files0);
          turn.filtered && turn.files1 == files &&
          match message
          case Some(m) => turn.r == Fail(FilterFailed(t.name, m))
          case None =>
            match FirstMissing(files, t.outputPaths)
            case Some(j) => turn.r == Fail(OutputNotGenerated(t.name, t.outputPaths[j]))
            case None => turn.r == Pass
  }

  /**
   * A turn that passes found every input, and when it ran the filter it
   * left every output in place; a turn that did not run the filter changed
   * no file.
   */
  lemma PassedTurnHasFiles(force: bool, ctx: Context, oldGlobalHash: string, oldTargetHashes: set<string>,
                           missingTime: Time, invoke: Invoker, t: Target, turn: Turn)
    requires TurnHolds(force, ctx, oldGlobalHash, oldTargetHashes, missingTime, invoke, t, turn)
    ensures turn.r.Pass? ==> forall j :: 0 <= j < |t.inputPaths| ==> t.inputPaths[j] in turn.files0
    ensures turn.r.Pass? && turn.filtered ==> forall j :: 0 <= j < |t.outputPaths| ==> t.outputPaths[j] in turn.files1
    ensures !turn.filtered ==> turn.files1 == turn.files0
  {
  }

  /** With Force, every target whose inputs exist reaches its filter class's checks. */
  lemma ForceFiltersEveryTarget(ctx: Context, oldGlobalHash: string, oldTargetHashes: set<string>,
                                missingTime: Time, invoke: Invoker, t: Target, turn: Turn)
    requires TurnHolds(true, ctx, oldGlobalHash, oldTargetHashes, missingTime, invoke, t, turn)
    requires FirstMissing(turn.files0, t.inputPaths).None?
    requires t.filterClass.hasContextProperty && t.filterClass.hasTargetProperty
    ensures turn.values1 == Bind(t.filterClass.ParametersIn(TargetScope), t.filterClass.name, turn.values0, t.node.parameters).values
  {
  }

  /** The errors a turn can raise. */
  predicate IsTurnError(e: Error, t: Target)
  {
    e.MissingInputFile? || (e.MissingFilterProperty? && e.filter == t.filterClass.name)
    || IsBindError(e, t.filterClass.name)
    || (e.RequiredParameterNotSet? && e.filter == t.filterClass.name)
    || (e.FilterFailed? && e.target == t.name)
    || (e.OutputNotGenerated? && e.target == t.name)
  }

  /** A failing turn raises one of the errors of Filter's loop. */
  lemma TurnErrorKinds(force: bool, ctx: Context, oldGlobalHash: string, oldTargetHashes: set<string>,
                       missingTime: Time, invoke: Invoker, t: Target, turn: Turn)
    requires TurnHolds(force, ctx, oldGlobalHash, oldTargetHashes, missingTime, invoke, t, turn)
    requires turn.r.Fail?
    ensures IsTurnError(turn.r.error, t)
  {
    var fc := t.filterClass;
    if FirstMissing(turn.files0, t.inputPaths).None? && fc.hasContextProperty && fc.hasTargetProperty {
      var b := Bind(fc.ParametersIn(TargetScope), fc.name, turn.values0, t.node.parameters);
      if !(b.error.None? && b.required == {}) {
        BindFailureKinds(fc.ParametersIn(TargetScope), fc.name, turn.values0, t.node.parameters, turn.r);
      }
    }
  }

  /** One iteration of Filter's loop. */
  method FilterTarget(force: bool, ctx: Context, t: Target, oldGlobalHash: string, oldTargetHashes: set<string>,
                      fs: FileSystem, invoke: Invoker) returns (filtered: bool, warnings: seq<string>, r: Outcome<Error>)
    modifies fs, t.filterClass
    ensures TurnHolds(force, ctx, oldGlobalHash, oldTargetHashes, fs.missingTime, invoke, t,
                      Turn(old(fs.files), old(t.filterClass.parameterValues), fs.files, t.filterClass.parameterValues, filtered, r))
    ensures t.filterClass.extensions == old(t.filterClass.extensions)
  {
    var missing := FindMissing(t.inputPaths, fs);
    if missing.Some? {
      return false, [], Fail(MissingInputFile(t.inputPaths[missing.value]));
    }
    var required := IsFilteringRequired(force, ctx, t, oldGlobalHash, oldTargetHashes, fs);
    if !required {
      return false, [], Pass;
    }
    var fc := t.filterClass;
    if !fc.hasContextProperty {
      return false, [], Fail(MissingFilterProperty(fc.name, "Context"));
    }
    if !fc.hasTargetProperty {
      return false, [], Fail(MissingFilterProperty(fc.name, "Target"));
    }
    var bound;
    warnings, bound := ApplyParameters(fc, TargetScope, t.node.parameters);
    if bound.Fail? {
      return false, warnings, bound;
    }
    var (files, message) := invoke(fc.name, t, fc.parameterValues, fs.files);
    fs.files := files;
    if message.Some? {
      return true, warnings, Fail(FilterFailed(t.name, message.value));
    }
    var missingOutput := FindMissing(t.outputPaths, fs);
    if missingOutput.Some? {
      return true, warnings, Fail(OutputNotGenerated(t.name, t.outputPaths[missingOutput.value]));
    }
    return true, warnings, Pass;
  }

  /** The turns are taken in order from the given files, each from where the last one left the files, all but the last passing. */
  predicate TurnsChained(force: bool, ctx: Context, oldGlobalHash: string, oldTargetHashes: set<string>,
                         missingTime: Time, invoke: Invoker, targets: seq<Target>, start: map<Path, FileEntry>, turns: seq<Turn>)
  {
    |turns| <= |targets|
    && (forall i :: 0 <= i < |turns| ==> TurnHolds(force, ctx, oldGlobalHash, oldTargetHashes, missingTime, invoke, targets[i], turns[i]))
    && (|turns| > 0 ==> turns[0].files0 == start)
    && (forall i :: 0 < i < |turns| ==> turns[i].files0 == turns[i - 1].files1)
    && (forall i :: 0 <= i < |turns| - 1 ==> turns[i].r.Pass?)
  }

  /** A further turn, taken from where the passing turns left the files, extends the chain. */
  lemma TurnsChainedSnoc(force: bool, ctx: Context, oldGlobalHash: string, oldTargetHashes: set<string>,
                         missingTime: Time, invoke: Invoker, targets: seq<Target>, start: map<Path, FileEntry>,
                         turns: seq<Turn>, turn: Turn)
    requires TurnsChained(force, ctx, oldGlobalHash, oldTargetHashes, missingTime, invoke, targets, start, turns)
    requires |turns| < |targets| && forall i :: 0 <= i < |turns| ==> turns[i].r.Pass?
    requires TurnHolds(force, ctx, oldGlobalHash, oldTargetHashes, missingTime, invoke, targets[|turns|], turn)
    requires turn.files0 == AfterTurns(start, turns)
    ensures TurnsChained(force, ctx, oldGlobalHash, oldTargetHashes, missingTime, invoke, targets, start, turns + [turn])
  {
    var next := turns + [turn];
    forall i | 0 <= i < |next|
      ensures TurnHolds(force, ctx, oldGlobalHash, oldTargetHashes, missingTime, invoke, targets[i], next[i])
    {
      if i < |turns| {
        assert next[i] == turns[i];
      } else {
        assert next[i] == turn;
      }
    }
    forall i | 0 < i < |next|
      ensures next[i].files0 == next[i - 1].files1
    {
      if i < |turns| {
        assert next[i] == turns[i] && next[i - 1] == turns[i - 1];
      } else {
        assert next[i] == turn && next[i - 1] == turns[|turns| - 1];
      }
    }
    forall i | 0 <= i < |next| - 1
      ensures next[i].r.Pass?
    {
      assert next[i] == turns[i];
    }
  }

  /**
   * The parameter values class `c` holds after the first `n` turns: those
   * the last of them on a target of `c` left behind, or `entry`, what it
   * held before the loop, when none was on `c`.
   */
  function ValuesBefore(targets: seq<Target>, turns: seq<Turn>, c: FilterClass, entry: map<string, Value>, n: nat): map<string, Value>
    requires n <= |turns| && n <= |targets|
  {
    if n == 0 then entry
    else if targets[n - 1].filterClass == c then turns[n - 1].values1
    else ValuesBefore(targets, turns, c, entry, n - 1)
  }

  /** Later turns do not change what the earlier ones left behind. */
  lemma {:induction false} ValuesBeforePrefix(targets: seq<Target>, turns: seq<Turn>, turn: Turn,
                                              c: FilterClass, entry: map<string, Value>, n: nat)
    requires n <= |turns| < |targets|
    ensures ValuesBefore(targets, turns + [turn], c, entry, n) == ValuesBefore(targets, turns, c, entry, n)
  {
    if n > 0 {
      assert (turns + [turn])[n - 1] == turns[n - 1];
      ValuesBeforePrefix(targets, turns, turn, c, entry, n - 1);
    }
  }

  /** The parameter values each target's class holds, by target. */
  function ValuesOf(targets: seq<Target>): (r: seq<map<string, Value>>)
    reads set t | t in targets :: t.filterClass
    ensures |r| == |targets| && forall i :: 0 <= i < |targets| ==> r[i] == targets[i].filterClass.parameterValues
  {
    seq(|targets|, i reads set t | t in targets :: t.filterClass requires 0 <= i < |targets| => targets[i].filterClass.parameterValues)
  }

  /** The extensions each target's class holds, by target. */
  function ExtensionsOfClasses(targets: seq<Target>): (r: seq<seq<Extension>>)
    reads set t | t in targets :: t.filterClass
    ensures |r| == |targets| && forall i :: 0 <= i < |targets| ==> r[i] == targets[i].filterClass.extensions
  {
    seq(|targets|, i reads set t | t in targets :: t.filterClass requires 0 <= i < |targets| => targets[i].filterClass.extensions)
  }

  /** The values each target's class holds after the turns, by target. */
  function ValuesAfter(targets: seq<Target>, turns: seq<Turn>, entries: seq<map<string, Value>>): (r: seq<map<string, Value>>)
    requires |turns| <= |targets| && |entries| == |targets|
    ensures |r| == |targets|
    ensures forall i :: 0 <= i < |targets| ==> r[i] == ValuesBefore(targets, turns, targets[i].filterClass, entries[i], |turns|)
  {
    seq(|targets|, i requires 0 <= i < |targets| => ValuesBefore(targets, turns, targets[i].filterClass, entries[i], |turns|))
  }

  /** Each turn started from the values its class held after the earlier turns. */
  predicate StartValues(targets: seq<Target>, turns: seq<Turn>, entries: seq<map<string, Value>>)
  {
    |turns| <= |targets| && |entries| == |targets|
    && forall i :: 0 <= i < |turns| ==> turns[i].values0 == ValuesBefore(targets, turns, targets[i].filterClass, entries[i], i)
  }

  /**
   * After the turns, each target's class holds the values the last turn on
   * it left behind (or its entry values), and its extensions.
   */
  predicate ClassesHold(targets: seq<Target>, turns: seq<Turn>, entries: seq<map<string, Value>>, extensions: seq<seq<Extension>>)
    reads set t | t in targets :: t.filterClass
  {
    |turns| <= |targets| && |entries| == |targets|
    && ValuesOf(targets) == ValuesAfter(targets, turns, entries)
    && ExtensionsOfClasses(targets) == extensions
  }

  /** A turn that started from the values its class held extends StartValues. */
  lemma StartValuesStep(targets: seq<Target>, turns: seq<Turn>, turn: Turn, entries: seq<map<string, Value>>)
    requires |turns| < |targets| && StartValues(targets, turns, entries)
    requires turn.values0 == ValuesBefore(targets, turns, targets[|turns|].filterClass, entries[|turns|], |turns|)
    ensures StartValues(targets, turns + [turn], entries)
  {
    var next := turns + [turn];
    forall i | 0 <= i < |next|
      ensures next[i].values0 == ValuesBefore(targets, next, targets[i].filterClass, entries[i], i)
    {
      ValuesBeforePrefix(targets, turns, turn, targets[i].filterClass, entries[i], i);
      if i < |turns| {
        assert next[i] == turns[i];
      }
    }
  }

  /** A turn that changed only its own class's values, to `turn.values1`, extends ValuesAfter. */
  lemma ValuesAfterStep(targets: seq<Target>, turns: seq<Turn>, turn: Turn, entries: seq<map<string, Value>>,
                        before: seq<map<string, Value>>, after: seq<map<string, Value>>)
    requires |turns| < |targets| && |entries| == |targets|
    requires before == ValuesAfter(targets, turns, entries) && |after| == |targets|
    requires forall i :: 0 <= i < |targets| ==>
      after[i] == if targets[i].filterClass == targets[|turns|].filterClass then turn.values1 else before[i]
    ensures after == ValuesAfter(targets, turns + [turn], entries)
  {
    var next := turns + [turn];
    var expected := ValuesAfter(targets, next, entries);
    forall i | 0 <= i < |targets|
      ensures after[i] == expected[i]
    {
      ValuesBeforePrefix(targets, turns, turn, targets[i].filterClass, entries[i], |turns|);
      assert next[|turns|] == turn;
    }
  }

  /** A class that none of the first `n` turns used still holds its values from before the loop. */
  lemma {:induction false} UnusedClassKeepsValues(targets: seq<Target>, turns: seq<Turn>, c: FilterClass,
                                                  entry: map<string, Value>, n: nat)
    requires n <= |turns| && n <= |targets|
    requires forall j :: 0 <= j < n ==> targets[j].filterClass != c
    ensures ValuesBefore(targets, turns, c, entry, n) == entry
  {
    if n > 0 {
      UnusedClassKeepsValues(targets, turns, c, entry, n - 1);
    }
  }

  /**
   * When every turn so far passed through binding, the values `c` holds
   * are those its last turn bound, from the values it held before that
   * turn: each filter runs with values that build on its earlier targets'.
   */
  lemma {:induction false} ValuesBeforeLastUse(targets: seq<Target>, turns: seq<Turn>, c: FilterClass,
                                               entry: map<string, Value>, n: nat, j: nat)
    requires n <= |turns| && n <= |targets|
    requires j < n && targets[j].filterClass == c
    requires forall i :: j < i < n ==> targets[i].filterClass != c
    ensures ValuesBefore(targets, turns, c, entry, n) == turns[j].values1
    decreases n
  {
    if n - 1 != j {
      ValuesBeforeLastUse(targets, turns, c, entry, n - 1, j);
    }
  }

  /** The files after the turns. */
  function AfterTurns(start: map<Path, FileEntry>, turns: seq<Turn>): map<Path, FileEntry>
  {
    if turns == [] then start else turns[|turns| - 1].files1
  }

  /** What the turns taken so far have established about the files and the classes. */
  ghost predicate TurnsSoFar(force: bool, ctx: Context, oldGlobalHash: string, oldTargetHashes: set<string>,
                             missingTime: Time, invoke: Invoker, targets: seq<Target>, start: map<Path, FileEntry>,
                             entries: seq<map<string, Value>>, extensions: seq<seq<Extension>>, turns: seq<Turn>)
    reads set t | t in targets :: t.filterClass
  {
    TurnsChained(force, ctx, oldGlobalHash, oldTargetHashes, missingTime, invoke, targets, start, turns)
    && StartValues(targets, turns, entries)
    && ClassesHold(targets, turns, entries, extensions)
  }

  /**
   * FilterTarget on target `k`, seen from the whole target list: only the
   * class of target `k` changes, and only in its parameter values.
   */
  method RunTurn(force: bool, ctx: Context, targets: seq<Target>, k: nat, oldGlobalHash: string, oldTargetHashes: set<string>,
                 fs: FileSystem, invoke: Invoker) returns (w: seq<string>, rk: Outcome<Error>, ghost turn: Turn)
    requires k < |targets|
    modifies fs, targets[k].filterClass
    ensures TurnHolds(force, ctx, oldGlobalHash, oldTargetHashes, fs.missingTime, invoke, targets[k], turn)
    ensures turn.files0 == old(fs.files) && turn.values0 == old(ValuesOf(targets))[k] && turn.files1 == fs.files && turn.r == rk
    ensures forall i :: 0 <= i < |targets| ==>
      ValuesOf(targets)[i] == if targets[i].filterClass == targets[k].filterClass then turn.values1 else old(ValuesOf(targets))[i]
    ensures ExtensionsOfClasses(targets) == old(ExtensionsOfClasses(targets))
  {
    var t := targets[k];
    ghost var before := ValuesOf(targets);
    ghost var extensions := ExtensionsOfClasses(targets);
    ghost var files0 := fs.files;
    var filtered;
    filtered, w, rk := FilterTarget(force, ctx, t, oldGlobalHash, oldTargetHashes, fs, invoke);
    turn := Turn(files0, before[k], fs.files, t.filterClass.parameterValues, filtered, rk);
    assert forall i :: 0 <= i < |targets| ==> ExtensionsOfClasses(targets)[i] == extensions[i];
  }

  /** The body of Filter's loop: target `k`'s turn, taken after `turns`, all of which passed. */
  method TakeTurn(force: bool, ctx: Context, targets: seq<Target>, oldGlobalHash: string, oldTargetHashes: set<string>,
                  fs: FileSystem, invoke: Invoker, k: nat, ghost start: map<Path, FileEntry>,
                  ghost entries: seq<map<string, Value>>, ghost extensions: seq<seq<Extension>>, ghost turns: seq<Turn>)
    returns (w: seq<string>, rk: Outcome<Error>, ghost next: seq<Turn>)
    requires k == |turns| < |targets| && forall i :: 0 <= i < |turns| ==> turns[i].r.Pass?
    requires TurnsSoFar(force, ctx, oldGlobalHash, oldTargetHashes, fs.missingTime, invoke, targets, start, entries, extensions, turns)
    requires fs.files == AfterTurns(start, turns)
    modifies fs, targets[k].filterClass
    ensures TurnsSoFar(force, ctx, oldGlobalHash, oldTargetHashes, fs.missingTime, invoke, targets, start, entries, extensions, next)
    ensures fs.files == AfterTurns(start, next)
    ensures |next| == |turns| + 1 && (forall i :: 0 <= i < |turns| ==> next[i] == turns[i]) && next[|turns|].r == rk
  {
    ghost var before := ValuesOf(targets);
    ghost var turn;
    w, rk, turn := RunTurn(force, ctx, targets, k, oldGlobalHash, oldTargetHashes, fs, invoke);
    TurnsChainedSnoc(force, ctx, oldGlobalHash, oldTargetHashes, fs.missingTime, invoke, targets, start, turns, turn);
    next := turns + [turn];
    StartValuesStep(targets, turns, turn, entries);
    ValuesAfterStep(targets, turns, turn, entries, before, ValuesOf(targets));
  }

  /** The loop of Filter over the targets, stopping at the first failure. */
  method FilterTargets(force: bool, ctx: Context, targets: seq<Target>, oldGlobalHash: string, oldTargetHashes: set<string>,
                       fs: FileSystem, invoke: Invoker)
    returns (warnings: seq<string>, r: Outcome<Error>, ghost turns: seq<Turn>)
    modifies fs, set t | t in targets :: t.filterClass
    ensures TurnsSoFar(force, ctx, oldGlobalHash, oldTargetHashes, fs.missingTime, invoke, targets,
                       old(fs.files), old(ValuesOf(targets)), old(ExtensionsOfClasses(targets)), turns)
    ensures fs.files == AfterTurns(old(fs.files), turns)
    ensures r.Fail? ==> |turns| > 0 && turns[|turns| - 1].r == r
    ensures r.Pass? ==> |turns| == |targets| && forall i :: 0 <= i < |turns| ==> turns[i].r.Pass?
  {
    warnings := [];
    turns := [];
    ghost var entries := ValuesOf(targets);
    ghost var extensions := ExtensionsOfClasses(targets);
    var k := 0;
    while k < |targets|
      invariant 0 <= k <= |targets| && |turns| == k
      invariant entries == old(ValuesOf(targets)) && extensions == old(ExtensionsOfClasses(targets))
      invariant TurnsSoFar(force, ctx, oldGlobalHash, oldTargetHashes, fs.missingTime, invoke, targets, old(fs.files), entries, extensions, turns)
      invariant forall i :: 0 <= i < k ==> turns[i].r.Pass?
      invariant fs.files == AfterTurns(old(fs.files), turns)
    {
      var w, rk;
      w, rk, turns := TakeTurn(force, ctx, targets, oldGlobalHash, oldTargetHashes, fs, invoke, k, old(fs.files), entries, extensions, turns);
      warnings := warnings + w;
      if rk.Fail? {
        return warnings, rk, turns;
      }
      k := k + 1;
    }
    return warnings, Pass, turns;
  }

  /**
   * The part of VacuumTool.Filter after the previous hashes are read: the
   * loop over the targets and, when all pass, the write of the new hashes.
   */
  method FilterAndRecord(force: bool, env: Env, ctx: Context, targets: seq<Target>, oldGlobalHash: string,
                         oldTargetHashes: set<string>, fs: FileSystem, invoke: Invoker, now: Time)
    returns (warnings: seq<string>, r: Outcome<Error>, ghost turns: seq<Turn>)
    modifies fs, set t | t in targets :: t.filterClass
    ensures TurnsSoFar(force, ctx, oldGlobalHash, oldTargetHashes, fs.missingTime, invoke, targets,
                       old(fs.files), old(ValuesOf(targets)), old(ExtensionsOfClasses(targets)), turns)
    ensures r.Fail? ==> |turns| > 0 && turns[|turns| - 1].r == r && fs.files == AfterTurns(old(fs.files), turns)
    ensures r.Pass? ==> |turns| == |targets| && (forall i :: 0 <= i < |turns| ==> turns[i].r.Pass?)
    ensures r.Pass? ==>
      var before := AfterTurns(old(fs.files), turns);
      fs.files == if ctx.contentFileHashesPath in fs.readOnly then before
                  else before[ctx.contentFileHashesPath := FileEntry(now, env.formatHashes(NewRecord(ctx, targets)))]
  {
    var rk;
    warnings, rk, turns := FilterTargets(force, ctx, targets, oldGlobalHash, oldTargetHashes, fs, invoke);
    if rk.Fail? {
      return warnings, rk, turns;
    }
    var warned := WriteNewContentFileHashes(env, ctx, targets, fs, now);
    if warned {
      warnings := warnings + ["Unable to write content hash file '" + ctx.contentFileHashesPath + "'"];
    }
    return warnings, Pass, turns;
  }

  /**
   * VacuumTool.Filter at time `now`: reads the previous hashes, takes the
   * targets in order until one fails (`turns` records each turn taken), and
   * when all pass writes the new hashes file.
   */
  method Filter(force: bool, env: Env, ctx: Context, targets: seq<Target>, fs: FileSystem, invoke: Invoker, now: Time)
    returns (warnings: seq<string>, r: Outcome<Error>, ghost turns: seq<Turn>)
    modifies fs, set t | t in targets :: t.filterClass
    ensures var (g, hs) := OldHashes(env, old(fs.files), ctx.contentFileHashesPath);
      TurnsSoFar(force, ctx, g, hs, fs.missingTime, invoke, targets, AfterRead(env, old(fs.files), ctx.contentFileHashesPath),
                 old(ValuesOf(targets)), old(ExtensionsOfClasses(targets)), turns)
    ensures r.Fail? ==>
      |turns| > 0 && turns[|turns| - 1].r == r
      && fs.files == AfterTurns(AfterRead(env, old(fs.files), ctx.contentFileHashesPath), turns)
    ensures r.Pass? ==> |turns| == |targets| && (forall i :: 0 <= i < |turns| ==> turns[i].r.Pass?)
    ensures r.Pass? ==>
      var before := AfterTurns(AfterRead(env, old(fs.files), ctx.contentFileHashesPath), turns);
      fs.files == if ctx.contentFileHashesPath in fs.readOnly then before
                  else before[ctx.contentFileHashesPath := FileEntry(now, env.formatHashes(NewRecord(ctx, targets)))]
  {
    ghost var values := ValuesOf(targets);
    ghost var extensions := ExtensionsOfClasses(targets);
    var oldGlobalHash, oldTargetHashes := ReadOldContentFileHashes(env, ctx.contentFileHashesPath, fs);
    assert ValuesOf(targets) == values && ExtensionsOfClasses(targets) == extensions;
    warnings, r, turns := FilterAndRecord(force, env, ctx, targets, oldGlobalHash, oldTargetHashes, fs, invoke, now);
  }
}
