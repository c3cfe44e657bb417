/**
 * VacuumTool.IsFilteringRequired: a target is refiltered when its newest
 * input-side time is later than its oldest output time.
 */
module Staleness {
  import opened Common
  import opened Times
  import opened FileSystems
  import opened Targets
  import opened Contexts

  /** The write times of the given paths, as File.GetLastWriteTime reports them. */
  function TimesOf(files: map<Path, FileEntry>, missingTime: Time, paths: seq<Path>): (r: seq<Time>)
    ensures |r| == |paths|
    ensures forall i :: 0 <= i < |paths| ==> r[i] == if paths[i] in files then files[paths[i]].mtime else missingTime
  {
    if paths == [] then []
    else
      var p := paths[|paths| - 1];
      TimesOf(files, missingTime, paths[..|paths| - 1]) + [if p in files then files[p].mtime else missingTime]
  }

  /** The content file's write time counts when the global hash changed or the target's hash is new. */
  predicate DefinitionChanged(oldGlobalHash: string, globalHash: string, oldTargetHashes: set<string>, hash: string)
  {
    oldGlobalHash != globalHash || hash !in oldTargetHashes
  }

  /** The decision as the method takes it: the two folds, the content-file adjustment and the comparison. */
  predicate Stale(force: bool, assemblyTime: Time, contentTime: Time, changed: bool,
                  inputTimes: seq<Time>, outputTimes: seq<Time>)
  {
    force ||
    var newest := Latest(assemblyTime, inputTimes);
    var oldest := Earliest(MaxTime, outputTimes);
    (if contentTime > newest && changed then contentTime else newest) > oldest
  }

  /** The times on the input side: the newest assembly, every input, and the content file when its definition changed. */
  function InputSide(assemblyTime: Time, contentTime: Time, changed: bool, inputTimes: seq<Time>): seq<Time>
  {
    [assemblyTime] + inputTimes + if changed then [contentTime] else []
  }

  /** The times on the output side: DateTime.MaxValue and every output. */
  function OutputSide(outputTimes: seq<Time>): seq<Time>
  {
    [MaxTime] + outputTimes
  }

  /**
   * Unless forced, a target is stale exactly when some input-side time is
   * later than some output-side time.
   */
  lemma StaleIffSomeOutputOlder(assemblyTime: Time, contentTime: Time, changed: bool,
                                inputTimes: seq<Time>, outputTimes: seq<Time>)
    ensures var ins := InputSide(assemblyTime, contentTime, changed, inputTimes);
      var outs := OutputSide(outputTimes);
      Stale(false, assemblyTime, contentTime, changed, inputTimes, outputTimes) <==>
        exists i, j :: 0 <= i < |ins| && 0 <= j < |outs| && ins[i] > outs[j]
  {
    var ins := InputSide(assemblyTime, contentTime, changed, inputTimes);
    var outs := OutputSide(outputTimes);
    var newest := Latest(assemblyTime, inputTimes);
    var oldest := Earliest(MaxTime, outputTimes);
    LatestIsMaximum(assemblyTime, inputTimes);
    EarliestIsMinimum(MaxTime, outputTimes);
    var top := if contentTime > newest && changed then contentTime else newest;
    // top is the largest input-side time and occurs among them
    assert forall i :: 0 <= i < |ins| ==> ins[i] <= top by {
      forall i | 0 <= i < |ins|
        ensures ins[i] <= top
      {
        if 1 <= i <= |inputTimes| {
          assert ins[i] == inputTimes[i - 1];
        }
      }
    }
    var it: nat :| it < |ins| && ins[it] == top by {
      if contentTime > newest && changed {
        assert ins[|ins| - 1] == contentTime;
      } else if newest == assemblyTime {
        assert ins[0] == assemblyTime;
      } else {
        var i :| 0 <= i < |inputTimes| && newest == inputTimes[i];
        assert ins[i + 1] == inputTimes[i];
      }
    }
    // oldest is the smallest output-side time and occurs among them
    assert forall j :: 0 <= j < |outs| ==> outs[j] >= oldest by {
      forall j | 0 <= j < |outs|
        ensures outs[j] >= oldest
      {
        if j >= 1 {
          assert outs[j] == outputTimes[j - 1];
        }
      }
    }
    var jt: nat :| jt < |outs| && outs[jt] == oldest by {
      if oldest == MaxTime {
        assert outs[0] == MaxTime;
      } else {
        var j :| 0 <= j < |outputTimes| && oldest == outputTimes[j];
        assert outs[j + 1] == outputTimes[j];
      }
    }
  }

  /** With the definition unchanged, a newer content file alone changes nothing. */
  lemma UnchangedDefinitionIgnoresContentTime(force: bool, assemblyTime: Time, contentTime: Time, otherContentTime: Time,
                                              inputTimes: seq<Time>, outputTimes: seq<Time>)
    ensures Stale(force, assemblyTime, contentTime, false, inputTimes, outputTimes)
      == Stale(force, assemblyTime, otherContentTime, false, inputTimes, outputTimes)
  {
  }

  /** One more path adds its write time at the end. */
  lemma TimesOfStep(files: map<Path, FileEntry>, missingTime: Time, paths: seq<Path>, k: nat)
    requires k < |paths|
    ensures TimesOf(files, missingTime, paths[..k + 1])
         == TimesOf(files, missingTime, paths[..k]) + [if paths[k] in files then files[paths[k]].mtime else missingTime]
  {
    assert paths[..k + 1][..k] == paths[..k];
  }

  /** The first loop of IsFilteringRequired: the newest write time among the paths, starting from `start`. */
  method NewestWriteTime(start: Time, paths: seq<Path>, fs: FileSystem) returns (newest: Time)
    ensures newest == Latest(start, TimesOf(fs.files, fs.missingTime, paths))
  {
    ghost var files, missingTime := fs.files, fs.missingTime;
    newest := start;
    var k := 0;
    while k < |paths|
      invariant 0 <= k <= |paths|
      invariant newest == Latest(start, TimesOf(files, missingTime, paths[..k]))
    {
      TimesOfStep(files, missingTime, paths, k);
      var lastWriteTime := fs.LastWriteTime(paths[k]);
      if lastWriteTime > newest {
        newest := lastWriteTime;
      }
      k := k + 1;
    }
    assert paths[..k] == paths;
  }

  /** The second loop of IsFilteringRequired: the oldest write time among the paths, starting from DateTime.MaxValue. */
  method OldestWriteTime(paths: seq<Path>, fs: FileSystem) returns (oldest: Time)
    ensures oldest == Earliest(MaxTime, TimesOf(fs.files, fs.missingTime, paths))
  {
    ghost var files, missingTime := fs.files, fs.missingTime;
    oldest := MaxTime;
    var k := 0;
    while k < |paths|
      invariant 0 <= k <= |paths|
      invariant oldest == Earliest(MaxTime, TimesOf(files, missingTime, paths[..k]))
    {
      TimesOfStep(files, missingTime, paths, k);
      var lastWriteTime := fs.LastWriteTime(paths[k]);
      if lastWriteTime < oldest {
        oldest := lastWriteTime;
      }
      k := k + 1;
    }
    assert paths[..k] == paths;
  }

  /**
   * VacuumTool.IsFilteringRequired, for target `t` of the run, given the
   * hashes read from the previous run and the Force switch.
   */
  method IsFilteringRequired(force: bool, ctx: Context, t: Target, oldGlobalHash: string,
                             oldTargetHashes: set<string>, fs: FileSystem) returns (required: bool)
    ensures required == Stale(force, ctx.newestAssemblyWriteTime, ctx.contentFileWriteTime,
                              DefinitionChanged(oldGlobalHash, ctx.globalHash, oldTargetHashes, t.hash),
                              TimesOf(fs.files, fs.missingTime, t.inputPaths), TimesOf(fs.files, fs.missingTime, t.outputPaths))
    ensures force ==> required
  {
    if force {
      return true;
    }
    var newestInputFile := NewestWriteTime(ctx.newestAssemblyWriteTime, t.inputPaths, fs);
    var oldestOutputFile := OldestWriteTime(t.outputPaths, fs);
    if ctx.contentFileWriteTime > newestInputFile
       && (oldGlobalHash != ctx.globalHash || t.hash !in oldTargetHashes) {
      newestInputFile := ctx.contentFileWriteTime;
    }
    return newestInputFile > oldestOutputFile;
  }
}
