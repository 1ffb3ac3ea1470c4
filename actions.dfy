/**
  ComposeActions and ComposeActionsFromAllPackages
  (parsers/manifest_parser.go): each declared action becomes a
  whisk.Action. Its source is either a directory (zipped, then read back
  through GetExec) or a single file (read, base64-encoded for zip and jar
  files); its kind comes from the file extension and the declared runtime;
  then come the entry point, the inputs, the annotations (or the web-export
  annotations), and the limits the validators accept.

  The file extension lives in one variable for the whole loop: an action
  without a source file, or with a directory as source, is checked against
  the extension of the last file-based action before it.
 */
module Actions {
  import opened Whisk
  import opened Strs
  import opened Paths
  import opened Manifest
  import opened Externals
  import opened Inputs
  import opened Packages
  import opened WebActions

  /** utils.ZIP_FILE_EXTENSION and utils.JAR_FILE_EXTENSION. */
  const ZIP_EXTENSION := "zip"
  const JAR_EXTENSION := "jar"

  /** The runtime named in the error when the manifest declares none. */
  const RUNTIME_NOT_SPECIFIED := "Not Specified in Manifest YAML"

  /** The value of `web-export` that turns on web export of an action. */
  const WEB_EXPORT_TRUE := "true"

  /** Everything outside the model the action composer consults. */
  datatype ActionContext = ActionContext(
    env: Env,
    flags: Flags,
    fs: FileSystem,
    tables: RuntimeTables,
    validators: LimitValidators)

  /** How far one step got: a value to carry on with, or an error and whether the records so far are returned with it. */
  datatype Step<T> = Next(value: T) | Stop(error: Error, keepPartial: bool)

  /** What the source section of the loop leaves behind: the exec, the extension variable, and the record's file path. */
  datatype Source = Source(exec: Exec, ext: string, sourcePath: string)

  /** The deprecated `location` stands in for an empty `function`. */
  function FunctionOf(action: ActionSpec): (f: string)
    ensures f == "" <==> action.functionPath == "" && action.location == ""
    ensures action.functionPath != "" ==> f == action.functionPath
  {
    if action.functionPath == "" && action.location != "" then action.location else action.functionPath
  }

  /**
    The source section of the loop body. `ext` is the extension variable as
    the previous iteration left it; only a file source sets it.
   */
  function SourceOf(fs: FileSystem, tables: RuntimeTables, filePath: string, key: string, action: ActionSpec, ext: string)
    : Step<Source>
  {
    var fn := FunctionOf(action);
    if fn == "" then Next(Source(EmptyExec, ext, ""))
    else
      var fullPath := ManifestDir(filePath) + fn;
      if fs.isDirectory(fullPath) then
        match fs.zip(fullPath)
        case Some(e) => Stop(e, false)
        case None =>
          match fs.getExec(fullPath + ".zip", action.runtime)
          case Err(e) => Stop(e, false)
          case Ok(exec) => Next(Source(exec, ext, fn))
      else
        var fileExt := FileExtension(fullPath);
        var kind := tables.defaultRuntime(tables.extensionRuntime(fileExt));
        if kind == "" && action.runtime == "" && fileExt != ZIP_EXTENSION then
          Stop(InvalidRuntimeError(CannotDiscoverRuntime, LastSegment(filePath, '/'), key, RUNTIME_NOT_SPECIFIED), false)
        else
          match fs.read(fullPath)
          case Err(e) => Stop(e, true)
          case Ok(data) =>
            if fileExt == ZIP_EXTENSION && action.runtime == "" then
              Stop(InvalidRuntimeError(ZipWithoutRuntime, LastSegment(filePath, '/'), key, RUNTIME_NOT_SPECIFIED), false)
            else
              var code := if fileExt == ZIP_EXTENSION || fileExt == JAR_EXTENSION then Base64(data) else Text(data);
              Next(Source(Exec(kind, Some(code), "", []), fileExt, fullPath))
  }

  /**
    The runtime section: with no declared runtime the kind stays; a supported
    runtime replaces it for zip files, for a consistent extension and in
    strict mode; an unsupported runtime is an error for zip files and is
    otherwise ignored.
   */
  function RuntimeKind(tables: RuntimeTables, flags: Flags, runtime: string, ext: string, kind: string,
                       manifestFile: string, actionName: string): (r: Result<string>)
    ensures r.Ok? ==> r.value == kind || r.value == runtime
    ensures r.Err? <==> runtime != "" && !tables.isSupported(runtime) && ext == ZIP_EXTENSION
    ensures r.Err? ==> r.error == InvalidRuntimeError(ZipRuntimeUnsupported, manifestFile, actionName, runtime)
  {
    if runtime == "" then Ok(kind)
    else if tables.isSupported(runtime) then
      if ext == ZIP_EXTENSION then Ok(runtime)
      else if tables.isConsistent(ext, runtime) then Ok(runtime)
      else if flags.strict then Ok(runtime)
      else Ok(kind)
    else if ext == ZIP_EXTENSION then Err(InvalidRuntimeError(ZipRuntimeUnsupported, manifestFile, actionName, runtime))
    else Ok(kind)
  }

  /** The declared runtime is adopted exactly when it is supported and the file is a zip, consistent, or strict mode is on. */
  lemma RuntimeAdopted(tables: RuntimeTables, flags: Flags, runtime: string, ext: string, kind: string,
                       manifestFile: string, actionName: string)
    requires runtime != "" && runtime != kind
    ensures var r := RuntimeKind(tables, flags, runtime, ext, kind, manifestFile, actionName);
      r == Ok(runtime) <==>
        tables.isSupported(runtime) && (ext == ZIP_EXTENSION || tables.isConsistent(ext, runtime) || flags.strict)
  {
  }

  /** Without a declared runtime, or with an unsupported one outside zip files, the kind is left as the source gave it. */
  lemma RuntimeKept(tables: RuntimeTables, flags: Flags, runtime: string, ext: string, kind: string,
                    manifestFile: string, actionName: string)
    requires runtime == "" || (!tables.isSupported(runtime) && ext != ZIP_EXTENSION)
    ensures RuntimeKind(tables, flags, runtime, ext, kind, manifestFile, actionName) == Ok(kind)
  {
  }

  /** The annotations section: the declared annotations and the managed one, or the web-export annotations of the declared ones. */
  function ActionAnnotations(env: Env, flags: Flags, action: ActionSpec, ma: KeyValue): Result<seq<KeyValue>> {
    if action.webexport == WEB_EXPORT_TRUE then
      match WebAction("yes", Some(EnvAnnotations(env, action.annotations)), false)
      case Err(e) => Err(e)
      case Ok(o) => Ok(if o.Some? then o.value else [])
    else Ok(ManagedAnnotations(env, flags, action.annotations, ma))
  }

  /**
    A web action gets its declared annotations followed by web-export true,
    raw-http false and final true; the managed annotation is not among them,
    whatever the deployment mode.
   */
  lemma WebExportAnnotations(env: Env, flags: Flags, action: ActionSpec, ma: KeyValue)
    requires action.webexport == WEB_EXPORT_TRUE
    ensures ActionAnnotations(env, flags, action, ma) == Ok(ApplyMode(WebOn, EnvAnnotations(env, action.annotations)))
    ensures ActionAnnotations(env, flags, action, ma) == ActionAnnotations(env, flags.(managed := !flags.managed), action, ma)
  {
    var a := EnvAnnotations(env, action.annotations);
    assert Lower("yes") == "yes";
    WebActionYes("yes", a, false);
    assert WebTriple(WebOn) == [
      KeyValue(WEB_EXPORT_ANNOT, BoolValue(true)),
      KeyValue(RAW_HTTP_ANNOT, BoolValue(false)),
      KeyValue(FINAL_ANNOT, BoolValue(true))];
  }

  /** Any other value of web-export leaves the annotations as ComposePackage builds them, the managed one last. */
  lemma PlainAnnotations(env: Env, flags: Flags, action: ActionSpec, ma: KeyValue)
    requires action.webexport != WEB_EXPORT_TRUE
    ensures ActionAnnotations(env, flags, action, ma) == Ok(ManagedAnnotations(env, flags, action.annotations, ma))
  {
  }

  /** One limit: kept when its validator accepts it, dropped otherwise. */
  function ValidLimit(valid: Option<int> -> bool, limit: Option<int>): Option<int> {
    if valid(limit) then limit else None
  }

  /** The limits section: the three supported limits filtered by their validators, attached only when one survives. */
  function SelectLimits(validators: LimitValidators, spec: Option<LimitsSpec>): Option<Limits> {
    if spec.None? then None
    else
      var t := ValidLimit(validators.timeout, spec.value.timeout);
      var m := ValidLimit(validators.memory, spec.value.memory);
      var l := ValidLimit(validators.logsize, spec.value.logsize);
      if t.Some? || m.Some? || l.Some? then Some(Limits(t, m, l)) else None
  }

  /**
    Limits are attached exactly when some declared limit among timeout,
    memory and log size is set and passes its validator; each attached field
    is the declared value when it passes and nil when it does not. The other
    four limits never reach the action.
   */
  lemma SelectLimitsMeaning(validators: LimitValidators, spec: Option<LimitsSpec>)
    ensures var r := SelectLimits(validators, spec);
      (r.Some? <==> (spec.Some? &&
        ((spec.value.timeout.Some? && validators.timeout(spec.value.timeout)) ||
         (spec.value.memory.Some? && validators.memory(spec.value.memory)) ||
         (spec.value.logsize.Some? && validators.logsize(spec.value.logsize))))) &&
      (r.Some? ==>
        r.value.timeout == (if validators.timeout(spec.value.timeout) then spec.value.timeout else None) &&
        r.value.memory == (if validators.memory(spec.value.memory) then spec.value.memory else None) &&
        r.value.logsize == (if validators.logsize(spec.value.logsize) then spec.value.logsize else None))
  {
  }

  /** The part of the loop body after the source section. */
  function FinishAction(ctx: ActionContext, filePath: string, packageName: string, ma: KeyValue,
                        key: string, action: ActionSpec, src: Source): Step<(ActionRecord, string)>
  {
    match RuntimeKind(ctx.tables, ctx.flags, action.runtime, src.ext, src.exec.kind, LastSegment(filePath, '/'), key)
    case Err(e) => Stop(e, false)
    case Ok(kind) =>
      var exec := src.exec.(kind := kind, main := if action.main != "" then action.main else src.exec.main);
      match ResolveAll(ctx.env, action.inputs, filePath)
      case Err(e) => Stop(e, false)
      case Ok(params) =>
        match ResolveAll(ctx.env, action.outputs, filePath)
        case Err(e) => Stop(e, false)
        case Ok(_) =>
          match ActionAnnotations(ctx.env, ctx.flags, action, ma)
          case Err(e) => Stop(e, true)
          case Ok(annotations) =>
            var a := Action(key, "", exec, params, annotations, SelectLimits(ctx.validators, action.limits), false);
            Next((ActionRecord(a, packageName, src.sourcePath), src.ext))
  }

  /** One turn of the ComposeActions loop: the record and the extension variable afterwards, or where it stopped. */
  function ActionStep(ctx: ActionContext, filePath: string, packageName: string, ma: KeyValue,
                      key: string, action: ActionSpec, ext: string): Step<(ActionRecord, string)>
  {
    match SourceOf(ctx.fs, ctx.tables, filePath, key, action, ext)
    case Stop(e, keep) => Stop(e, keep)
    case Next(src) => FinishAction(ctx, filePath, packageName, ma, key, action, src)
  }

  /**
    A composed action is named by its key, has no namespace of its own, is
    not published, belongs to the package, carries the resolved inputs and
    the filtered limits, and keeps the declared entry point when there is
    one. Inputs are resolved against the manifest path, not the action's
    source.
   */
  lemma ActionStepShape(ctx: ActionContext, filePath: string, packageName: string, ma: KeyValue,
                        key: string, action: ActionSpec, ext: string)
    requires ActionStep(ctx, filePath, packageName, ma, key, action, ext).Next?
    ensures var r := ActionStep(ctx, filePath, packageName, ma, key, action, ext).value.0;
      r.action.name == key && r.action.namespace == "" && !r.action.publish && r.packagename == packageName &&
      ResolveAll(ctx.env, action.inputs, filePath) == Ok(r.action.parameters) &&
      ResolveAll(ctx.env, action.outputs, filePath).Ok? &&
      ActionAnnotations(ctx.env, ctx.flags, action, ma) == Ok(r.action.annotations) &&
      r.action.limits == SelectLimits(ctx.validators, action.limits) &&
      (action.main != "" ==> r.action.exec.main == action.main)
    ensures var r := ActionStep(ctx, filePath, packageName, ma, key, action, ext).value.0;
      var src := SourceOf(ctx.fs, ctx.tables, filePath, key, action, ext);
      src.Next? &&
      RuntimeKind(ctx.tables, ctx.flags, action.runtime, src.value.ext, src.value.exec.kind, LastSegment(filePath, '/'), key)
        == Ok(r.action.exec.kind)
  {
  }

  /**
    A single source file without a declared runtime gets the kind the runtime
    tables give its extension: the default runtime of the extension's kind.
   */
  lemma TableKindForFile(ctx: ActionContext, filePath: string, packageName: string, ma: KeyValue,
                         key: string, action: ActionSpec, ext: string)
    requires ActionStep(ctx, filePath, packageName, ma, key, action, ext).Next?
    requires FunctionOf(action) != "" && action.runtime == ""
    requires !ctx.fs.isDirectory(ManifestDir(filePath) + FunctionOf(action))
    ensures var fileExt := FileExtension(ManifestDir(filePath) + FunctionOf(action));
      ActionStep(ctx, filePath, packageName, ma, key, action, ext).value.0.action.exec.kind
        == ctx.tables.defaultRuntime(ctx.tables.extensionRuntime(fileExt))
  {
  }

  /**
    Where the record says the code came from: nowhere for an action without
    a source, the declared path for a directory, and the path next to the
    manifest for a file. Only a file source changes the extension variable.
   */
  lemma ActionStepSource(ctx: ActionContext, filePath: string, packageName: string, ma: KeyValue,
                         key: string, action: ActionSpec, ext: string)
    requires ActionStep(ctx, filePath, packageName, ma, key, action, ext).Next?
    ensures var (r, ext') := ActionStep(ctx, filePath, packageName, ma, key, action, ext).value;
      var fullPath := ManifestDir(filePath) + FunctionOf(action);
      (FunctionOf(action) == "" ==> r.filepath == "" && ext' == ext) &&
      (FunctionOf(action) != "" && ctx.fs.isDirectory(fullPath) ==> r.filepath == FunctionOf(action) && ext' == ext) &&
      (FunctionOf(action) != "" && !ctx.fs.isDirectory(fullPath) ==>
         r.filepath == fullPath && ext' == FileExtension(fullPath) && r.action.exec.code.Some? &&
         (r.action.exec.code.value.Base64? <==> ext' in {ZIP_EXTENSION, JAR_EXTENSION}))
  {
  }

  /**
    The only failures that keep the records composed before: a source file
    that cannot be read, and web-export annotations that cannot be built.
   */
  lemma ActionStepKeepsPartial(ctx: ActionContext, filePath: string, packageName: string, ma: KeyValue,
                               key: string, action: ActionSpec, ext: string)
    requires ActionStep(ctx, filePath, packageName, ma, key, action, ext).Stop?
    requires ActionStep(ctx, filePath, packageName, ma, key, action, ext).keepPartial
    ensures var fullPath := ManifestDir(filePath) + FunctionOf(action);
      (FunctionOf(action) != "" && !ctx.fs.isDirectory(fullPath) && ctx.fs.read(fullPath).Err? &&
       ActionStep(ctx, filePath, packageName, ma, key, action, ext).error == ctx.fs.read(fullPath).error) ||
      (action.webexport == WEB_EXPORT_TRUE &&
       ActionAnnotations(ctx.env, ctx.flags, action, ma) == Err(ActionStep(ctx, filePath, packageName, ma, key, action, ext).error))
  {
  }

  /**
    A file the runtime tables know nothing about needs a declared runtime,
    and a zip file needs one too; the error names the manifest file, the
    action and the missing runtime.
   */
  lemma UndiscoverableRuntime(ctx: ActionContext, filePath: string, packageName: string, ma: KeyValue,
                              key: string, action: ActionSpec, ext: string)
    requires FunctionOf(action) != "" && action.runtime == ""
    requires var fullPath := ManifestDir(filePath) + FunctionOf(action);
      !ctx.fs.isDirectory(fullPath) &&
      (FileExtension(fullPath) == ZIP_EXTENSION ==> ctx.fs.read(fullPath).Ok?) &&
      (FileExtension(fullPath) == ZIP_EXTENSION ||
       ctx.tables.defaultRuntime(ctx.tables.extensionRuntime(FileExtension(fullPath))) == "")
    ensures var r := ActionStep(ctx, filePath, packageName, ma, key, action, ext);
      r.Stop? && !r.keepPartial && r.error.InvalidRuntimeError? &&
      r.error.manifestFile == LastSegment(filePath, '/') && r.error.actionName == key &&
      r.error.runtime == RUNTIME_NOT_SPECIFIED
  {
  }

  /**
    The extension variable outlives its action: after a zip file, an action
    without a source file that declares an unsupported runtime is rejected
    as a zip action, though it has no zip file of its own.
   */
  lemma StaleZipExtension(ctx: ActionContext, filePath: string, packageName: string, ma: KeyValue,
                          key: string, action: ActionSpec)
    requires FunctionOf(action) == "" && action.runtime != "" && !ctx.tables.isSupported(action.runtime)
    ensures ActionStep(ctx, filePath, packageName, ma, key, action, ZIP_EXTENSION)
         == Stop(InvalidRuntimeError(ZipRuntimeUnsupported, LastSegment(filePath, '/'), key, action.runtime), false)
    ensures ActionStep(ctx, filePath, packageName, ma, key, action, "").Next? <==>
      ResolveAll(ctx.env, action.inputs, filePath).Ok? && ResolveAll(ctx.env, action.outputs, filePath).Ok? &&
      ActionAnnotations(ctx.env, ctx.flags, action, ma).Ok?
  {
  }

  /** The records of ComposeActions and the error it returns, nil standing for no error. */
  datatype Composition = Composition(records: seq<ActionRecord>, error: Option<Error>)

  /** One turn of the loop for a given key, declaration and extension variable. */
  type StepFunction = (string, ActionSpec, string) -> Step<(ActionRecord, string)>

  /**
    The ComposeActions loop from some point on, for any loop body `step`:
    `ext` is the extension variable and `acc` the records so far. A failure
    returns the records so far when the step says so, and none otherwise.
   */
  function ComposeLoop(step: StepFunction, actions: seq<(string, ActionSpec)>, ext: string, acc: seq<ActionRecord>): Composition
    decreases |actions|
  {
    if actions == [] then Composition(acc, None)
    else
      match step(actions[0].0, actions[0].1, ext)
      case Stop(e, keep) => Composition(if keep then acc else [], Some(e))
      case Next((record, ext')) => ComposeLoop(step, actions[1..], ext', acc + [record])
  }

  /** The loop body of ComposeActions for one package. */
  function ActionStepOf(ctx: ActionContext, filePath: string, packageName: string, ma: KeyValue): StepFunction {
    (key, action, ext) => ActionStep(ctx, filePath, packageName, ma, key, action, ext)
  }

  function ActionsOf(ctx: ActionContext, filePath: string, packageName: string, ma: KeyValue,
                     actions: seq<(string, ActionSpec)>, ext: string, acc: seq<ActionRecord>): Composition
  {
    ComposeLoop(ActionStepOf(ctx, filePath, packageName, ma), actions, ext, acc)
  }

  /** A loop that does not fail runs the step on every action and appends each record after those so far. */
  lemma {:induction false} LoopComplete(step: StepFunction, packageName: string, actions: seq<(string, ActionSpec)>,
                                       ext: string, acc: seq<ActionRecord>)
    requires forall k, a, x :: step(k, a, x).Next? ==>
      step(k, a, x).value.0.action.name == k && step(k, a, x).value.0.packagename == packageName
    requires ComposeLoop(step, actions, ext, acc).error.None?
    ensures var r := ComposeLoop(step, actions, ext, acc).records;
      |r| == |acc| + |actions| && r[..|acc|] == acc &&
      forall k :: 0 <= k < |actions| ==>
        r[|acc| + k].action.name == actions[k].0 && r[|acc| + k].packagename == packageName
    ensures var r := ComposeLoop(step, actions, ext, acc).records;
      forall k :: 0 <= k < |actions| ==>
        var s := step(actions[k].0, actions[k].1, LoopExt(step, actions[..k], ext));
        s.Next? && |acc| + k < |r| && r[|acc| + k] == s.value.0
    decreases |actions|
  {
    LoopRecordsAt(step, actions, ext, acc);
    if actions != [] {
      var s := step(actions[0].0, actions[0].1, ext);
      var acc' := acc + [s.value.0];
      LoopComplete(step, packageName, actions[1..], s.value.1, acc');
      var r := ComposeLoop(step, actions, ext, acc).records;
      assert r[..|acc|] == r[..|acc'|][..|acc|];
      forall k | 0 <= k < |actions|
        ensures r[|acc| + k].action.name == actions[k].0 && r[|acc| + k].packagename == packageName
      {
        if k > 0 {
          assert actions[1..][k - 1] == actions[k];
        }
      }
    }
  }

  /** A loop that does not fail appends one record per action after those so far. */
  lemma {:induction false} LoopLength(step: StepFunction, actions: seq<(string, ActionSpec)>, ext: string, acc: seq<ActionRecord>)
    requires ComposeLoop(step, actions, ext, acc).error.None?
    ensures var r := ComposeLoop(step, actions, ext, acc).records;
      |r| == |acc| + |actions| && r[..|acc|] == acc
    decreases |actions|
  {
    if actions != [] {
      var s := step(actions[0].0, actions[0].1, ext);
      var acc' := acc + [s.value.0];
      LoopLength(step, actions[1..], s.value.1, acc');
      var r := ComposeLoop(step, actions, ext, acc).records;
      assert r[..|acc|] == r[..|acc'|][..|acc|];
    }
  }

  /**
    In a loop that does not fail, record k is the record the step makes of
    action k on the extension variable the actions before it leave.
   */
  lemma {:induction false} LoopRecordsAt(step: StepFunction, actions: seq<(string, ActionSpec)>, ext: string, acc: seq<ActionRecord>)
    requires ComposeLoop(step, actions, ext, acc).error.None?
    ensures var r := ComposeLoop(step, actions, ext, acc).records;
      forall k :: 0 <= k < |actions| ==>
        var s := step(actions[k].0, actions[k].1, LoopExt(step, actions[..k], ext));
        s.Next? && |acc| + k < |r| && r[|acc| + k] == s.value.0
    decreases |actions|
  {
    if actions != [] {
      var s := step(actions[0].0, actions[0].1, ext);
      var acc' := acc + [s.value.0];
      var r := ComposeLoop(step, actions, ext, acc).records;
      assert r == ComposeLoop(step, actions[1..], s.value.1, acc').records;
      LoopLength(step, actions[1..], s.value.1, acc');
      LoopRecordsAt(step, actions[1..], s.value.1, acc');
      forall k | 0 <= k < |actions|
        ensures var sk := step(actions[k].0, actions[k].1, LoopExt(step, actions[..k], ext));
          sk.Next? && |acc| + k < |r| && r[|acc| + k] == sk.value.0
      {
        if k == 0 {
          assert actions[..0] == [];
          assert r[|acc|] == r[..|acc'|][|acc|];
        } else {
          LoopPrefixCons(step, actions, ext, acc, k - 1);
          assert actions[1..][k - 1] == actions[k];
        }
      }
    }
  }

  /** The extension variable the loop hands to the step it stops at, or leaves after its last step. */
  function LoopExt(step: StepFunction, actions: seq<(string, ActionSpec)>, ext: string): string
    decreases |actions|
  {
    if actions == [] then ext
    else
      match step(actions[0].0, actions[0].1, ext)
      case Stop(_, _) => ext
      case Next((_, ext')) => LoopExt(step, actions[1..], ext')
  }

  /**
    The loop's outcome `c` is a failure at action i: the loop over the actions
    before i ends without error, step i fails on the extension variable that
    loop leaves, `c` carries that step's error, and `c`'s records are the
    records of the actions before i when that failure keeps them and none
    otherwise.
   */
  predicate FailsAt(step: StepFunction, actions: seq<(string, ActionSpec)>, ext: string, acc: seq<ActionRecord>,
                    i: nat, c: Composition)
    requires i < |actions|
  {
    var before := ComposeLoop(step, actions[..i], ext, acc);
    var s := step(actions[i].0, actions[i].1, LoopExt(step, actions[..i], ext));
    before.error.None? && s.Stop? && c.error == Some(s.error) &&
    c.records == (if s.keepPartial then before.records else [])
  }

  /** Running the first i + 1 actions is running the first one, then the i after it. */
  lemma LoopPrefixCons(step: StepFunction, actions: seq<(string, ActionSpec)>, ext: string, acc: seq<ActionRecord>, i: nat)
    requires i < |actions| && step(actions[0].0, actions[0].1, ext).Next?
    ensures var s := step(actions[0].0, actions[0].1, ext).value;
      ComposeLoop(step, actions[..i + 1], ext, acc) == ComposeLoop(step, actions[1..][..i], s.1, acc + [s.0]) &&
      LoopExt(step, actions[..i + 1], ext) == LoopExt(step, actions[1..][..i], s.1)
  {
    var p := actions[..i + 1];
    assert p[0] == actions[0];
    assert p[1..] == actions[1..][..i];
  }

  /**
    A loop that fails fails at the first action whose step stops: every
    action before it was composed, and the records returned are exactly
    theirs or none.
   */
  lemma {:induction false} LoopFailure(step: StepFunction, actions: seq<(string, ActionSpec)>, ext: string, acc: seq<ActionRecord>)
    requires ComposeLoop(step, actions, ext, acc).error.Some?
    ensures exists i :: 0 <= i < |actions| && FailsAt(step, actions, ext, acc, i, ComposeLoop(step, actions, ext, acc))
    decreases |actions|
  {
    var c := ComposeLoop(step, actions, ext, acc);
    var s := step(actions[0].0, actions[0].1, ext);
    if s.Stop? {
      assert actions[..0] == [];
      assert FailsAt(step, actions, ext, acc, 0, c);
    } else {
      var acc' := acc + [s.value.0];
      assert c == ComposeLoop(step, actions[1..], s.value.1, acc');
      LoopFailure(step, actions[1..], s.value.1, acc');
      var i :| 0 <= i < |actions[1..]| && FailsAt(step, actions[1..], s.value.1, acc', i, c);
      LoopPrefixCons(step, actions, ext, acc, i);
      assert actions[1..][i] == actions[i + 1];
      assert FailsAt(step, actions, ext, acc, i + 1, c);
    }
  }

  /**
    A composition without error has one record per declared action, after
    the records so far, each named by its action's key and owned by the
    package.
   */
  lemma ActionsOfComplete(ctx: ActionContext, filePath: string, packageName: string, ma: KeyValue,
                          actions: seq<(string, ActionSpec)>, ext: string, acc: seq<ActionRecord>)
    requires ActionsOf(ctx, filePath, packageName, ma, actions, ext, acc).error.None?
    ensures var r := ActionsOf(ctx, filePath, packageName, ma, actions, ext, acc).records;
      |r| == |acc| + |actions| && r[..|acc|] == acc &&
      forall k :: 0 <= k < |actions| ==>
        r[|acc| + k].action.name == actions[k].0 && r[|acc| + k].packagename == packageName
    ensures var r := ActionsOf(ctx, filePath, packageName, ma, actions, ext, acc).records;
      forall k :: 0 <= k < |actions| ==>
        var s := ActionStep(ctx, filePath, packageName, ma, actions[k].0, actions[k].1,
                            LoopExt(ActionStepOf(ctx, filePath, packageName, ma), actions[..k], ext));
        s.Next? && |acc| + k < |r| && r[|acc| + k] == s.value.0
  {
    var step := ActionStepOf(ctx, filePath, packageName, ma);
    forall k, a, x | step(k, a, x).Next?
      ensures step(k, a, x).value.0.action.name == k && step(k, a, x).value.0.packagename == packageName
    {
      ActionStepShape(ctx, filePath, packageName, ma, k, a, x);
    }
    LoopComplete(step, packageName, actions, ext, acc);
  }

  /**
    A failed composition of a package's actions fails at the first action
    whose step stops, on the extension variable the actions before it leave:
    those actions were composed, and the records returned are exactly theirs
    when that failure keeps partial results, and none otherwise.
   */
  lemma ActionsOfFailure(ctx: ActionContext, filePath: string, packageName: string, ma: KeyValue,
                         actions: seq<(string, ActionSpec)>, ext: string, acc: seq<ActionRecord>)
    requires ActionsOf(ctx, filePath, packageName, ma, actions, ext, acc).error.Some?
    ensures exists i :: (0 <= i < |actions| &&
      FailsAt(ActionStepOf(ctx, filePath, packageName, ma), actions, ext, acc, i,
              ActionsOf(ctx, filePath, packageName, ma, actions, ext, acc)))
  {
    LoopFailure(ActionStepOf(ctx, filePath, packageName, ma), actions, ext, acc);
  }

  /** The source section, as the loop body runs it. */
  method ComposeSource(fs: FileSystem, tables: RuntimeTables, filePath: string, key: string, action: ActionSpec, ext: string)
    returns (r: Step<Source>)
    ensures r == SourceOf(fs, tables, filePath, key, action, ext)
  {
    var fn := action.functionPath;
    if fn == "" && action.location != "" {
      fn := action.location;
    }
    if fn == "" {
      return Next(Source(EmptyExec, ext, ""));
    }
    var fullPath := ManifestDir(filePath) + fn;
    if fs.isDirectory(fullPath) {
      var zipName := fullPath + ".zip";
      var err := fs.zip(fullPath);
      if err.Some? {
        return Stop(err.value, false);
      }
      var exec := fs.getExec(zipName, action.runtime);
      if exec.Err? {
        return Stop(exec.error, false);
      }
      return Next(Source(exec.value, ext, fn));
    }
    var fileExt := FileExtension(fullPath);
    var kind := tables.defaultRuntime(tables.extensionRuntime(fileExt));
    if kind == "" && action.runtime == "" && fileExt != ZIP_EXTENSION {
      return Stop(InvalidRuntimeError(CannotDiscoverRuntime, LastSegment(filePath, '/'), key, RUNTIME_NOT_SPECIFIED), false);
    }
    var dat := fs.read(fullPath);
    if dat.Err? {
      return Stop(dat.error, true);
    }
    var code := Text(dat.value);
    if fileExt == ZIP_EXTENSION || fileExt == JAR_EXTENSION {
      code := Base64(dat.value);
    }
    if fileExt == ZIP_EXTENSION && action.runtime == "" {
      return Stop(InvalidRuntimeError(ZipWithoutRuntime, LastSegment(filePath, '/'), key, RUNTIME_NOT_SPECIFIED), false);
    }
    r := Next(Source(Exec(kind, Some(code), "", []), fileExt, fullPath));
  }

  /** The rest of the loop body: runtime, entry point, inputs and outputs, annotations, limits. */
  method ComposeRest(ctx: ActionContext, filePath: string, packageName: string, ma: KeyValue,
                     key: string, action: ActionSpec, src: Source) returns (r: Step<(ActionRecord, string)>)
    ensures r == FinishAction(ctx, filePath, packageName, ma, key, action, src)
  {
    var exec := src.exec;
    var kind := RuntimeKind(ctx.tables, ctx.flags, action.runtime, src.ext, exec.kind, LastSegment(filePath, '/'), key);
    if kind.Err? {
      return Stop(kind.error, false);
    }
    exec := exec.(kind := kind.value);
    if action.main != "" {
      exec := exec.(main := action.main);
    }
    var params := CollectParameters(ctx.env, action.inputs, filePath);
    if params.Err? {
      return Stop(params.error, false);
    }
    var outputs := CollectParameters(ctx.env, action.outputs, filePath);
    if outputs.Err? {
      return Stop(outputs.error, false);
    }
    var annotations := ComposeAnnotations(ctx.env, ctx.flags, action, ma);
    if annotations.Err? {
      return Stop(annotations.error, true);
    }
    var limits := SelectLimits(ctx.validators, action.limits);
    var a := Action(key, "", exec, params.value, annotations.value, limits, false);
    r := Next((ActionRecord(a, packageName, src.sourcePath), src.ext));
  }

  /** The annotations section: the annotation loop, the managed annotation, then web export. */
  method ComposeAnnotations(env: Env, flags: Flags, action: ActionSpec, ma: KeyValue) returns (r: Result<seq<KeyValue>>)
    ensures r == ActionAnnotations(env, flags, action, ma)
  {
    var listOfAnnotations := CollectAnnotations(env, action.annotations);
    var annotations := listOfAnnotations;
    if flags.managed {
      annotations := annotations + [ma];
    }
    if action.webexport == WEB_EXPORT_TRUE {
      var web := WebAction("yes", Some(listOfAnnotations), false);
      if web.Err? {
        return Err(web.error);
      }
      annotations := if web.value.Some? then web.value.value else [];
    } else {
      assert annotations == ManagedAnnotations(env, flags, action.annotations, ma);
    }
    r := Ok(annotations);
  }

  /** ComposeActions: the actions of one package, with the partial results the loop returns on some failures. */
  method ComposeActions(ctx: ActionContext, filePath: string, actions: seq<(string, ActionSpec)>, packageName: string, ma: KeyValue)
    returns (s1: seq<ActionRecord>, err: Option<Error>)
    ensures Composition(s1, err) == ActionsOf(ctx, filePath, packageName, ma, actions, "", [])
  {
    var ext := "";
    s1 := [];
    var i := 0;
    assert actions[i..] == actions;
    while i < |actions|
      invariant 0 <= i <= |actions|
      invariant ActionsOf(ctx, filePath, packageName, ma, actions, "", []) == ActionsOf(ctx, filePath, packageName, ma, actions[i..], ext, s1)
    {
      ghost var rest := actions[i..];
      assert rest[0] == actions[i] && rest[1..] == actions[i + 1..];
      var src := ComposeSource(ctx.fs, ctx.tables, filePath, actions[i].0, actions[i].1, ext);
      if src.Stop? {
        return (if src.keepPartial then s1 else []), Some(src.error);
      }
      var step := ComposeRest(ctx, filePath, packageName, ma, actions[i].0, actions[i].1, src.value);
      if step.Stop? {
        return (if step.keepPartial then s1 else []), Some(step.error);
      }
      s1 := s1 + [step.value.0];
      ext := step.value.1;
      i := i + 1;
    }
    assert actions[i..] == [];
    err := None;
  }

  /** The loop of ComposeActionsFromAllPackages from some point on: any error discards every record. */
  function AllActionsOf(ctx: ActionContext, filePath: string, packages: seq<(string, PackageSpec)>, ma: KeyValue,
                        acc: seq<ActionRecord>): Composition
    decreases |packages|
  {
    if packages == [] then Composition(acc, None)
    else
      var c := ActionsOf(ctx, filePath, packages[0].0, ma, packages[0].1.actions, "", []);
      if c.error.Some? then Composition([], c.error)
      else AllActionsOf(ctx, filePath, packages[1..], ma, acc + c.records)
  }

  /** One package's composition decides the rest: a failure ends the run with no records, a success extends acc. */
  lemma AllActionsStep(ctx: ActionContext, filePath: string, packages: seq<(string, PackageSpec)>, ma: KeyValue,
                       acc: seq<ActionRecord>, i: nat, a: seq<ActionRecord>, e: Option<Error>)
    requires i < |packages|
    requires Composition(a, e) == ActionsOf(ctx, filePath, packages[i].0, ma, packages[i].1.actions, "", [])
    ensures e.Some? ==> AllActionsOf(ctx, filePath, packages[i..], ma, acc) == Composition([], e)
    ensures e.None? ==> AllActionsOf(ctx, filePath, packages[i..], ma, acc) == AllActionsOf(ctx, filePath, packages[i + 1..], ma, acc + a)
  {
    var rest := packages[i..];
    assert rest[0] == packages[i] && rest[1..] == packages[i + 1..];
  }

  /** ComposeActionsFromAllPackages as a function: the named single package alone keeps partial results. */
  function ManifestActionsOf(ctx: ActionContext, filePath: string, manifest: Yaml, ma: KeyValue): Composition {
    if manifest.package.packagename != "" then
      ActionsOf(ctx, filePath, manifest.package.packagename, ma, manifest.package.actions, "", [])
    else AllActionsOf(ctx, filePath, ManifestPackages(manifest), ma, [])
  }

  /** Across packages a failure returns no records at all, and each package starts with a fresh extension variable. */
  lemma {:induction false} AllActionsOfFailure(ctx: ActionContext, filePath: string, packages: seq<(string, PackageSpec)>,
                                              ma: KeyValue, acc: seq<ActionRecord>)
    ensures var c := AllActionsOf(ctx, filePath, packages, ma, acc);
      (c.error.Some? ==> (c.records == [] &&
        exists i :: 0 <= i < |packages| &&
          (forall j :: 0 <= j < i ==> ActionsOf(ctx, filePath, packages[j].0, ma, packages[j].1.actions, "", []).error.None?) &&
          ActionsOf(ctx, filePath, packages[i].0, ma, packages[i].1.actions, "", []).error == c.error)) &&
      (c.error.None? ==> |c.records| == |acc| + ActionCount(packages) && c.records[..|acc|] == acc)
    decreases |packages|
  {
    if packages != [] {
      var a := ActionsOf(ctx, filePath, packages[0].0, ma, packages[0].1.actions, "", []);
      if a.error.None? {
        ActionsOfComplete(ctx, filePath, packages[0].0, ma, packages[0].1.actions, "", []);
        assert a.records[..0] == [];
        var acc' := acc + a.records;
        AllActionsOfFailure(ctx, filePath, packages[1..], ma, acc');
        var c := AllActionsOf(ctx, filePath, packages, ma, acc);
        if c.error.Some? {
          var i :| 0 <= i < |packages[1..]| &&
            (forall j :: 0 <= j < i ==>
              ActionsOf(ctx, filePath, packages[1..][j].0, ma, packages[1..][j].1.actions, "", []).error.None?) &&
            ActionsOf(ctx, filePath, packages[1..][i].0, ma, packages[1..][i].1.actions, "", []).error == c.error;
          assert packages[1..][i] == packages[i + 1];
          forall j | 0 <= j < i + 1
            ensures ActionsOf(ctx, filePath, packages[j].0, ma, packages[j].1.actions, "", []).error.None?
          {
            if j > 0 {
              assert packages[1..][j - 1] == packages[j];
            }
          }
        } else {
          assert c.records[..|acc|] == c.records[..|acc'|][..|acc|];
        }
      }
    }
  }

  /**
    The packages' actions compose without error exactly when every package's
    actions do: one failing package makes the whole composition fail.
   */
  lemma {:induction false} AllActionsOfSucceeds(ctx: ActionContext, filePath: string, packages: seq<(string, PackageSpec)>,
                                               ma: KeyValue, acc: seq<ActionRecord>)
    ensures AllActionsOf(ctx, filePath, packages, ma, acc).error.None? <==>
      forall i :: 0 <= i < |packages| ==> ActionsOf(ctx, filePath, packages[i].0, ma, packages[i].1.actions, "", []).error.None?
    decreases |packages|
  {
    if packages != [] {
      var a := ActionsOf(ctx, filePath, packages[0].0, ma, packages[0].1.actions, "", []);
      if a.error.None? {
        AllActionsOfSucceeds(ctx, filePath, packages[1..], ma, acc + a.records);
        forall i | 0 < i < |packages|
          ensures packages[i] == packages[1..][i - 1]
        {
        }
      }
    }
  }

  /** The number of actions the packages declare. */
  function ActionCount(packages: seq<(string, PackageSpec)>): nat {
    if packages == [] then 0 else |packages[0].1.actions| + ActionCount(packages[1..])
  }

  /** ComposeActionsFromAllPackages: the named single package directly, else the selected packages in turn, failing fast. */
  method ComposeActionsFromAllPackages(ctx: ActionContext, manifest: Yaml, filePath: string, ma: KeyValue)
    returns (s1: seq<ActionRecord>, err: Option<Error>)
    ensures Composition(s1, err) == ManifestActionsOf(ctx, filePath, manifest, ma)
  {
    if manifest.package.packagename != "" {
      s1, err := ComposeActions(ctx, filePath, manifest.package.actions, manifest.package.packagename, ma);
      return;
    }
    var manifestPackages: seq<(string, PackageSpec)> := [];
    if Len(manifest.packages) != 0 {
      manifestPackages := manifest.packages.value;
    } else if manifest.project.packages.Some? {
      manifestPackages := manifest.project.packages.value;
    }
    s1 := [];
    var i := 0;
    assert manifestPackages[i..] == manifestPackages;
    while i < |manifestPackages|
      invariant 0 <= i <= |manifestPackages|
      invariant AllActionsOf(ctx, filePath, manifestPackages, ma, []) == AllActionsOf(ctx, filePath, manifestPackages[i..], ma, s1)
    {
      var a, e := ComposeActions(ctx, filePath, manifestPackages[i].1.actions, manifestPackages[i].0, ma);
      AllActionsStep(ctx, filePath, manifestPackages, ma, s1, i, a, e);
      if e.Some? {
        return [], e;
      }
      s1 := s1 + a;
      i := i + 1;
    }
    assert manifestPackages[i..] == [];
    err := None;
  }
}
