/**
  ComposeTriggers and ComposeTriggersFromAllPackages
  (parsers/manifest_parser.go): each trigger of a package's trigger list
  becomes a whisk.Trigger named through ConvertSingleName. The deprecated
  `source` stands in for an empty `feed`; a feed becomes the first
  annotation, ahead of the declared annotations and the managed one.
 */
module Triggers {
  import opened Whisk
  import opened Manifest
  import opened Externals
  import opened Inputs
  import opened Packages

  /** YAML_KEY_FEED, the annotation that names a trigger's feed. */
  const FEED_KEY := "feed"

  /** The feed a trigger uses: `feed`, or the deprecated `source` when `feed` is empty. */
  function FeedOf(trigger: TriggerSpec): (f: string)
    ensures trigger.feed != "" ==> f == trigger.feed
    ensures trigger.feed == "" ==> f == trigger.source
  {
    if trigger.feed == "" then trigger.source else trigger.feed
  }

  /** The annotation the feed contributes, if there is a feed. */
  function FeedAnnotation(feed: string): (r: seq<KeyValue>)
    ensures |r| == if feed == "" then 0 else 1
  {
    if feed != "" then [KeyValue(FEED_KEY, StringValue(feed))] else []
  }

  /** One trigger, or the first of its inputs that fails to resolve. */
  function TriggerOf(env: Env, flags: Flags, trigger: TriggerSpec, filePath: string, ma: KeyValue): Result<Trigger> {
    match ResolveAll(env, trigger.inputs, filePath)
    case Err(e) => Err(e)
    case Ok(params) =>
      Ok(Trigger(env.convertSingleName(trigger.name), trigger.namespace, false, params,
                 FeedAnnotation(FeedOf(trigger)) + ManagedAnnotations(env, flags, trigger.annotations, ma)))
  }

  /**
    A composed trigger is named through ConvertSingleName, keeps the declared
    namespace, is never published and carries the resolved inputs; it fails
    exactly when an input fails to resolve.
   */
  lemma TriggerShape(env: Env, flags: Flags, trigger: TriggerSpec, filePath: string, ma: KeyValue)
    ensures var r := TriggerOf(env, flags, trigger, filePath, ma);
      (r.Err? <==> ResolveAll(env, trigger.inputs, filePath).Err?) &&
      (r.Err? ==> ResolveAll(env, trigger.inputs, filePath) == Err(r.error)) &&
      (r.Ok? ==> r.value.name == env.convertSingleName(trigger.name) && r.value.namespace == trigger.namespace &&
                 !r.value.publish && ResolveAll(env, trigger.inputs, filePath) == Ok(r.value.parameters))
  {
  }

  /**
    The annotations of a trigger: the feed first when there is one, then the
    declared annotations in order through GetEnvVar, then the managed
    annotation last on a managed deployment.
   */
  lemma {:induction false} TriggerAnnotations(env: Env, flags: Flags, trigger: TriggerSpec, filePath: string, ma: KeyValue)
    requires TriggerOf(env, flags, trigger, filePath, ma).Ok?
    ensures var a := TriggerOf(env, flags, trigger, filePath, ma).value.annotations;
      var f := if FeedOf(trigger) == "" then 0 else 1;
      |a| == f + |trigger.annotations| + (if flags.managed then 1 else 0) &&
      (f == 1 ==> a[0] == KeyValue(FEED_KEY, StringValue(FeedOf(trigger)))) &&
      (forall i :: 0 <= i < |trigger.annotations| ==>
         a[f + i] == KeyValue(trigger.annotations[i].0, env.getEnvVar(trigger.annotations[i].1))) &&
      (flags.managed ==> a[|a| - 1] == ma)
  {
    var head := FeedAnnotation(FeedOf(trigger));
    var m := ManagedAnnotations(env, flags, trigger.annotations, ma);
    var a := TriggerOf(env, flags, trigger, filePath, ma).value.annotations;
    assert a == head + m;
    ManagedAnnotationsShape(env, flags, trigger.annotations, ma);
    forall i | 0 <= i < |trigger.annotations|
      ensures a[|head| + i] == KeyValue(trigger.annotations[i].0, env.getEnvVar(trigger.annotations[i].1))
    {
      assert a[|head| + i] == m[i];
    }
  }

  /** A trigger that declares only a source is composed as if it declared that source as its feed. */
  lemma SourceActsAsFeed(env: Env, flags: Flags, trigger: TriggerSpec, filePath: string, ma: KeyValue)
    requires trigger.feed == ""
    ensures TriggerOf(env, flags, trigger, filePath, ma)
         == TriggerOf(env, flags, trigger.(feed := trigger.source, source := ""), filePath, ma)
  {
  }

  /** A declared feed wins: the source is then ignored. */
  lemma FeedOverridesSource(env: Env, flags: Flags, trigger: TriggerSpec, source: string, filePath: string, ma: KeyValue)
    requires trigger.feed != ""
    ensures TriggerOf(env, flags, trigger.(source := source), filePath, ma) == TriggerOf(env, flags, trigger, filePath, ma)
  {
  }

  /** The triggers of one list, in order, or the first error. */
  function TriggersOf(env: Env, flags: Flags, triggers: seq<TriggerSpec>, filePath: string, ma: KeyValue): Result<seq<Trigger>> {
    if triggers == [] then Ok([])
    else
      match TriggerOf(env, flags, triggers[0], filePath, ma)
      case Err(e) => Err(e)
      case Ok(t) =>
        match TriggersOf(env, flags, triggers[1..], filePath, ma)
        case Err(e) => Err(e)
        case Ok(rest) => Ok([t] + rest)
  }

  /**
    The list fails exactly when one of its triggers does, with the error of
    the first that does; otherwise trigger i is the composition of
    declaration i.
   */
  lemma {:induction false} TriggersOfMeaning(env: Env, flags: Flags, triggers: seq<TriggerSpec>, filePath: string, ma: KeyValue)
    ensures var r := TriggersOf(env, flags, triggers, filePath, ma);
      (r.Err? ==> exists i :: 0 <= i < |triggers| && TriggerOf(env, flags, triggers[i], filePath, ma) == Err(r.error) &&
                              forall j :: 0 <= j < i ==> TriggerOf(env, flags, triggers[j], filePath, ma).Ok?) &&
      (r.Ok? ==> |r.value| == |triggers| &&
                 forall i :: 0 <= i < |triggers| ==> TriggerOf(env, flags, triggers[i], filePath, ma) == Ok(r.value[i]))
  {
    if TriggersOf(env, flags, triggers, filePath, ma).Err? {
      TriggersOfError(env, flags, triggers, filePath, ma);
    } else {
      TriggersOfValues(env, flags, triggers, filePath, ma);
    }
  }

  lemma {:induction false} TriggersOfError(env: Env, flags: Flags, triggers: seq<TriggerSpec>, filePath: string, ma: KeyValue)
    requires TriggersOf(env, flags, triggers, filePath, ma).Err?
    ensures exists i :: (0 <= i < |triggers| &&
      TriggerOf(env, flags, triggers[i], filePath, ma) == Err(TriggersOf(env, flags, triggers, filePath, ma).error) &&
      forall j :: 0 <= j < i ==> TriggerOf(env, flags, triggers[j], filePath, ma).Ok?)
  {
    var tail := triggers[1..];
    var first := TriggerOf(env, flags, triggers[0], filePath, ma);
    var r := TriggersOf(env, flags, triggers, filePath, ma);
    if first.Err? {
      assert r.error == first.error;
      assert TriggerOf(env, flags, triggers[0], filePath, ma) == Err(r.error);
    } else {
      var rt := TriggersOf(env, flags, tail, filePath, ma);
      assert rt.Err? && r.error == rt.error;
      TriggersOfError(env, flags, tail, filePath, ma);
      var i :| 0 <= i < |tail| && TriggerOf(env, flags, tail[i], filePath, ma) == Err(rt.error) &&
               forall j :: 0 <= j < i ==> TriggerOf(env, flags, tail[j], filePath, ma).Ok?;
      assert triggers[i + 1] == tail[i];
      forall j | 0 <= j < i + 1 ensures TriggerOf(env, flags, triggers[j], filePath, ma).Ok? {
        if j > 0 { assert triggers[j] == tail[j - 1]; }
      }
      assert TriggerOf(env, flags, triggers[i + 1], filePath, ma) == Err(r.error);
    }
  }

  lemma {:induction false} TriggersOfValues(env: Env, flags: Flags, triggers: seq<TriggerSpec>, filePath: string, ma: KeyValue)
    requires TriggersOf(env, flags, triggers, filePath, ma).Ok?
    ensures |TriggersOf(env, flags, triggers, filePath, ma).value| == |triggers|
    ensures forall i :: 0 <= i < |triggers| ==>
      TriggerOf(env, flags, triggers[i], filePath, ma) == Ok(TriggersOf(env, flags, triggers, filePath, ma).value[i])
  {
    if triggers != [] {
      var tail := triggers[1..];
      var first := TriggerOf(env, flags, triggers[0], filePath, ma);
      var rt := TriggersOf(env, flags, tail, filePath, ma);
      var r := TriggersOf(env, flags, triggers, filePath, ma);
      assert first.Ok? && rt.Ok?;
      TriggersOfValues(env, flags, tail, filePath, ma);
      assert r.value == [first.value] + rt.value;
      forall i | 0 <= i < |triggers| ensures TriggerOf(env, flags, triggers[i], filePath, ma) == Ok(r.value[i]) {
        if i > 0 {
          assert triggers[i] == tail[i - 1];
          assert r.value[i] == rt.value[i - 1];
        }
      }
    }
  }

  lemma TriggersStep(env: Env, flags: Flags, triggers: seq<TriggerSpec>, i: nat, filePath: string, ma: KeyValue,
                     acc: seq<Trigger>)
    requires i < |triggers|
    ensures var t := TriggerOf(env, flags, triggers[i], filePath, ma);
      Prefixed(acc, TriggersOf(env, flags, triggers[i..], filePath, ma)) ==
        if t.Err? then Err(t.error) else Prefixed(acc + [t.value], TriggersOf(env, flags, triggers[i + 1..], filePath, ma))
  {
    var rest := triggers[i..];
    assert rest[0] == triggers[i] && rest[1..] == triggers[i + 1..];
    var t := TriggerOf(env, flags, triggers[i], filePath, ma);
    var tail := TriggersOf(env, flags, triggers[i + 1..], filePath, ma);
    if t.Ok? && tail.Ok? {
      assert acc + ([t.value] + tail.value) == (acc + [t.value]) + tail.value;
    }
  }

  /** The body of the ComposeTriggers loop: feed, inputs, annotations, managed annotation. */
  method ComposeTrigger(env: Env, flags: Flags, trigger: TriggerSpec, filePath: string, ma: KeyValue)
    returns (r: Result<Trigger>)
    ensures r == TriggerOf(env, flags, trigger, filePath, ma)
  {
    var local := trigger;
    if local.feed == "" {
      local := local.(feed := local.source);
    }
    var annotations: seq<KeyValue> := [];
    if local.feed != "" {
      annotations := [KeyValue(FEED_KEY, StringValue(local.feed))];
    }
    var params := CollectParameters(env, local.inputs, filePath);
    if params.Err? {
      return Err(params.error);
    }
    var listOfAnnotations := CollectAnnotations(env, local.annotations);
    annotations := annotations + listOfAnnotations;
    if flags.managed {
      annotations := annotations + [ma];
    }
    assert annotations == FeedAnnotation(FeedOf(trigger)) + ManagedAnnotations(env, flags, trigger.annotations, ma);
    r := Ok(Trigger(env.convertSingleName(local.name), local.namespace, false, params.value, annotations));
  }

  /** ComposeTriggers: the package's trigger list in order, failing fast. */
  method ComposeTriggers(env: Env, flags: Flags, helpers: YamlHelpers, filePath: string, pkg: PackageSpec, ma: KeyValue)
    returns (r: Result<seq<Trigger>>)
    ensures r == TriggersOf(env, flags, helpers.triggerList(pkg), filePath, ma)
  {
    var triggers := helpers.triggerList(pkg);
    var t1: seq<Trigger> := [];
    var i := 0;
    assert triggers[i..] == triggers;
    PrefixedEmpty(TriggersOf(env, flags, triggers, filePath, ma));
    while i < |triggers|
      invariant 0 <= i <= |triggers|
      invariant TriggersOf(env, flags, triggers, filePath, ma) == Prefixed(t1, TriggersOf(env, flags, triggers[i..], filePath, ma))
    {
      TriggersStep(env, flags, triggers, i, filePath, ma, t1);
      var t := ComposeTrigger(env, flags, triggers[i], filePath, ma);
      if t.Err? {
        return Err(t.error);
      }
      t1 := t1 + [t.value];
      i := i + 1;
    }
    assert triggers[i..] == [];
    assert t1 + [] == t1;
    r := Ok(t1);
  }

  /** The triggers of all selected packages, concatenated in package order, or the first error. */
  function AllTriggersOf(env: Env, flags: Flags, helpers: YamlHelpers, packages: seq<(string, PackageSpec)>,
                         filePath: string, ma: KeyValue): Result<seq<Trigger>>
  {
    if packages == [] then Ok([])
    else
      match TriggersOf(env, flags, helpers.triggerList(packages[0].1), filePath, ma)
      case Err(e) => Err(e)
      case Ok(t) =>
        match AllTriggersOf(env, flags, helpers, packages[1..], filePath, ma)
        case Err(e) => Err(e)
        case Ok(rest) => Ok(t + rest)
  }

  /**
    Composing the triggers of the selected packages fails exactly when one
    package's triggers fail, and then with the error of the first such
    package, every package before it composing without error.
   */
  lemma {:induction false} AllTriggersFailFast(env: Env, flags: Flags, helpers: YamlHelpers, packages: seq<(string, PackageSpec)>,
                                               filePath: string, ma: KeyValue)
    ensures AllTriggersOf(env, flags, helpers, packages, filePath, ma).Err? <==>
      exists i :: 0 <= i < |packages| && TriggersOf(env, flags, helpers.triggerList(packages[i].1), filePath, ma).Err?
    ensures AllTriggersOf(env, flags, helpers, packages, filePath, ma).Err? ==>
      exists i :: (0 <= i < |packages| &&
        (forall j :: 0 <= j < i ==> TriggersOf(env, flags, helpers.triggerList(packages[j].1), filePath, ma).Ok?) &&
        TriggersOf(env, flags, helpers.triggerList(packages[i].1), filePath, ma) == Err(AllTriggersOf(env, flags, helpers, packages, filePath, ma).error))
    decreases |packages|
  {
    if packages != [] {
      var tail := packages[1..];
      var r := AllTriggersOf(env, flags, helpers, packages, filePath, ma);
      AllTriggersFailFast(env, flags, helpers, tail, filePath, ma);
      if TriggersOf(env, flags, helpers.triggerList(packages[0].1), filePath, ma).Ok? {
        if exists i :: 0 <= i < |packages| && TriggersOf(env, flags, helpers.triggerList(packages[i].1), filePath, ma).Err? {
          var i :| 0 <= i < |packages| && TriggersOf(env, flags, helpers.triggerList(packages[i].1), filePath, ma).Err?;
          assert tail[i - 1] == packages[i];
        }
        if r.Err? {
          var i :| 0 <= i < |tail| &&
            (forall j :: 0 <= j < i ==> TriggersOf(env, flags, helpers.triggerList(tail[j].1), filePath, ma).Ok?) &&
            TriggersOf(env, flags, helpers.triggerList(tail[i].1), filePath, ma) == Err(r.error);
          assert tail[i] == packages[i + 1];
          forall j | 0 <= j < i + 1
            ensures TriggersOf(env, flags, helpers.triggerList(packages[j].1), filePath, ma).Ok?
          {
            if j > 0 {
              assert tail[j - 1] == packages[j];
            }
          }
        }
      }
    }
  }

  /** The number of triggers the packages' trigger lists hold. */
  function TriggerCount(helpers: YamlHelpers, packages: seq<(string, PackageSpec)>): nat {
    if packages == [] then 0 else |helpers.triggerList(packages[0].1)| + TriggerCount(helpers, packages[1..])
  }

  /** A successful composition has one trigger per listed trigger of every selected package. */
  lemma {:induction false} AllTriggersCount(env: Env, flags: Flags, helpers: YamlHelpers, packages: seq<(string, PackageSpec)>,
                                           filePath: string, ma: KeyValue)
    requires AllTriggersOf(env, flags, helpers, packages, filePath, ma).Ok?
    ensures |AllTriggersOf(env, flags, helpers, packages, filePath, ma).value| == TriggerCount(helpers, packages)
  {
    if packages != [] {
      TriggersOfMeaning(env, flags, helpers.triggerList(packages[0].1), filePath, ma);
      AllTriggersCount(env, flags, helpers, packages[1..], filePath, ma);
    }
  }

  lemma AllTriggersStep(env: Env, flags: Flags, helpers: YamlHelpers, packages: seq<(string, PackageSpec)>, i: nat,
                        filePath: string, ma: KeyValue, acc: seq<Trigger>)
    requires i < |packages|
    ensures var t := TriggersOf(env, flags, helpers.triggerList(packages[i].1), filePath, ma);
      Prefixed(acc, AllTriggersOf(env, flags, helpers, packages[i..], filePath, ma)) ==
        if t.Err? then Err(t.error) else Prefixed(acc + t.value, AllTriggersOf(env, flags, helpers, packages[i + 1..], filePath, ma))
  {
    var rest := packages[i..];
    assert rest[0] == packages[i] && rest[1..] == packages[i + 1..];
    var t := TriggersOf(env, flags, helpers.triggerList(packages[i].1), filePath, ma);
    var tail := AllTriggersOf(env, flags, helpers, packages[i + 1..], filePath, ma);
    if t.Ok? && tail.Ok? {
      assert acc + (t.value + tail.value) == (acc + t.value) + tail.value;
    }
  }

  /** ComposeTriggersFromAllPackages: the selected packages in turn, failing fast. */
  method ComposeTriggersFromAllPackages(env: Env, flags: Flags, helpers: YamlHelpers, manifest: Yaml, filePath: string, ma: KeyValue)
    returns (r: Result<seq<Trigger>>)
    ensures r == AllTriggersOf(env, flags, helpers, ManifestPackages(manifest), filePath, ma)
  {
    if manifest.package.packagename != "" {
      r := ComposeTriggers(env, flags, helpers, filePath, manifest.package, ma);
      if r.Ok? {
        assert r.value + [] == r.value;
      }
      return;
    }
    var manifestPackages: seq<(string, PackageSpec)> := [];
    if Len(manifest.packages) != 0 {
      manifestPackages := manifest.packages.value;
    } else if manifest.project.packages.Some? {
      manifestPackages := manifest.project.packages.value;
    }
    var triggers: seq<Trigger> := [];
    var i := 0;
    assert manifestPackages[i..] == manifestPackages;
    PrefixedEmpty(AllTriggersOf(env, flags, helpers, manifestPackages, filePath, ma));
    while i < |manifestPackages|
      invariant 0 <= i <= |manifestPackages|
      invariant AllTriggersOf(env, flags, helpers, manifestPackages, filePath, ma)
             == Prefixed(triggers, AllTriggersOf(env, flags, helpers, manifestPackages[i..], filePath, ma))
    {
      AllTriggersStep(env, flags, helpers, manifestPackages, i, filePath, ma, triggers);
      var t := ComposeTriggers(env, flags, helpers, filePath, manifestPackages[i].1, ma);
      if t.Err? {
        return Err(t.error);
      }
      triggers := triggers + t.value;
      i := i + 1;
    }
    assert manifestPackages[i..] == [];
    assert triggers + [] == triggers;
    r := Ok(triggers);
  }
}
