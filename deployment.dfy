/**
  The deployment reader's binding (deployers/deploymentreader.go): once the
  manifest has been composed into ServiceDeployer.Deployment, BindAssets
  lays the deployment file's inputs and annotations over the composed
  packages, actions and triggers, in place. Inputs are merged (deployment
  values first, then the composed parameters they do not redeclare);
  annotations may only overwrite keys the manifest already gave the entity.
 */
module Deployment {
  import opened Whisk
  import opened KeyValues
  import opened Manifest
  import opened Externals

  /** A composed package of the deployment: the package entity and its actions by name. */
  datatype DeploymentPackage = DeploymentPackage(package: Package, actions: map<string, ActionRecord>)

  /** ServiceDeployer.Deployment: the composed packages and the deployment-wide triggers, both by name. */
  class DeploymentProject {
    var packages: map<string, DeploymentPackage>
    var triggers: map<string, Trigger>

    constructor (packages: map<string, DeploymentPackage>, triggers: map<string, Trigger>)
      ensures this.packages == packages && this.triggers == triggers
    {
      this.packages := packages;
      this.triggers := triggers;
    }
  }

  /** The keys of a declared map, in order. */
  function Names<V>(s: seq<(string, V)>): seq<string> {
    seq(|s|, i requires 0 <= i < |s| => s[i].0)
  }

  lemma NamesTail<V>(s: seq<(string, V)>)
    requires s != []
    ensures Names(s) == [s[0].0] + Names(s[1..])
  {
  }

  // ---------------------------------------------------------------------
  // The descriptor's package map
  // ---------------------------------------------------------------------

  /** Each package of a packages map, with its Packagename set to its key. */
  function Renamed(packages: seq<(string, PackageSpec)>): seq<(string, PackageSpec)> {
    seq(|packages|, i requires 0 <= i < |packages| => (packages[i].0, packages[i].1.(packagename := packages[i].0)))
  }

  /**
    packMap, as each bind pass builds it from the deployment file: the
    project's packages when that map is not nil; else the project's single
    package when it is named; else the top-level packages when that map is
    not nil; else the top-level package under its own (possibly empty) name.
   */
  function PackMap(d: Yaml): seq<(string, PackageSpec)> {
    if d.project.packages.Some? then Renamed(d.project.packages.value)
    else if d.project.package.packagename != "" then [(d.project.package.packagename, d.project.package)]
    else if d.packages.Some? then Renamed(d.packages.value)
    else [(d.package.packagename, d.package)]
  }

  /** The deprecation warning the package pass prints when the project's single package is used. */
  function PackMapWarnings(d: Yaml): seq<Warning> {
    if d.project.packages.None? && d.project.package.packagename != "" then [DeprecatedPackageKey] else []
  }

  /** Every package of the package map carries its own key as Packagename. */
  lemma PackMapKeyedByName(d: Yaml)
    ensures forall i :: 0 <= i < |PackMap(d)| ==> PackMap(d)[i].1.packagename == PackMap(d)[i].0
  {
  }

  /** The package map declares every name once, as the descriptor's maps do. */
  lemma PackMapDistinct(d: Yaml)
    requires d.project.packages.Some? ==> DistinctNames(d.project.packages.value)
    requires d.packages.Some? ==> DistinctNames(d.packages.value)
    ensures DistinctNames(PackMap(d))
  {
  }

  /**
    A non-nil project packages map decides alone, even when empty; the
    single packages are only looked at without it, and the project's single
    package shadows the top-level packages. This is the reverse of the
    manifest's precedence, where the named single package comes first.
   */
  lemma PackMapPrecedence(d: Yaml, package: PackageSpec, packages: PackageMap)
    ensures d.project.packages.Some? ==>
      PackMap(d.(package := package, packages := packages)) == Renamed(d.project.packages.value)
    ensures d.project.packages.None? && d.project.package.packagename != "" ==>
      PackMap(d.(package := package, packages := packages)) == [(d.project.package.packagename, d.project.package)]
    ensures d.project.packages.None? && d.project.package.packagename == "" && d.packages.Some? ==>
      PackMap(d.(package := package)) == Renamed(d.packages.value)
    ensures d.project.packages.None? && d.project.package.packagename == "" && d.packages.None? ==>
      PackMap(d) == [(d.package.packagename, d.package)]
  {
  }

  /** The package map the three passes build, one package at a time. */
  method DescriptorPackMap(d: Yaml) returns (packMap: seq<(string, PackageSpec)>)
    ensures packMap == PackMap(d)
  {
    if d.project.packages.None? {
      if d.project.package.packagename != "" {
        return [(d.project.package.packagename, d.project.package)];
      } else if d.packages.Some? {
        packMap := RenamePackages(d.packages.value);
      } else {
        return [(d.package.packagename, d.package)];
      }
    } else {
      packMap := RenamePackages(d.project.packages.value);
    }
  }

  method RenamePackages(packages: seq<(string, PackageSpec)>) returns (r: seq<(string, PackageSpec)>)
    ensures r == Renamed(packages)
  {
    r := [];
    var i := 0;
    while i < |packages|
      invariant 0 <= i <= |packages|
      invariant r == Renamed(packages)[..i]
    {
      var (packName, depPacks) := packages[i];
      depPacks := depPacks.(packagename := packName);
      r := r + [(packName, depPacks)];
      i := i + 1;
    }
  }

  // ---------------------------------------------------------------------
  // Input merge
  // ---------------------------------------------------------------------

  /** The deployment inputs as key/value pairs, each value passed through GetEnvVar, in declaration order. */
  function DeploymentInputs(env: Env, inputs: seq<(string, ParamSpec)>): seq<KeyValue> {
    seq(|inputs|, i requires 0 <= i < |inputs| => KeyValue(inputs[i].0, env.getEnvVar(inputs[i].1.value)))
  }

  /** The merged parameter list: the deployment inputs, then every composed parameter whose key they do not declare. */
  function MergeInputs(env: Env, inputs: seq<(string, ParamSpec)>, parameters: seq<KeyValue>): seq<KeyValue> {
    var dep := DeploymentInputs(env, inputs);
    dep + WithoutKeys(parameters, Keys(dep))
  }

  /** Without deployment inputs the composed parameters stay as they are (the pass does not even assign them). */
  lemma MergeNoInputs(env: Env, inputs: seq<(string, ParamSpec)>, parameters: seq<KeyValue>)
    requires inputs == []
    ensures MergeInputs(env, inputs, parameters) == parameters
  {
    var dep := DeploymentInputs(env, inputs);
    assert Keys(dep) == [];
    WithoutKeysNoOp(parameters, []);
  }

  /** The position of the first entry with a key is the one the entries before it do not hold. */
  lemma FirstIndexAt(key: string, kvs: seq<KeyValue>, i: nat)
    requires i < |kvs| && kvs[i].key == key
    requires forall j :: 0 <= j < i ==> kvs[j].key != key
    ensures FirstIndex(key, kvs) == i
  {
    assert Keys(kvs)[i] == key;
  }

  /** A deployment input wins: its key now looks up the deployment value, passed through GetEnvVar. */
  lemma MergeInputsDeploymentWins(env: Env, inputs: seq<(string, ParamSpec)>, parameters: seq<KeyValue>, i: nat)
    requires DistinctNames(inputs) && i < |inputs|
    ensures Lookup(inputs[i].0, MergeInputs(env, inputs, parameters)) == Some(env.getEnvVar(inputs[i].1.value))
  {
    var r := MergeInputs(env, inputs, parameters);
    assert r[i] == KeyValue(inputs[i].0, env.getEnvVar(inputs[i].1.value));
    forall j | 0 <= j < i ensures r[j].key != inputs[i].0 {
      assert r[j].key == inputs[j].0;
    }
    FirstIndexAt(inputs[i].0, r, i);
  }

  /** Lookup in a list that does not hold the key in its first part only sees the second part. */
  lemma LookupAfter(key: string, d: seq<KeyValue>, t: seq<KeyValue>)
    requires key !in Keys(d)
    ensures Lookup(key, d + t) == Lookup(key, t)
  {
    var r := d + t;
    var f := FirstIndex(key, t);
    forall j | 0 <= j < |d| ensures r[j].key != key {
      assert Keys(d)[j] == d[j].key;
    }
    if f < |t| {
      forall j | 0 <= j < |d| + f ensures r[j].key != key {
        if j >= |d| { assert r[j] == t[j - |d|]; }
      }
      FirstIndexAt(key, r, |d| + f);
    } else {
      forall j | 0 <= j < |r| ensures Keys(r)[j] != key {
        if j >= |d| { assert r[j] == t[j - |d|] && Keys(t)[j - |d|] == t[j - |d|].key; }
      }
    }
  }

  /** Filtering out other keys does not change what a kept key looks up. */
  lemma {:induction false} LookupWithoutKeys(key: string, kvs: seq<KeyValue>, ks: seq<string>)
    requires key !in ks
    ensures Lookup(key, WithoutKeys(kvs, ks)) == Lookup(key, kvs)
  {
    if kvs != [] {
      LookupWithoutKeys(key, kvs[1..], ks);
      var tail := WithoutKeys(kvs[1..], ks);
      if kvs[0].key == key {
        assert WithoutKeys(kvs, ks) == [kvs[0]] + tail;
        FirstIndexAt(key, [kvs[0]] + tail, 0);
        FirstIndexAt(key, kvs, 0);
      } else {
        assert Keys([kvs[0]]) == [kvs[0].key];
        LookupAfter(key, [kvs[0]], kvs[1..]);
        assert [kvs[0]] + kvs[1..] == kvs;
        if kvs[0].key in ks {
          assert WithoutKeys(kvs, ks) == tail;
        } else {
          assert WithoutKeys(kvs, ks) == [kvs[0]] + tail;
          LookupAfter(key, [kvs[0]], tail);
        }
      }
    }
  }

  /** A composed parameter the deployment does not redeclare keeps the value it had. */
  lemma MergeInputsKeepsOthers(env: Env, inputs: seq<(string, ParamSpec)>, parameters: seq<KeyValue>, key: string)
    requires key !in Names(inputs)
    ensures Lookup(key, MergeInputs(env, inputs, parameters)) == Lookup(key, parameters)
  {
    var dep := DeploymentInputs(env, inputs);
    forall j | 0 <= j < |dep| ensures Keys(dep)[j] != key {
      assert Names(inputs)[j] == Keys(dep)[j];
    }
    LookupAfter(key, dep, WithoutKeys(parameters, Keys(dep)));
    LookupWithoutKeys(key, parameters, Keys(dep));
  }

  lemma KeysAppend(a: seq<KeyValue>, b: seq<KeyValue>)
    ensures Keys(a + b) == Keys(a) + Keys(b)
  {
  }

  lemma KeyIn(key: string, kvs: seq<KeyValue>)
    ensures key in Keys(kvs) <==> exists kv :: kv in kvs && kv.key == key
  {
    if key in Keys(kvs) {
      var j :| 0 <= j < |kvs| && Keys(kvs)[j] == key;
      assert kvs[j] in kvs;
    }
  }

  /** The deployment inputs carry the declared names, in order. */
  lemma DeploymentInputsKeys(env: Env, inputs: seq<(string, ParamSpec)>)
    ensures Keys(DeploymentInputs(env, inputs)) == Names(inputs)
  {
  }

  /** No key is lost and the deployment's new keys are added: the merged keys are exactly the keys of both lists. */
  lemma MergeInputsKeys(env: Env, inputs: seq<(string, ParamSpec)>, parameters: seq<KeyValue>, key: string)
    ensures key in Keys(MergeInputs(env, inputs, parameters)) <==> key in Names(inputs) || key in Keys(parameters)
  {
    var dep := DeploymentInputs(env, inputs);
    var rest := WithoutKeys(parameters, Keys(dep));
    DeploymentInputsKeys(env, inputs);
    KeysAppend(dep, rest);
    KeyIn(key, rest);
    KeyIn(key, parameters);
  }

  /** The deployment inputs as the pass gathers them. */
  method DeploymentInputValues(env: Env, inputs: seq<(string, ParamSpec)>) returns (kvs: seq<KeyValue>)
    ensures kvs == DeploymentInputs(env, inputs)
  {
    kvs := [];
    var i := 0;
    while i < |inputs|
      invariant 0 <= i <= |inputs|
      invariant kvs == DeploymentInputs(env, inputs)[..i]
    {
      var (name, input) := inputs[i];
      kvs := kvs + [KeyValue(name, env.getEnvVar(input.value))];
      i := i + 1;
    }
  }

  /** depParams: the deployment inputs by key. */
  method DepParams(keyValArr: seq<KeyValue>) returns (depParams: map<string, KeyValue>)
    ensures forall k :: k in depParams <==> k in Keys(keyValArr)
  {
    ghost var ks := Keys(keyValArr);
    depParams := map[];
    var i := 0;
    while i < |keyValArr|
      invariant 0 <= i <= |keyValArr|
      invariant forall k :: k in depParams <==> k in ks[..i]
    {
      var key := keyValArr[i].key;
      assert ks[i] == key;
      assert ks[..i + 1] == ks[..i] + [key];
      depParams := depParams[key := keyValArr[i]];
      i := i + 1;
    }
    assert ks[..i] == ks;
  }

  /** The merge of one entity's parameters: the deployment inputs, then the composed parameters not in depParams. */
  method MergeParameters(env: Env, inputs: seq<(string, ParamSpec)>, parameters: seq<KeyValue>) returns (keyValArr: seq<KeyValue>)
    ensures keyValArr == MergeInputs(env, inputs, parameters)
  {
    keyValArr := DeploymentInputValues(env, inputs);
    ghost var dep := keyValArr;
    var depParams := DepParams(keyValArr);
    var j := 0;
    assert parameters[..j] == [];
    while j < |parameters|
      invariant 0 <= j <= |parameters|
      invariant keyValArr == dep + WithoutKeys(parameters[..j], Keys(dep))
    {
      var keyVal := parameters[j];
      MergeStep(parameters, j, Keys(dep), dep, keyValArr);
      if keyVal.key !in depParams {
        keyValArr := keyValArr + [keyVal];
      }
      j := j + 1;
    }
    assert parameters[..j] == parameters;
  }

  lemma MergeStep(parameters: seq<KeyValue>, j: nat, ks: seq<string>, dep: seq<KeyValue>, acc: seq<KeyValue>)
    requires j < |parameters|
    requires acc == dep + WithoutKeys(parameters[..j], ks)
    ensures parameters[j].key in ks ==> acc == dep + WithoutKeys(parameters[..j + 1], ks)
    ensures parameters[j].key !in ks ==> acc + [parameters[j]] == dep + WithoutKeys(parameters[..j + 1], ks)
  {
    var w := WithoutKeys(parameters[..j], ks);
    assert parameters[..j + 1] == parameters[..j] + [parameters[j]];
    WithoutKeysAppend(parameters[..j], [parameters[j]], ks);
    var one := WithoutKeys([parameters[j]], ks);
    assert one == (if parameters[j].key in ks then [] else [parameters[j]]) + WithoutKeys([], ks);
    if parameters[j].key in ks {
      assert one == [];
      assert w + one == w;
    } else {
      assert one == [parameters[j]];
      assert (dep + w) + [parameters[j]] == dep + (w + [parameters[j]]);
    }
  }

  // ---------------------------------------------------------------------
  // Annotation override
  // ---------------------------------------------------------------------

  /** One deployment annotation: the value of the first entry with its key replaced by the raw value, or None when no entry holds it. */
  function Override(annotations: seq<KeyValue>, name: string, value: Value): Option<seq<KeyValue>> {
    var i := FirstIndex(name, annotations);
    if i < |annotations| then Some(annotations[i := annotations[i].(value := value)]) else None
  }

  /**
    All deployment annotations in turn: the list after the last override
    made, and the first key the composed entity does not hold, if any.
    Overrides made before that key stay.
   */
  function OverrideAll(annotations: seq<KeyValue>, overrides: seq<(string, Value)>): (seq<KeyValue>, Option<string>)
    decreases |overrides|
  {
    if overrides == [] then (annotations, None)
    else match Override(annotations, overrides[0].0, overrides[0].1)
      case None => (annotations, Some(overrides[0].0))
      case Some(next) => OverrideAll(next, overrides[1..])
  }

  /** Two lists with the same keys position by position. */
  predicate SameKeys(a: seq<KeyValue>, b: seq<KeyValue>) {
    |a| == |b| && forall i :: 0 <= i < |a| ==> a[i].key == b[i].key
  }

  lemma SameKeysAgree(a: seq<KeyValue>, b: seq<KeyValue>, key: string)
    requires SameKeys(a, b)
    ensures FirstIndex(key, a) == FirstIndex(key, b)
    ensures key in Keys(a) <==> key in Keys(b)
  {
    assert Keys(a) == Keys(b);
    var f := FirstIndex(key, a);
    if f < |a| {
      FirstIndexAt(key, b, f);
    }
  }

  /** The override only ever rewrites values: length and every key stay. */
  lemma {:induction false} OverrideAllKeys(annotations: seq<KeyValue>, overrides: seq<(string, Value)>)
    ensures SameKeys(OverrideAll(annotations, overrides).0, annotations)
    decreases |overrides|
  {
    if overrides != [] {
      var o := Override(annotations, overrides[0].0, overrides[0].1);
      if o.Some? {
        OverrideAllKeys(o.value, overrides[1..]);
      }
    }
  }

  /** One override: None exactly when the key is missing; otherwise only values change. */
  lemma OverrideStep(annotations: seq<KeyValue>, name: string, value: Value)
    ensures var o := Override(annotations, name, value);
      (o.None? <==> name !in Keys(annotations)) &&
      (o.Some? ==> SameKeys(o.value, annotations) && Keys(o.value) == Keys(annotations))
  {
  }

  /** The override succeeds exactly when every deployment key is among the composed keys. */
  lemma {:induction false} OverrideAllSucceeds(annotations: seq<KeyValue>, overrides: seq<(string, Value)>)
    ensures OverrideAll(annotations, overrides).1.None? <==>
      forall j :: 0 <= j < |overrides| ==> overrides[j].0 in Keys(annotations)
    decreases |overrides|
  {
    if overrides != [] {
      OverrideStep(annotations, overrides[0].0, overrides[0].1);
      var o := Override(annotations, overrides[0].0, overrides[0].1);
      if o.Some? {
        var tail := overrides[1..];
        OverrideAllSucceeds(o.value, tail);
        if OverrideAll(o.value, tail).1.None? {
          forall j | 0 <= j < |overrides| ensures overrides[j].0 in Keys(annotations) {
            if j > 0 { assert overrides[j] == tail[j - 1]; }
          }
        } else {
          var j :| 0 <= j < |tail| && tail[j].0 !in Keys(o.value);
          assert overrides[j + 1] == tail[j];
        }
      }
    }
  }

  /** A failed override names the first deployment key that the composed entity does not hold. */
  lemma {:induction false} OverrideAllFirstMissing(annotations: seq<KeyValue>, overrides: seq<(string, Value)>)
    requires OverrideAll(annotations, overrides).1.Some?
    ensures var name := OverrideAll(annotations, overrides).1.value;
      exists j :: (0 <= j < |overrides| && name == overrides[j].0 && name !in Keys(annotations) &&
        forall l :: 0 <= l < j ==> overrides[l].0 in Keys(annotations))
    decreases |overrides|
  {
    OverrideStep(annotations, overrides[0].0, overrides[0].1);
    var o := Override(annotations, overrides[0].0, overrides[0].1);
    if o.Some? {
      var tail := overrides[1..];
      OverrideAllFirstMissing(o.value, tail);
      var name := OverrideAll(o.value, tail).1.value;
      var j :| 0 <= j < |tail| && name == tail[j].0 && name !in Keys(o.value) &&
        forall l :: 0 <= l < j ==> tail[l].0 in Keys(o.value);
      assert overrides[j + 1] == tail[j];
      forall l | 0 <= l < j + 1 ensures overrides[l].0 in Keys(annotations) {
        if l > 0 { assert overrides[l] == tail[l - 1]; }
      }
    } else {
      assert 0 < |overrides|;
    }
  }

  /**
    Overrides apply one after another and nothing is rolled back: a list of
    overrides that succeeds leaves the next list to start from its result.
   */
  lemma {:induction false} OverrideAllAppend(annotations: seq<KeyValue>, first: seq<(string, Value)>, second: seq<(string, Value)>)
    requires OverrideAll(annotations, first).1.None?
    ensures OverrideAll(annotations, first + second) == OverrideAll(OverrideAll(annotations, first).0, second)
    decreases |first|
  {
    if first == [] {
      assert first + second == second;
    } else {
      var o := Override(annotations, first[0].0, first[0].1);
      assert (first + second)[0] == first[0];
      assert (first + second)[1..] == first[1..] + second;
      OverrideAllAppend(o.value, first[1..], second);
    }
  }

  /**
    Only the first entry of each deployment key is rewritten: an entry whose
    key the overrides do not name, or that an earlier entry with the same key
    precedes, stays as it was.
   */
  lemma {:induction false} OverrideAllUntouched(annotations: seq<KeyValue>, overrides: seq<(string, Value)>, i: nat)
    requires i < |annotations|
    requires annotations[i].key !in Names(overrides) || FirstIndex(annotations[i].key, annotations) != i
    ensures var r := OverrideAll(annotations, overrides).0; i < |r| && r[i] == annotations[i]
    decreases |overrides|
  {
    OverrideAllKeys(annotations, overrides);
    if overrides != [] {
      var name := overrides[0].0;
      var o := Override(annotations, name, overrides[0].1);
      if o.Some? {
        var next := o.value;
        var key := annotations[i].key;
        NamesTail(overrides);
        assert i != FirstIndex(name, annotations);
        assert next[i] == annotations[i];
        SameKeysAgree(next, annotations, key);
        OverrideAllUntouched(next, overrides[1..], i);
      }
    }
  }

  /** After a successful override the first deployment key looks up its deployment value. */
  lemma OverrideAllValueHead(annotations: seq<KeyValue>, overrides: seq<(string, Value)>)
    requires overrides != [] && overrides[0].0 !in Names(overrides[1..])
    requires OverrideAll(annotations, overrides).1.None?
    ensures Lookup(overrides[0].0, OverrideAll(annotations, overrides).0) == Some(overrides[0].1)
  {
    var name := overrides[0].0;
    OverrideStep(annotations, name, overrides[0].1);
    var next := Override(annotations, name, overrides[0].1).value;
    var tail := overrides[1..];
    var p := FirstIndex(name, annotations);
    SameKeysAgree(next, annotations, name);
    OverrideAllUntouched(next, tail, p);
    var r := OverrideAll(next, tail).0;
    assert r == OverrideAll(annotations, overrides).0;
    OverrideAllKeys(next, tail);
    SameKeysAgree(r, next, name);
  }

  /** A successful override starts with a successful first override and continues from its result. */
  lemma OverrideAllUnfold(annotations: seq<KeyValue>, overrides: seq<(string, Value)>)
    requires overrides != [] && OverrideAll(annotations, overrides).1.None?
    ensures Override(annotations, overrides[0].0, overrides[0].1).Some?
    ensures OverrideAll(annotations, overrides)
         == OverrideAll(Override(annotations, overrides[0].0, overrides[0].1).value, overrides[1..])
  {
  }

  /** After a successful override each deployment annotation key looks up its deployment value. */
  lemma {:induction false} OverrideAllValue(annotations: seq<KeyValue>, overrides: seq<(string, Value)>, j: nat)
    requires DistinctNames(overrides) && j < |overrides|
    requires OverrideAll(annotations, overrides).1.None?
    ensures Lookup(overrides[j].0, OverrideAll(annotations, overrides).0) == Some(overrides[j].1)
    decreases |overrides|, 1
  {
    if j > 0 {
      OverrideAllValueTail(annotations, overrides, j);
    } else {
      var tail := overrides[1..];
      forall l | 0 <= l < |tail| ensures Names(tail)[l] != overrides[0].0 {
        assert tail[l] == overrides[l + 1];
      }
      OverrideAllValueHead(annotations, overrides);
    }
  }

  /** A later deployment key keeps the value the rest of the overrides give it. */
  lemma {:induction false} OverrideAllValueTail(annotations: seq<KeyValue>, overrides: seq<(string, Value)>, j: nat)
    requires DistinctNames(overrides) && 0 < j < |overrides|
    requires OverrideAll(annotations, overrides).1.None?
    ensures Lookup(overrides[j].0, OverrideAll(annotations, overrides).0) == Some(overrides[j].1)
    decreases |overrides|, 0
  {
    var tail := overrides[1..];
    OverrideAllUnfold(annotations, overrides);
    var next := Override(annotations, overrides[0].0, overrides[0].1).value;
    DistinctRest(overrides);
    OverrideAllValue(next, tail, j - 1);
    assert tail[j - 1] == overrides[j];
  }

  /** The first annotation with the deployment key, as the inner range loop finds it. */
  method FindAnnotation(annotations: seq<KeyValue>, name: string) returns (keyExistsInManifest: bool, i: nat)
    ensures i == FirstIndex(name, annotations)
    ensures keyExistsInManifest <==> i < |annotations|
  {
    keyExistsInManifest := false;
    i := 0;
    while i < |annotations|
      invariant 0 <= i <= |annotations|
      invariant forall j :: 0 <= j < i ==> annotations[j].key != name
    {
      if name == annotations[i].key {
        keyExistsInManifest := true;
        FirstIndexAt(name, annotations, i);
        return;
      }
      i := i + 1;
    }
  }

  /** The deployment annotations laid over one entity's composed annotations, stopping at the first unknown key. */
  method OverrideAnnotations(annotations: seq<KeyValue>, overrides: seq<(string, Value)>)
    returns (r: seq<KeyValue>, missing: Option<string>)
    ensures (r, missing) == OverrideAll(annotations, overrides)
  {
    r := annotations;
    var i := 0;
    assert overrides[i..] == overrides;
    while i < |overrides|
      invariant 0 <= i <= |overrides|
      invariant OverrideAll(annotations, overrides) == OverrideAll(r, overrides[i..])
    {
      var rest := overrides[i..];
      assert rest[0] == overrides[i] && rest[1..] == overrides[i + 1..];
      var (name, input) := overrides[i];
      var keyExistsInManifest, k := FindAnnotation(r, name);
      if !keyExistsInManifest {
        return r, Some(name);
      }
      r := r[k := r[k].(value := input)];
      i := i + 1;
    }
    assert overrides[i..] == [];
    missing := None;
  }

  // ---------------------------------------------------------------------
  // One entity
  // ---------------------------------------------------------------------

  /** An entity's parameters and annotations after binding, and the unknown annotation key if any. */
  datatype Bound = Bound(parameters: seq<KeyValue>, annotations: seq<KeyValue>, missing: Option<string>)

  function Bind(env: Env, inputs: seq<(string, ParamSpec)>, overrides: seq<(string, Value)>,
                parameters: seq<KeyValue>, annotations: seq<KeyValue>): Bound
  {
    var o := OverrideAll(annotations, overrides);
    Bound(MergeInputs(env, inputs, parameters), o.0, o.1)
  }

  /** The input merge (only when the deployment declares inputs) and the annotation override of one entity. */
  method BindEntity(env: Env, inputs: seq<(string, ParamSpec)>, overrides: seq<(string, Value)>,
                    parameters: seq<KeyValue>, annotations: seq<KeyValue>) returns (b: Bound)
    ensures b == Bind(env, inputs, overrides, parameters, annotations)
  {
    var params := parameters;
    if |inputs| > 0 {
      params := MergeParameters(env, inputs, parameters);
    } else {
      MergeNoInputs(env, inputs, parameters);
    }
    var anns, missing := OverrideAnnotations(annotations, overrides);
    b := Bound(params, anns, missing);
  }

  /** The error the passes return for an unknown annotation key: a YAMLFileFormatError on the deployment file. */
  function MissingError(filePath: string, missing: Option<string>): Option<Error> {
    if missing.Some? then Some(YAMLFileFormatError(filePath, missing.value)) else None
  }

  // ---------------------------------------------------------------------
  // The three passes, as functions of the deployment before them
  // ---------------------------------------------------------------------

  /** The outcome of a pass: the new state, the unknown annotation key it stopped at, and the package name it broke at. */
  datatype Pass<S> = Pass(state: S, missing: Option<string>, unmatched: Option<string>)

  function BindPackage(env: Env, pack: PackageSpec, d: DeploymentPackage): (DeploymentPackage, Option<string>) {
    var p := d.package;
    var b := Bind(env, pack.inputs, pack.annotations, p.parameters, p.annotations);
    (d.(package := p.(parameters := b.parameters, annotations := b.annotations)), b.missing)
  }

  /** bindPackageInputsAndAnnotations: the packages in turn; a name the manifest did not compose breaks the loop, with no error. */
  function PackagePass(env: Env, packMap: seq<(string, PackageSpec)>, packages: map<string, DeploymentPackage>)
    : Pass<map<string, DeploymentPackage>>
    decreases |packMap|
  {
    if packMap == [] then Pass(packages, None, None)
    else
      var name := packMap[0].0;
      if name !in packages then Pass(packages, None, Some(name))
      else
        var (d, missing) := BindPackage(env, packMap[0].1, packages[name]);
        var next := packages[name := d];
        if missing.Some? then Pass(next, missing, None) else PackagePass(env, packMap[1..], next)
  }

  /** The package pass at an unmatched name: it ends there, naming it. */
  lemma PackagePassUnmatched(env: Env, packMap: seq<(string, PackageSpec)>, i: nat, packages: map<string, DeploymentPackage>)
    requires i < |packMap| && packMap[i].0 !in packages
    ensures PackagePass(env, packMap[i..], packages) == Pass(packages, None, Some(packMap[i].0))
  {
    var rest := packMap[i..];
    assert rest[0] == packMap[i];
  }

  /** The package pass at a matched name: the bound package replaces the composed one, and the pass stops or goes on. */
  lemma PackagePassBound(env: Env, packMap: seq<(string, PackageSpec)>, i: nat, packages: map<string, DeploymentPackage>,
                         d: DeploymentPackage, missing: Option<string>)
    requires i < |packMap| && packMap[i].0 in packages
    requires (d, missing) == BindPackage(env, packMap[i].1, packages[packMap[i].0])
    ensures missing.Some? ==> PackagePass(env, packMap[i..], packages) == Pass(packages[packMap[i].0 := d], missing, None)
    ensures missing.None? ==> PackagePass(env, packMap[i..], packages) == PackagePass(env, packMap[i + 1..], packages[packMap[i].0 := d])
  {
    var rest := packMap[i..];
    assert rest[0] == packMap[i] && rest[1..] == packMap[i + 1..];
  }

  function BindActionRecord(env: Env, spec: ActionSpec, record: ActionRecord): (ActionRecord, Option<string>) {
    var a := record.action;
    var b := Bind(env, spec.inputs, spec.annotations, a.parameters, a.annotations);
    (record.(action := a.(parameters := b.parameters, annotations := b.annotations)), b.missing)
  }

  /** The actions of one deployment package; an action the package did not compose is skipped. */
  function ActionsPass(env: Env, actions: seq<(string, ActionSpec)>, records: map<string, ActionRecord>)
    : (map<string, ActionRecord>, Option<string>)
    decreases |actions|
  {
    if actions == [] then (records, None)
    else
      var name := actions[0].0;
      if name !in records then ActionsPass(env, actions[1..], records)
      else
        var (r, missing) := BindActionRecord(env, actions[0].1, records[name]);
        var next := records[name := r];
        if missing.Some? then (next, missing) else ActionsPass(env, actions[1..], next)
  }

  /** bindActionInputsAndAnnotations: the packages in turn; an unmatched package name silently breaks the loop. */
  function ActionPass(env: Env, packMap: seq<(string, PackageSpec)>, packages: map<string, DeploymentPackage>)
    : Pass<map<string, DeploymentPackage>>
    decreases |packMap|
  {
    if packMap == [] then Pass(packages, None, None)
    else
      var name := packMap[0].0;
      if name !in packages then Pass(packages, None, Some(name))
      else
        var (records, missing) := ActionsPass(env, packMap[0].1.actions, packages[name].actions);
        var next := packages[name := packages[name].(actions := records)];
        if missing.Some? then Pass(next, missing, None) else ActionPass(env, packMap[1..], next)
  }

  function BindTrigger(env: Env, spec: TriggerSpec, t: Trigger): (Trigger, Option<string>) {
    var b := Bind(env, spec.inputs, spec.annotations, t.parameters, t.annotations);
    (t.(parameters := b.parameters, annotations := b.annotations), b.missing)
  }

  /** The triggers of one deployment package, looked up in the deployment-wide trigger map; unknown ones are skipped. */
  function TriggersPass(env: Env, triggers: seq<(string, TriggerSpec)>, all: map<string, Trigger>)
    : (map<string, Trigger>, Option<string>)
    decreases |triggers|
  {
    if triggers == [] then (all, None)
    else
      var name := triggers[0].0;
      if name !in all then TriggersPass(env, triggers[1..], all)
      else
        var (t, missing) := BindTrigger(env, triggers[0].1, all[name]);
        var next := all[name := t];
        if missing.Some? then (next, missing) else TriggersPass(env, triggers[1..], next)
  }

  /** bindTriggerInputsAndAnnotations: every package's triggers in turn; package names are not looked up at all. */
  function TriggerPass(env: Env, packMap: seq<(string, PackageSpec)>, all: map<string, Trigger>)
    : (map<string, Trigger>, Option<string>)
    decreases |packMap|
  {
    if packMap == [] then (all, None)
    else
      var (next, missing) := TriggersPass(env, packMap[0].1.triggers, all);
      if missing.Some? then (next, missing) else TriggerPass(env, packMap[1..], next)
  }

  /** The deployment after BindAssets, and the error it returns. */
  datatype Bindings = Bindings(packages: map<string, DeploymentPackage>, triggers: map<string, Trigger>, error: Option<Error>)

  /** BindAssets: the package, action and trigger passes in that order, stopping at the first error. */
  function BindAll(env: Env, descriptor: Yaml, packages: map<string, DeploymentPackage>, triggers: map<string, Trigger>): Bindings {
    var packMap := PackMap(descriptor);
    var p := PackagePass(env, packMap, packages);
    if p.missing.Some? then Bindings(p.state, triggers, MissingError(descriptor.filepath, p.missing))
    else
      var a := ActionPass(env, packMap, p.state);
      if a.missing.Some? then Bindings(a.state, triggers, MissingError(descriptor.filepath, a.missing))
      else
        var t := TriggerPass(env, packMap, triggers);
        Bindings(a.state, t.0, MissingError(descriptor.filepath, t.1))
  }

  // ---------------------------------------------------------------------
  // What the passes do and do not touch
  // ---------------------------------------------------------------------

  /**
    The package pass neither adds nor removes a package, leaves every
    package's actions alone, and leaves every package the package map does
    not name as it was.
   */
  lemma {:induction false} PackagePassFrame(env: Env, packMap: seq<(string, PackageSpec)>, packages: map<string, DeploymentPackage>)
    ensures var r := PackagePass(env, packMap, packages).state;
      r.Keys == packages.Keys &&
      (forall n :: n in packages ==> r[n].actions == packages[n].actions) &&
      (forall n :: n in packages && n !in Names(packMap) ==> r[n] == packages[n])
    decreases |packMap|
  {
    if packMap != [] && packMap[0].0 in packages {
      var name := packMap[0].0;
      var (d, missing) := BindPackage(env, packMap[0].1, packages[name]);
      var next := packages[name := d];
      assert d.actions == packages[name].actions;
      assert Names(packMap)[0] == name;
      if missing.None? {
        PackagePassFrame(env, packMap[1..], next);
        NamesTail(packMap);
        var r := PackagePass(env, packMap[1..], next).state;
        assert PackagePass(env, packMap, packages).state == r;
        forall n | n in packages && n !in Names(packMap) ensures r[n] == packages[n] {
          assert n != name && n !in Names(packMap[1..]);
        }
      } else {
        assert PackagePass(env, packMap, packages).state == next;
      }
    }
  }

  /**
    The action pass neither adds nor removes a package, leaves every
    package entity alone, and leaves every package the package map does
    not name as it was.
   */
  lemma {:induction false} ActionPassFrame(env: Env, packMap: seq<(string, PackageSpec)>, packages: map<string, DeploymentPackage>)
    ensures var r := ActionPass(env, packMap, packages).state;
      r.Keys == packages.Keys &&
      (forall n :: n in packages ==> r[n].package == packages[n].package) &&
      (forall n :: n in packages && n !in Names(packMap) ==> r[n] == packages[n])
    decreases |packMap|
  {
    if packMap != [] && packMap[0].0 in packages {
      var name := packMap[0].0;
      var (records, missing) := ActionsPass(env, packMap[0].1.actions, packages[name].actions);
      var next := packages[name := packages[name].(actions := records)];
      assert Names(packMap)[0] == name;
      if missing.None? {
        ActionPassFrame(env, packMap[1..], next);
        NamesTail(packMap);
      }
    }
  }

  /** The actions of a package: none added or removed, and an action the deployment does not name stays as it was. */
  lemma {:induction false} ActionsPassFrame(env: Env, actions: seq<(string, ActionSpec)>, records: map<string, ActionRecord>)
    ensures var r := ActionsPass(env, actions, records).0;
      r.Keys == records.Keys &&
      (forall n :: n in records && n !in Names(actions) ==> r[n] == records[n])
    decreases |actions|
  {
    if actions != [] {
      var name := actions[0].0;
      assert Names(actions)[0] == name;
      NamesTail(actions);
      if name !in records {
        ActionsPassFrame(env, actions[1..], records);
      } else {
        var (rec, missing) := BindActionRecord(env, actions[0].1, records[name]);
        if missing.None? {
          ActionsPassFrame(env, actions[1..], records[name := rec]);
        }
      }
    }
  }

  /** The triggers of a package: none added or removed, and a trigger the deployment does not name stays as it was. */
  lemma {:induction false} TriggersPassFrame(env: Env, triggers: seq<(string, TriggerSpec)>, all: map<string, Trigger>)
    ensures var r := TriggersPass(env, triggers, all).0;
      r.Keys == all.Keys &&
      (forall n :: n in all && n !in Names(triggers) ==> r[n] == all[n])
    decreases |triggers|
  {
    if triggers != [] {
      var name := triggers[0].0;
      assert Names(triggers)[0] == name;
      NamesTail(triggers);
      if name !in all {
        TriggersPassFrame(env, triggers[1..], all);
      } else {
        var (t, missing) := BindTrigger(env, triggers[0].1, all[name]);
        if missing.None? {
          TriggersPassFrame(env, triggers[1..], all[name := t]);
        }
      }
    }
  }

  /**
    Break: once a package map name has no composed package, no package
    named after it in the map is bound, whether or not it exists.
   */
  lemma {:induction false} PackagePassBreak(env: Env, packMap: seq<(string, PackageSpec)>, packages: map<string, DeploymentPackage>, k: nat)
    requires DistinctNames(packMap) && k < |packMap| && packMap[k].0 !in packages
    ensures var r := PackagePass(env, packMap, packages).state;
      forall j :: k < j < |packMap| && packMap[j].0 in packages ==> packMap[j].0 in r && r[packMap[j].0] == packages[packMap[j].0]
    decreases |packMap|
  {
    if k > 0 && packMap[0].0 in packages {
      var name := packMap[0].0;
      var (d, missing) := BindPackage(env, packMap[0].1, packages[name]);
      var next := packages[name := d];
      DistinctTail(packMap);
      if missing.None? {
        assert packMap[1..][k - 1] == packMap[k];
        PackagePassBreak(env, packMap[1..], next, k - 1);
        forall j | k < j < |packMap| && packMap[j].0 in packages
          ensures var r := PackagePass(env, packMap, packages).state; packMap[j].0 in r && r[packMap[j].0] == packages[packMap[j].0]
        {
          assert packMap[1..][j - 1] == packMap[j];
        }
      } else {
        PackagePassFrame(env, packMap[1..], next);
      }
    }
  }

  /** Break in the action pass: no package named after the first unmatched name has its actions bound. */
  lemma {:induction false} ActionPassBreak(env: Env, packMap: seq<(string, PackageSpec)>, packages: map<string, DeploymentPackage>, k: nat)
    requires DistinctNames(packMap) && k < |packMap| && packMap[k].0 !in packages
    ensures var r := ActionPass(env, packMap, packages).state;
      forall j :: k < j < |packMap| && packMap[j].0 in packages ==> packMap[j].0 in r && r[packMap[j].0] == packages[packMap[j].0]
    decreases |packMap|
  {
    if k > 0 && packMap[0].0 in packages {
      var name := packMap[0].0;
      var (records, missing) := ActionsPass(env, packMap[0].1.actions, packages[name].actions);
      var next := packages[name := packages[name].(actions := records)];
      DistinctTail(packMap);
      if missing.None? {
        assert packMap[1..][k - 1] == packMap[k];
        ActionPassBreak(env, packMap[1..], next, k - 1);
        forall j | k < j < |packMap| && packMap[j].0 in packages
          ensures var r := ActionPass(env, packMap, packages).state; packMap[j].0 in r && r[packMap[j].0] == packages[packMap[j].0]
        {
          assert packMap[1..][j - 1] == packMap[j];
        }
      }
    }
  }

  /**
    With distinct names and no earlier break, the package pass binds each
    package of the map exactly once, onto the package as the manifest
    composed it.
   */
  lemma {:induction false} PackagePassApplies(env: Env, packMap: seq<(string, PackageSpec)>, packages: map<string, DeploymentPackage>, i: nat)
    requires DistinctNames(packMap) && i < |packMap|
    requires forall j :: 0 <= j <= i ==> packMap[j].0 in packages
    requires PackagePass(env, packMap, packages).missing.None?
    ensures var r := PackagePass(env, packMap, packages).state;
      packMap[i].0 in r && r[packMap[i].0] == BindPackage(env, packMap[i].1, packages[packMap[i].0]).0
    decreases |packMap|
  {
    var name := packMap[0].0;
    var (d, missing) := BindPackage(env, packMap[0].1, packages[name]);
    var next := packages[name := d];
    DistinctTail(packMap);
    var tail := packMap[1..];
    if i > 0 {
      assert tail[i - 1] == packMap[i];
      forall j | 0 <= j <= i - 1 ensures tail[j].0 in next {
        assert tail[j] == packMap[j + 1];
      }
      PackagePassApplies(env, tail, next, i - 1);
    } else {
      PackagePassFrame(env, tail, next);
      forall l | 0 <= l < |tail| ensures Names(tail)[l] != name {
        assert tail[l] == packMap[l + 1];
      }
    }
  }

  // ---------------------------------------------------------------------
  // The reader
  // ---------------------------------------------------------------------

  /** DeploymentReader: the composed deployment it binds onto, the parsed deployment file, and the warnings it prints. */
  class DeploymentReader {
    const deployment: DeploymentProject
    const descriptor: Yaml
    const env: Env
    var warnings: seq<Warning>

    constructor (deployment: DeploymentProject, descriptor: Yaml, env: Env)
      ensures this.deployment == deployment && this.descriptor == descriptor && this.env == env
      ensures warnings == []
    {
      this.deployment := deployment;
      this.descriptor := descriptor;
      this.env := env;
      warnings := [];
    }

    /** BindAssets: bind packages, then actions, then triggers; return the first error. */
    method BindAssets() returns (err: Option<Error>)
      modifies this, deployment
      ensures Bindings(deployment.packages, deployment.triggers, err)
           == BindAll(env, descriptor, old(deployment.packages), old(deployment.triggers))
      ensures var p := PackagePass(env, PackMap(descriptor), old(deployment.packages));
        warnings == old(warnings) + PackMapWarnings(descriptor) + (if p.unmatched.Some? then [PackageNameMismatch(p.unmatched.value)] else [])
    {
      err := BindPackageInputsAndAnnotations();
      if err.Some? {
        return;
      }
      err := BindActionInputsAndAnnotations();
      if err.Some? {
        return;
      }
      err := BindTriggerInputsAndAnnotations();
    }

    /** bindPackageInputsAndAnnotations. */
    method BindPackageInputsAndAnnotations() returns (err: Option<Error>)
      modifies this, deployment
      ensures var p := PackagePass(env, PackMap(descriptor), old(deployment.packages));
        deployment.packages == p.state && err == MissingError(descriptor.filepath, p.missing) &&
        warnings == old(warnings) + PackMapWarnings(descriptor) + (if p.unmatched.Some? then [PackageNameMismatch(p.unmatched.value)] else [])
      ensures deployment.triggers == old(deployment.triggers)
    {
      var packMap := DescriptorPackMap(descriptor);
      if descriptor.project.packages.None? && descriptor.project.package.packagename != "" {
        warnings := warnings + [DeprecatedPackageKey];
      }
      var i := 0;
      assert packMap[i..] == packMap;
      while i < |packMap|
        invariant 0 <= i <= |packMap|
        invariant PackagePass(env, packMap, old(deployment.packages)) == PackagePass(env, packMap[i..], deployment.packages)
        invariant deployment.triggers == old(deployment.triggers)
        invariant warnings == old(warnings) + PackMapWarnings(descriptor)
      {
        var (packName, pack) := packMap[i];
        if packName !in deployment.packages {
          PackagePassUnmatched(env, packMap, i, deployment.packages);
          warnings := warnings + [PackageNameMismatch(packName)];
          // the break: the loop ends and the pass returns nil
          return None;
        }
        var serviceDeployPack, missing := BindDeploymentPackage(env, pack, deployment.packages[packName]);
        PackagePassBound(env, packMap, i, deployment.packages, serviceDeployPack, missing);
        deployment.packages := deployment.packages[packName := serviceDeployPack];
        if missing.Some? {
          return Some(YAMLFileFormatError(descriptor.filepath, missing.value));
        }
        i := i + 1;
      }
      assert packMap[i..] == [];
      return None;
    }

    /** bindActionInputsAndAnnotations. */
    method BindActionInputsAndAnnotations() returns (err: Option<Error>)
      modifies deployment
      ensures var a := ActionPass(env, PackMap(descriptor), old(deployment.packages));
        deployment.packages == a.state && err == MissingError(descriptor.filepath, a.missing)
      ensures deployment.triggers == old(deployment.triggers)
    {
      var packMap := DescriptorPackMap(descriptor);
      var i := 0;
      assert packMap[i..] == packMap;
      while i < |packMap|
        invariant 0 <= i <= |packMap|
        invariant ActionPass(env, packMap, old(deployment.packages)) == ActionPass(env, packMap[i..], deployment.packages)
        invariant deployment.triggers == old(deployment.triggers)
      {
        var rest := packMap[i..];
        assert rest[0] == packMap[i] && rest[1..] == packMap[i + 1..];
        var (packName, pack) := packMap[i];
        if packName !in deployment.packages {
          return None;
        }
        var serviceDeployPack := deployment.packages[packName];
        var records, missing := BindActions(env, pack.actions, serviceDeployPack.actions);
        deployment.packages := deployment.packages[packName := serviceDeployPack.(actions := records)];
        if missing.Some? {
          return Some(YAMLFileFormatError(descriptor.filepath, missing.value));
        }
        i := i + 1;
      }
      assert packMap[i..] == [];
      return None;
    }

    /** bindTriggerInputsAndAnnotations. */
    method BindTriggerInputsAndAnnotations() returns (err: Option<Error>)
      modifies deployment
      ensures var t := TriggerPass(env, PackMap(descriptor), old(deployment.triggers));
        deployment.triggers == t.0 && err == MissingError(descriptor.filepath, t.1)
      ensures deployment.packages == old(deployment.packages)
    {
      var packMap := DescriptorPackMap(descriptor);
      var i := 0;
      assert packMap[i..] == packMap;
      while i < |packMap|
        invariant 0 <= i <= |packMap|
        invariant TriggerPass(env, packMap, old(deployment.triggers)) == TriggerPass(env, packMap[i..], deployment.triggers)
        invariant deployment.packages == old(deployment.packages)
      {
        var rest := packMap[i..];
        assert rest[0] == packMap[i] && rest[1..] == packMap[i + 1..];
        var triggers, missing := BindTriggers(env, packMap[i].1.triggers, deployment.triggers);
        deployment.triggers := triggers;
        if missing.Some? {
          return Some(YAMLFileFormatError(descriptor.filepath, missing.value));
        }
        i := i + 1;
      }
      assert packMap[i..] == [];
      return None;
    }
  }

  /** The package pass's work on one composed package: its parameters and annotations. */
  method BindDeploymentPackage(env: Env, pack: PackageSpec, serviceDeployPack: DeploymentPackage)
    returns (r: DeploymentPackage, missing: Option<string>)
    ensures (r, missing) == BindPackage(env, pack, serviceDeployPack)
  {
    var p := serviceDeployPack.package;
    var b := BindEntity(env, pack.inputs, pack.annotations, p.parameters, p.annotations);
    r := serviceDeployPack.(package := p.(parameters := b.parameters, annotations := b.annotations));
    missing := b.missing;
  }

  /** The inner loop of the action pass over one deployment package's actions. */
  method BindActions(env: Env, actions: seq<(string, ActionSpec)>, records: map<string, ActionRecord>)
    returns (r: map<string, ActionRecord>, missing: Option<string>)
    ensures (r, missing) == ActionsPass(env, actions, records)
  {
    r := records;
    var i := 0;
    assert actions[i..] == actions;
    while i < |actions|
      invariant 0 <= i <= |actions|
      invariant ActionsPass(env, actions, records) == ActionsPass(env, actions[i..], r)
    {
      var rest := actions[i..];
      assert rest[0] == actions[i] && rest[1..] == actions[i + 1..];
      var (actionName, action) := actions[i];
      if actionName in r {
        var wskAction := r[actionName];
        var b := BindEntity(env, action.inputs, action.annotations,
                            wskAction.action.parameters, wskAction.action.annotations);
        r := r[actionName := wskAction.(action := wskAction.action.(parameters := b.parameters, annotations := b.annotations))];
        if b.missing.Some? {
          return r, b.missing;
        }
      }
      i := i + 1;
    }
    assert actions[i..] == [];
    missing := None;
  }

  /** The inner loop of the trigger pass over one deployment package's triggers. */
  method BindTriggers(env: Env, triggers: seq<(string, TriggerSpec)>, all: map<string, Trigger>)
    returns (r: map<string, Trigger>, missing: Option<string>)
    ensures (r, missing) == TriggersPass(env, triggers, all)
  {
    r := all;
    var i := 0;
    assert triggers[i..] == triggers;
    while i < |triggers|
      invariant 0 <= i <= |triggers|
      invariant TriggersPass(env, triggers, all) == TriggersPass(env, triggers[i..], r)
    {
      var rest := triggers[i..];
      assert rest[0] == triggers[i] && rest[1..] == triggers[i + 1..];
      var (triggerName, trigger) := triggers[i];
      if triggerName in r {
        var wskTrigger := r[triggerName];
        var b := BindEntity(env, trigger.inputs, trigger.annotations, wskTrigger.parameters, wskTrigger.annotations);
        r := r[triggerName := wskTrigger.(parameters := b.parameters, annotations := b.annotations)];
        if b.missing.Some? {
          return r, b.missing;
        }
      }
      i := i + 1;
    }
    assert triggers[i..] == [];
    missing := None;
  }
}
