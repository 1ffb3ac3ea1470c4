/**
  ComposeDependencies and ComposeDependenciesFromAllPackages
  (parsers/manifest_parser.go): each declared dependency becomes a record
  keyed "<package>:<dependency>", its location normalised as a binding
  ("/...") or a GitHub URL ("https://..."), anything else an error.
 */
module Dependencies {
  import opened Whisk
  import opened Strs
  import opened Paths
  import opened Manifest
  import opened Externals
  import opened Inputs

  /** YAML_VALUE_BRANCH_MASTER, the version of a dependency that declares none. */
  const BRANCH_MASTER := "master"

  /** utils.DependencyRecord. */
  datatype DependencyRecord = DependencyRecord(
    projectPath: string,
    packagename: string,
    location: string,
    version: string,
    parameters: seq<KeyValue>,
    annotations: seq<KeyValue>,
    isBinding: bool)

  /**
    The location test of ComposeDependencies: a binding (tested first) gets a
    leading "/", a GitHub location gets "https://" unless it already names
    http or https, and anything else is an unknown dependency type.
   */
  function ClassifyLocation(tests: LocationTests, location: string): (r: Result<(string, bool)>)
    ensures r.Err? <==> !tests.isBinding(location) && !tests.isGithub(location)
    ensures r.Err? ==> r.error == UnknownDependencyTypeError
    ensures r.Ok? ==> (r.value.1 <==> tests.isBinding(location))
    ensures r.Ok? ==> |location| <= |r.value.0| && r.value.0[|r.value.0| - |location|..] == location
    ensures r.Ok? && r.value.1 ==> HasPrefix(r.value.0, "/")
    ensures r.Ok? && !r.value.1 ==> HasPrefix(r.value.0, "https://") || HasPrefix(r.value.0, "http://")
    ensures r.Ok? && r.value.1 ==> r.value.0 == if HasPrefix(location, "/") then location else "/" + location
    ensures r.Ok? && !r.value.1 ==>
      r.value.0 == if HasPrefix(location, "https://") || HasPrefix(location, "http://") then location else "https://" + location
  {
    if tests.isBinding(location) then
      if HasPrefix(location, "/") then Ok((location, true))
      else
        var l := "/" + location;
        assert l[|l| - |location|..] == location;
        Ok((l, true))
    else if tests.isGithub(location) then
      if HasPrefix(location, "https://") || HasPrefix(location, "http://") then Ok((location, false))
      else
        var l := "https://" + location;
        assert l[|l| - |location|..] == location;
        assert l[..8] == "https://";
        Ok((l, false))
    else Err(UnknownDependencyTypeError)
  }

  /** Normalising a location that is already normalised changes nothing. */
  lemma {:induction false} ClassifyLocationIdempotent(tests: LocationTests, location: string)
    requires ClassifyLocation(tests, location).Ok?
    requires var l := ClassifyLocation(tests, location).value.0;
      tests.isBinding(l) == tests.isBinding(location) && (tests.isGithub(location) ==> tests.isGithub(l))
    ensures ClassifyLocation(tests, ClassifyLocation(tests, location).value.0) == ClassifyLocation(tests, location)
  {
    var r := ClassifyLocation(tests, location).value;
    if !r.1 {
      assert HasPrefix(r.0, "https://") || HasPrefix(r.0, "http://");
    }
  }

  /** The record key of a dependency: packageName + ":" + key. */
  function DependencyKey(packageName: string, key: string): string {
    packageName + ":" + key
  }

  /** One dependency: version default, location classification, inputs, then annotations. */
  function DependencyOf(env: Env, tests: LocationTests, dependency: DependencySpec, packDir: string,
                        packageName: string, filePath: string): (r: Result<DependencyRecord>)
    ensures r.Err? <==> ClassifyLocation(tests, dependency.location).Err? || ResolveAll(env, dependency.inputs, filePath).Err?
    ensures r.Ok? ==> r.value.version == (if dependency.version == "" then BRANCH_MASTER else dependency.version)
    ensures r.Err? ==> r.error == if ClassifyLocation(tests, dependency.location).Err? then UnknownDependencyTypeError
                                   else ResolveAll(env, dependency.inputs, filePath).error
    ensures r.Ok? ==> r.value.location == ClassifyLocation(tests, dependency.location).value.0
    ensures r.Ok? ==> r.value.isBinding == tests.isBinding(dependency.location)
    ensures r.Ok? ==> r.value.packagename == packageName && r.value.projectPath == packDir
    ensures r.Ok? ==> r.value.parameters == ResolveAll(env, dependency.inputs, filePath).value
    ensures r.Ok? ==> r.value.annotations == EnvAnnotations(env, dependency.annotations)
  {
    var version := if dependency.version == "" then BRANCH_MASTER else dependency.version;
    match ClassifyLocation(tests, dependency.location)
    case Err(e) => Err(e)
    case Ok((location, isBinding)) =>
      match ResolveAll(env, dependency.inputs, filePath)
      case Err(e) => Err(e)
      case Ok(params) =>
        Ok(DependencyRecord(packDir, packageName, location, version, params,
                            EnvAnnotations(env, dependency.annotations), isBinding))
  }

  /** A classification error is reported before any input is resolved. */
  lemma LocationErrorFirst(env: Env, tests: LocationTests, dependency: DependencySpec, packDir: string,
                           packageName: string, filePath: string)
    requires !tests.isBinding(dependency.location) && !tests.isGithub(dependency.location)
    ensures DependencyOf(env, tests, dependency, packDir, packageName, filePath) == Err(UnknownDependencyTypeError)
  {
  }

  /** The record map of one package's dependencies, or the first error in declared order. */
  function DependenciesOf(env: Env, tests: LocationTests, deps: seq<(string, DependencySpec)>, packDir: string,
                          packageName: string, filePath: string): Result<map<string, DependencyRecord>>
  {
    if deps == [] then Ok(map[])
    else
      var tail := deps[1..];
      match DependencyOf(env, tests, deps[0].1, packDir, packageName, filePath)
      case Err(e) => Err(e)
      case Ok(record) =>
        match DependenciesOf(env, tests, tail, packDir, packageName, filePath)
        case Err(e) => Err(e)
        case Ok(m) => Ok(map[DependencyKey(packageName, deps[0].0) := record] + m)
  }

  /** The package's composition fails exactly when one of its dependencies does. */
  lemma {:induction false} DependenciesFailFast(env: Env, tests: LocationTests, deps: seq<(string, DependencySpec)>, packDir: string,
                                               packageName: string, filePath: string)
    ensures DependenciesOf(env, tests, deps, packDir, packageName, filePath).Err? <==>
      exists i :: 0 <= i < |deps| && DependencyOf(env, tests, deps[i].1, packDir, packageName, filePath).Err?
    ensures DependenciesOf(env, tests, deps, packDir, packageName, filePath).Err? ==>
      exists i :: (0 <= i < |deps| &&
        DependencyOf(env, tests, deps[i].1, packDir, packageName, filePath)
          == Err(DependenciesOf(env, tests, deps, packDir, packageName, filePath).error) &&
        forall j :: 0 <= j < i ==> DependencyOf(env, tests, deps[j].1, packDir, packageName, filePath).Ok?)
  {
    if deps != [] {
      var tail := deps[1..];
      DependenciesFailFast(env, tests, tail, packDir, packageName, filePath);
      assert forall i :: 0 <= i < |tail| ==> tail[i] == deps[i + 1];
      if exists i :: 0 <= i < |deps| && DependencyOf(env, tests, deps[i].1, packDir, packageName, filePath).Err? {
        var i :| 0 <= i < |deps| && DependencyOf(env, tests, deps[i].1, packDir, packageName, filePath).Err?;
        if i > 0 { assert tail[i - 1] == deps[i]; }
      }
    }
    if DependenciesOf(env, tests, deps, packDir, packageName, filePath).Err? {
      DependenciesOfError(env, tests, deps, packDir, packageName, filePath);
    }
  }

  /** A failing composition reports the error of its first failing dependency. */
  lemma {:induction false} DependenciesOfError(env: Env, tests: LocationTests, deps: seq<(string, DependencySpec)>, packDir: string,
                                               packageName: string, filePath: string)
    requires DependenciesOf(env, tests, deps, packDir, packageName, filePath).Err?
    ensures exists i :: (0 <= i < |deps| &&
      DependencyOf(env, tests, deps[i].1, packDir, packageName, filePath)
        == Err(DependenciesOf(env, tests, deps, packDir, packageName, filePath).error) &&
      forall j :: 0 <= j < i ==> DependencyOf(env, tests, deps[j].1, packDir, packageName, filePath).Ok?)
  {
    var tail := deps[1..];
    var r := DependenciesOf(env, tests, deps, packDir, packageName, filePath);
    var first := DependencyOf(env, tests, deps[0].1, packDir, packageName, filePath);
    if first.Err? {
      assert r.error == first.error;
    } else {
      var rt := DependenciesOf(env, tests, tail, packDir, packageName, filePath);
      assert rt.Err? && r.error == rt.error;
      DependenciesOfError(env, tests, tail, packDir, packageName, filePath);
      var i :| 0 <= i < |tail| && DependencyOf(env, tests, tail[i].1, packDir, packageName, filePath) == Err(rt.error) &&
               forall j :: 0 <= j < i ==> DependencyOf(env, tests, tail[j].1, packDir, packageName, filePath).Ok?;
      assert deps[i + 1] == tail[i];
      forall j | 0 <= j < i + 1 ensures DependencyOf(env, tests, deps[j].1, packDir, packageName, filePath).Ok? {
        if j > 0 { assert deps[j] == tail[j - 1]; }
      }
    }
  }

  /** Dependency keys of one package determine the dependency name. */
  lemma DependencyKeyInjective(packageName: string, a: string, b: string)
    ensures DependencyKey(packageName, a) == DependencyKey(packageName, b) ==> a == b
  {
    if DependencyKey(packageName, a) == DependencyKey(packageName, b) {
      assert DependencyKey(packageName, a)[|packageName| + 1..] == a;
      assert DependencyKey(packageName, b)[|packageName| + 1..] == b;
    }
  }

  /** The map holds exactly one key per declared dependency, "<package>:<name>". */
  lemma DependencyKeys(env: Env, tests: LocationTests, deps: seq<(string, DependencySpec)>, packDir: string,
                       packageName: string, filePath: string)
    requires DependenciesOf(env, tests, deps, packDir, packageName, filePath).Ok?
    ensures forall k :: k in DependenciesOf(env, tests, deps, packDir, packageName, filePath).value <==>
      exists i :: 0 <= i < |deps| && k == DependencyKey(packageName, deps[i].0)
  {
    KeysFromDependencies(env, tests, deps, packDir, packageName, filePath);
    KeysCoverDependencies(env, tests, deps, packDir, packageName, filePath);
  }

  lemma {:induction false} KeysFromDependencies(env: Env, tests: LocationTests, deps: seq<(string, DependencySpec)>, packDir: string,
                                               packageName: string, filePath: string)
    requires DependenciesOf(env, tests, deps, packDir, packageName, filePath).Ok?
    ensures forall k :: k in DependenciesOf(env, tests, deps, packDir, packageName, filePath).value ==>
      exists i :: 0 <= i < |deps| && k == DependencyKey(packageName, deps[i].0)
  {
    if deps != [] {
      var tail := deps[1..];
      KeysFromDependencies(env, tests, tail, packDir, packageName, filePath);
      var m := DependenciesOf(env, tests, tail, packDir, packageName, filePath).value;
      var r := DependenciesOf(env, tests, deps, packDir, packageName, filePath).value;
      assert r.Keys == {DependencyKey(packageName, deps[0].0)} + m.Keys;
      forall k | k in m ensures exists i :: 0 <= i < |deps| && k == DependencyKey(packageName, deps[i].0) {
        var i :| 0 <= i < |tail| && k == DependencyKey(packageName, tail[i].0);
        assert deps[i + 1] == tail[i];
      }
    }
  }

  lemma {:induction false} KeysCoverDependencies(env: Env, tests: LocationTests, deps: seq<(string, DependencySpec)>, packDir: string,
                                                packageName: string, filePath: string)
    requires DependenciesOf(env, tests, deps, packDir, packageName, filePath).Ok?
    ensures forall i :: 0 <= i < |deps| ==>
      DependencyKey(packageName, deps[i].0) in DependenciesOf(env, tests, deps, packDir, packageName, filePath).value
  {
    if deps != [] {
      var tail := deps[1..];
      KeysCoverDependencies(env, tests, tail, packDir, packageName, filePath);
      var m := DependenciesOf(env, tests, tail, packDir, packageName, filePath).value;
      var r := DependenciesOf(env, tests, deps, packDir, packageName, filePath).value;
      assert r.Keys == {DependencyKey(packageName, deps[0].0)} + m.Keys;
      forall i | 0 <= i < |deps| ensures DependencyKey(packageName, deps[i].0) in r {
        if i > 0 { assert tail[i - 1] == deps[i]; }
      }
    }
  }

  /** The first dependency's key is not among the keys its successors fill. */
  lemma HeadKeyFresh(env: Env, tests: LocationTests, deps: seq<(string, DependencySpec)>, packDir: string,
                     packageName: string, filePath: string)
    requires DistinctNames(deps) && deps != []
    requires DependenciesOf(env, tests, deps[1..], packDir, packageName, filePath).Ok?
    ensures DependencyKey(packageName, deps[0].0) !in DependenciesOf(env, tests, deps[1..], packDir, packageName, filePath).value
  {
    var tail := deps[1..];
    DependencyKeys(env, tests, tail, packDir, packageName, filePath);
    forall j | 0 <= j < |tail| ensures DependencyKey(packageName, deps[0].0) != DependencyKey(packageName, tail[j].0) {
      assert tail[j] == deps[j + 1];
      DependencyKeyInjective(packageName, deps[0].0, tail[j].0);
    }
  }

  /** With distinct dependency names, each record sits under its own key. */
  lemma {:induction false} DependencyRecordAt(env: Env, tests: LocationTests, deps: seq<(string, DependencySpec)>, packDir: string,
                                             packageName: string, filePath: string, i: nat)
    requires DistinctNames(deps) && i < |deps|
    requires DependenciesOf(env, tests, deps, packDir, packageName, filePath).Ok?
    ensures DependencyOf(env, tests, deps[i].1, packDir, packageName, filePath).Ok?
    ensures DependencyKey(packageName, deps[i].0) in DependenciesOf(env, tests, deps, packDir, packageName, filePath).value
    ensures DependenciesOf(env, tests, deps, packDir, packageName, filePath).value[DependencyKey(packageName, deps[i].0)]
         == DependencyOf(env, tests, deps[i].1, packDir, packageName, filePath).value
  {
    DependenciesCons(env, tests, deps, packDir, packageName, filePath);
    var r := DependenciesOf(env, tests, deps, packDir, packageName, filePath).value;
    var rest := DependenciesOf(env, tests, deps[1..], packDir, packageName, filePath).value;
    if i == 0 {
      HeadKeyFresh(env, tests, deps, packDir, packageName, filePath);
    } else {
      DistinctRest(deps);
      assert deps[1..][i - 1] == deps[i];
      DependencyRecordAt(env, tests, deps[1..], packDir, packageName, filePath, i - 1);
      assert DependencyKey(packageName, deps[i].0) in rest;
    }
  }

  /** A successful composition of a non-empty list is its head's record under the head's key, over the rest's. */
  lemma DependenciesCons(env: Env, tests: LocationTests, deps: seq<(string, DependencySpec)>, packDir: string,
                         packageName: string, filePath: string)
    requires deps != []
    requires DependenciesOf(env, tests, deps, packDir, packageName, filePath).Ok?
    ensures DependencyOf(env, tests, deps[0].1, packDir, packageName, filePath).Ok?
    ensures DependenciesOf(env, tests, deps[1..], packDir, packageName, filePath).Ok?
    ensures DependenciesOf(env, tests, deps, packDir, packageName, filePath).value
         == map[DependencyKey(packageName, deps[0].0) := DependencyOf(env, tests, deps[0].1, packDir, packageName, filePath).value]
            + DependenciesOf(env, tests, deps[1..], packDir, packageName, filePath).value
  {
  }

  /** DependenciesOf(deps) with the records of `acc` added under the keys the loop has already filled. */
  function MergedInto(acc: map<string, DependencyRecord>, r: Result<map<string, DependencyRecord>>): Result<map<string, DependencyRecord>> {
    if r.Ok? then Ok(acc + r.value) else r
  }

  lemma MergedIntoEmpty(r: Result<map<string, DependencyRecord>>)
    ensures MergedInto(map[], r) == r
  {
    if r.Ok? { assert map[] + r.value == r.value; }
  }

  /** The per-dependency body of the ComposeDependencies loop. */
  method ComposeDependency(env: Env, tests: LocationTests, dependency: DependencySpec, packDir: string,
                           packageName: string, filePath: string) returns (r: Result<DependencyRecord>)
    ensures r == DependencyOf(env, tests, dependency, packDir, packageName, filePath)
  {
    var version := dependency.version;
    if version == "" {
      version := BRANCH_MASTER;
    }
    var location := dependency.location;
    var isBinding := false;
    if tests.isBinding(location) {
      if !HasPrefix(location, "/") {
        location := "/" + dependency.location;
      }
      isBinding := true;
    } else if tests.isGithub(location) {
      if !HasPrefix(location, "https://") && !HasPrefix(location, "http://") {
        location := "https://" + dependency.location;
      }
      isBinding := false;
    } else {
      return Err(UnknownDependencyTypeError);
    }
    var params := CollectParameters(env, dependency.inputs, filePath);
    if params.Err? {
      return Err(params.error);
    }
    var annotations := CollectAnnotations(env, dependency.annotations);
    r := Ok(DependencyRecord(packDir, packageName, location, version, params.value, annotations, isBinding));
  }

  /** One turn of the ComposeDependencies loop, on the specification side. */
  lemma DependenciesStep(env: Env, tests: LocationTests, deps: seq<(string, DependencySpec)>, i: nat, packDir: string,
                         packageName: string, filePath: string, acc: map<string, DependencyRecord>)
    requires i < |deps|
    ensures var d := DependencyOf(env, tests, deps[i].1, packDir, packageName, filePath);
      MergedInto(acc, DependenciesOf(env, tests, deps[i..], packDir, packageName, filePath)) ==
        if d.Err? then Err(d.error)
        else MergedInto(acc[DependencyKey(packageName, deps[i].0) := d.value],
                        DependenciesOf(env, tests, deps[i + 1..], packDir, packageName, filePath))
  {
    var rest := deps[i..];
    assert rest[0] == deps[i] && rest[1..] == deps[i + 1..];
    var d := DependencyOf(env, tests, deps[i].1, packDir, packageName, filePath);
    var tail := DependenciesOf(env, tests, deps[i + 1..], packDir, packageName, filePath);
    var key := DependencyKey(packageName, deps[i].0);
    if d.Ok? && tail.Ok? {
      assert acc + (map[key := d.value] + tail.value) == acc[key := d.value] + tail.value;
    }
  }

  /** ComposeDependencies: the loop over a package's dependencies, filling the record map by key. */
  method ComposeDependencies(env: Env, tests: LocationTests, pkg: PackageSpec, projectPath: string, filePath: string,
                             packageName: string) returns (r: Result<map<string, DependencyRecord>>)
    ensures r == DependenciesOf(env, tests, pkg.dependencies, PathJoin(projectPath, "Packages"), packageName, filePath)
  {
    var deps := pkg.dependencies;
    var packDir := PathJoin(projectPath, "Packages");
    var depMap: map<string, DependencyRecord> := map[];
    var i := 0;
    assert deps[i..] == deps;
    MergedIntoEmpty(DependenciesOf(env, tests, deps, packDir, packageName, filePath));
    while i < |deps|
      invariant 0 <= i <= |deps|
      invariant DependenciesOf(env, tests, deps, packDir, packageName, filePath)
             == MergedInto(depMap, DependenciesOf(env, tests, deps[i..], packDir, packageName, filePath))
    {
      DependenciesStep(env, tests, deps, i, packDir, packageName, filePath, depMap);
      var record := ComposeDependency(env, tests, deps[i].1, packDir, packageName, filePath);
      if record.Err? {
        return Err(record.error);
      }
      depMap := depMap[DependencyKey(packageName, deps[i].0) := record.value];
      i := i + 1;
    }
    assert deps[i..] == [];
    assert depMap + map[] == depMap;
    r := Ok(depMap);
  }

  /** The dependencies of all packages, later packages overwriting equal keys, or the first error. */
  function AllDependenciesOf(env: Env, tests: LocationTests, packages: seq<(string, PackageSpec)>,
                             projectPath: string, filePath: string): Result<map<string, DependencyRecord>>
  {
    if packages == [] then Ok(map[])
    else
      var tail := packages[1..];
      match PackageDependencies(env, tests, packages[0], projectPath, filePath)
      case Err(e) => Err(e)
      case Ok(d) =>
        match AllDependenciesOf(env, tests, tail, projectPath, filePath)
        case Err(e) => Err(e)
        case Ok(m) => Ok(d + m)
  }

  /** The dependencies of one selected package, as the aggregate composes them. */
  function PackageDependencies(env: Env, tests: LocationTests, pkg: (string, PackageSpec), projectPath: string,
                               filePath: string): Result<map<string, DependencyRecord>>
  {
    DependenciesOf(env, tests, pkg.1.dependencies, PathJoin(projectPath, "Packages"), pkg.0, filePath)
  }

  /**
    The aggregate fails exactly when some package's dependencies fail, and
    then with the error of the first such package, every package before it
    composing without error.
   */
  lemma {:induction false} AllDependenciesFailFast(env: Env, tests: LocationTests, packages: seq<(string, PackageSpec)>,
                                                   projectPath: string, filePath: string)
    ensures AllDependenciesOf(env, tests, packages, projectPath, filePath).Err? <==>
      exists i :: 0 <= i < |packages| && PackageDependencies(env, tests, packages[i], projectPath, filePath).Err?
    ensures AllDependenciesOf(env, tests, packages, projectPath, filePath).Err? ==>
      exists i :: (0 <= i < |packages| &&
        (forall j :: 0 <= j < i ==> PackageDependencies(env, tests, packages[j], projectPath, filePath).Ok?) &&
        PackageDependencies(env, tests, packages[i], projectPath, filePath)
          == Err(AllDependenciesOf(env, tests, packages, projectPath, filePath).error))
    decreases |packages|
  {
    if packages != [] {
      var tail := packages[1..];
      var r := AllDependenciesOf(env, tests, packages, projectPath, filePath);
      AllDependenciesFailFast(env, tests, tail, projectPath, filePath);
      if PackageDependencies(env, tests, packages[0], projectPath, filePath).Err? {
        assert r.Err?;
      } else {
        assert r.Err? <==> AllDependenciesOf(env, tests, tail, projectPath, filePath).Err?;
        if exists i :: 0 <= i < |packages| && PackageDependencies(env, tests, packages[i], projectPath, filePath).Err? {
          var i :| 0 <= i < |packages| && PackageDependencies(env, tests, packages[i], projectPath, filePath).Err?;
          assert tail[i - 1] == packages[i];
        }
        if r.Err? {
          var i :| 0 <= i < |tail| &&
            (forall j :: 0 <= j < i ==> PackageDependencies(env, tests, tail[j], projectPath, filePath).Ok?) &&
            PackageDependencies(env, tests, tail[i], projectPath, filePath) == Err(r.error);
          assert tail[i] == packages[i + 1];
          forall j | 0 <= j < i + 1
            ensures PackageDependencies(env, tests, packages[j], projectPath, filePath).Ok?
          {
            if j > 0 {
              assert tail[j - 1] == packages[j];
            }
          }
        }
      }
    }
  }

  /** The packages' dependency maps, in package order (a failing package contributing none). */
  function DependencyMaps(env: Env, tests: LocationTests, packages: seq<(string, PackageSpec)>, projectPath: string,
                          filePath: string): seq<map<string, DependencyRecord>>
  {
    seq(|packages|, i requires 0 <= i < |packages| =>
      match PackageDependencies(env, tests, packages[i], projectPath, filePath)
      case Ok(m) => m
      case Err(_) => map[])
  }

  /** A successful aggregate is the union of the packages' dependency maps, later packages winning. */
  lemma {:induction false} AllDependenciesAreUnion(env: Env, tests: LocationTests, packages: seq<(string, PackageSpec)>,
                                                   projectPath: string, filePath: string)
    requires AllDependenciesOf(env, tests, packages, projectPath, filePath).Ok?
    ensures AllDependenciesOf(env, tests, packages, projectPath, filePath).value
         == UnionOf(DependencyMaps(env, tests, packages, projectPath, filePath))
    decreases |packages|
  {
    if packages != [] {
      var tail := packages[1..];
      var ms := DependencyMaps(env, tests, packages, projectPath, filePath);
      assert ms[1..] == DependencyMaps(env, tests, tail, projectPath, filePath) by {
        forall i | 0 <= i < |tail| ensures tail[i] == packages[i + 1] { }
      }
      AllDependenciesAreUnion(env, tests, tail, projectPath, filePath);
    }
  }

  /** A successful aggregate holds exactly the keys some package's dependency map holds. */
  lemma AllDependenciesDomain(env: Env, tests: LocationTests, packages: seq<(string, PackageSpec)>,
                              projectPath: string, filePath: string)
    requires AllDependenciesOf(env, tests, packages, projectPath, filePath).Ok?
    ensures var m := AllDependenciesOf(env, tests, packages, projectPath, filePath).value;
      forall k :: k in m <==> exists i :: (0 <= i < |packages| &&
        PackageDependencies(env, tests, packages[i], projectPath, filePath).Ok? &&
        k in PackageDependencies(env, tests, packages[i], projectPath, filePath).value)
  {
    var ms := DependencyMaps(env, tests, packages, projectPath, filePath);
    AllDependenciesAreUnion(env, tests, packages, projectPath, filePath);
    AllDependenciesEachOk(env, tests, packages, projectPath, filePath);
    UnionOfDomain(ms);
  }

  /** In a successful aggregate every package's dependencies compose. */
  lemma AllDependenciesEachOk(env: Env, tests: LocationTests, packages: seq<(string, PackageSpec)>,
                              projectPath: string, filePath: string)
    requires AllDependenciesOf(env, tests, packages, projectPath, filePath).Ok?
    ensures forall i :: 0 <= i < |packages| ==> PackageDependencies(env, tests, packages[i], projectPath, filePath).Ok?
  {
    AllDependenciesFailFast(env, tests, packages, projectPath, filePath);
  }

  /**
    In a successful aggregate, a key holds the record of the last package
    that declares it.
   */
  lemma AllDependenciesUnion(env: Env, tests: LocationTests, packages: seq<(string, PackageSpec)>,
                             projectPath: string, filePath: string, i: nat, k: string)
    requires AllDependenciesOf(env, tests, packages, projectPath, filePath).Ok?
    requires i < |packages| && PackageDependencies(env, tests, packages[i], projectPath, filePath).Ok?
    requires k in PackageDependencies(env, tests, packages[i], projectPath, filePath).value
    requires LastDeclaring(env, tests, packages, projectPath, filePath, i, k)
    ensures var m := AllDependenciesOf(env, tests, packages, projectPath, filePath).value;
      k in m && m[k] == PackageDependencies(env, tests, packages[i], projectPath, filePath).value[k]
  {
    var ms := DependencyMaps(env, tests, packages, projectPath, filePath);
    AllDependenciesAreUnion(env, tests, packages, projectPath, filePath);
    forall j | i < j < |ms|
      ensures k !in ms[j]
    {
    }
    UnionOfLast(ms, i, k);
  }

  /** No package after package i declares key k. */
  predicate LastDeclaring(env: Env, tests: LocationTests, packages: seq<(string, PackageSpec)>, projectPath: string,
                          filePath: string, i: nat, k: string)
  {
    forall j :: i < j < |packages| && PackageDependencies(env, tests, packages[j], projectPath, filePath).Ok? ==>
      k !in PackageDependencies(env, tests, packages[j], projectPath, filePath).value
  }

  /** One turn of the ComposeDependenciesFromAllPackages loop: it fails with the package's error or merges its records. */
  lemma AllDependenciesStep(env: Env, tests: LocationTests, packages: seq<(string, PackageSpec)>, i: nat,
                            projectPath: string, filePath: string, acc: map<string, DependencyRecord>,
                            d: Result<map<string, DependencyRecord>>)
    requires i < |packages|
    requires AllDependenciesOf(env, tests, packages, projectPath, filePath)
          == MergedInto(acc, AllDependenciesOf(env, tests, packages[i..], projectPath, filePath))
    requires d == DependenciesOf(env, tests, packages[i].1.dependencies, PathJoin(projectPath, "Packages"), packages[i].0, filePath)
    ensures d.Err? ==> AllDependenciesOf(env, tests, packages, projectPath, filePath) == Err(d.error)
    ensures d.Ok? ==>
      AllDependenciesOf(env, tests, packages, projectPath, filePath)
        == MergedInto(acc + d.value, AllDependenciesOf(env, tests, packages[i + 1..], projectPath, filePath))
  {
    var rest := packages[i..];
    assert rest[0] == packages[i] && rest[1..] == packages[i + 1..];
    var tail := AllDependenciesOf(env, tests, packages[i + 1..], projectPath, filePath);
    var here := AllDependenciesOf(env, tests, rest, projectPath, filePath);
    if d.Err? {
      assert here == Err(d.error);
    } else if tail.Err? {
      assert here == Err(tail.error);
    } else {
      assert here == Ok(d.value + tail.value);
      MapUnionAssoc(acc, d.value, tail.value);
    }
  }

  /** What is left once every package is merged. */
  lemma AllDependenciesDone(env: Env, tests: LocationTests, packages: seq<(string, PackageSpec)>,
                            projectPath: string, filePath: string, acc: map<string, DependencyRecord>)
    requires AllDependenciesOf(env, tests, packages, projectPath, filePath)
          == MergedInto(acc, AllDependenciesOf(env, tests, packages[|packages|..], projectPath, filePath))
    ensures AllDependenciesOf(env, tests, packages, projectPath, filePath) == Ok(acc)
  {
    assert packages[|packages|..] == [];
    assert acc + map[] == acc;
  }

  /** ComposeDependenciesFromAllPackages: the selected packages in turn, failing fast. */
  method ComposeDependenciesFromAllPackages(env: Env, tests: LocationTests, manifest: Yaml, projectPath: string,
                                            filePath: string) returns (r: Result<map<string, DependencyRecord>>)
    ensures r == AllDependenciesOf(env, tests, ManifestPackages(manifest), projectPath, filePath)
  {
    if manifest.package.packagename != "" {
      r := ComposeDependencies(env, tests, manifest.package, projectPath, filePath, manifest.package.packagename);
      if r.Ok? {
        assert r.value + map[] == r.value;
      }
      return;
    }
    var packages := if Len(manifest.packages) != 0 then manifest.packages.value
                    else if manifest.project.packages.Some? then manifest.project.packages.value
                    else [];
    var dependencies: map<string, DependencyRecord> := map[];
    var i := 0;
    assert packages[i..] == packages;
    MergedIntoEmpty(AllDependenciesOf(env, tests, packages, projectPath, filePath));
    while i < |packages|
      invariant 0 <= i <= |packages|
      invariant AllDependenciesOf(env, tests, packages, projectPath, filePath)
             == MergedInto(dependencies, AllDependenciesOf(env, tests, packages[i..], projectPath, filePath))
    {
      var d := ComposeDependencies(env, tests, packages[i].1, projectPath, filePath, packages[i].0);
      AllDependenciesStep(env, tests, packages, i, projectPath, filePath, dependencies, d);
      if d.Err? {
        return Err(d.error);
      }
      dependencies := dependencies + d.value;
      i := i + 1;
    }
    AllDependenciesDone(env, tests, packages, projectPath, filePath, dependencies);
    r := Ok(dependencies);
  }
}
