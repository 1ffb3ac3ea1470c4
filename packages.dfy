/**
  ComposePackage and ComposeAllPackages (parsers/manifest_parser.go): a
  declared package becomes a whisk.Package with its resolved inputs and
  environment-substituted annotations, plus the managed annotation on a
  managed deployment. A missing version or license is filled in on the
  composer's local copy of the declaration only, so its sole lasting effect
  is the pair of warnings.
 */
module Packages {
  import opened Whisk
  import opened Manifest
  import opened Externals
  import opened Inputs

  const PACKAGE_VERSION := "version"
  const PACKAGE_LICENSE := "license"
  const DEFAULT_PACKAGE_VERSION := "0.0.1"
  const DEFAULT_PACKAGE_LICENSE := "unlicensed"

  /**
    The warnings ComposePackage prints, in order. The second warning about a
    missing license names the version key, as the composer is written.
   */
  function PackageWarnings(pkg: PackageSpec): seq<Warning> {
    (if pkg.version == "" then [MissingMandatoryKey(PACKAGE_VERSION, DEFAULT_PACKAGE_VERSION), KeyValueNotSaved(PACKAGE_VERSION)] else []) +
    (if pkg.license == "" then [MissingMandatoryKey(PACKAGE_LICENSE, DEFAULT_PACKAGE_LICENSE), KeyValueNotSaved(PACKAGE_VERSION)] else [])
  }

  /** The annotations of a composed entity: the declared ones through GetEnvVar, then `ma` on a managed deployment. */
  function ManagedAnnotations(env: Env, flags: Flags, annotations: seq<(string, Value)>, ma: KeyValue): seq<KeyValue> {
    EnvAnnotations(env, annotations) + (if flags.managed then [ma] else [])
  }

  /** The package ComposePackage builds, or the first input that fails to resolve. */
  function PackageOf(env: Env, flags: Flags, pkg: PackageSpec, packageName: string, filePath: string, ma: KeyValue): Result<Package> {
    match ResolveAll(env, pkg.inputs, filePath)
    case Err(e) => Err(e)
    case Ok(params) => Ok(Package(packageName, pkg.namespace, false, params, ManagedAnnotations(env, flags, pkg.annotations, ma)))
  }

  /** ComposePackage: warnings for the mandatory keys, the input loop, the annotation loop, then the managed annotation. */
  method ComposePackage(env: Env, flags: Flags, pkg: PackageSpec, packageName: string, filePath: string, ma: KeyValue)
    returns (r: Result<Package>, warnings: seq<Warning>)
    ensures r == PackageOf(env, flags, pkg, packageName, filePath, ma)
    ensures warnings == PackageWarnings(pkg)
  {
    var local := pkg;
    warnings := [];
    if local.version == "" {
      warnings := warnings + [MissingMandatoryKey(PACKAGE_VERSION, DEFAULT_PACKAGE_VERSION), KeyValueNotSaved(PACKAGE_VERSION)];
      local := local.(version := DEFAULT_PACKAGE_VERSION);
    }
    if local.license == "" {
      warnings := warnings + [MissingMandatoryKey(PACKAGE_LICENSE, DEFAULT_PACKAGE_LICENSE), KeyValueNotSaved(PACKAGE_VERSION)];
      local := local.(license := DEFAULT_PACKAGE_LICENSE);
    }
    var params := CollectParameters(env, local.inputs, filePath);
    if params.Err? {
      return Err(params.error), warnings;
    }
    var annotations := CollectAnnotations(env, local.annotations);
    if flags.managed {
      annotations := annotations + [ma];
    }
    assert annotations == ManagedAnnotations(env, flags, pkg.annotations, ma);
    r := Ok(Package(packageName, local.namespace, false, params.value, annotations));
  }

  /**
    A composed package is named by its key, keeps the declared namespace and
    is never published; it fails exactly when one of its inputs fails to
    resolve, and then with the first such error.
   */
  lemma PackageShape(env: Env, flags: Flags, pkg: PackageSpec, packageName: string, filePath: string, ma: KeyValue)
    ensures var r := PackageOf(env, flags, pkg, packageName, filePath, ma);
      (r.Err? <==> exists i :: 0 <= i < |pkg.inputs| && ResolveOne(env, pkg.inputs[i], filePath).Err?) &&
      (r.Err? ==> exists i :: 0 <= i < |pkg.inputs| && ResolveOne(env, pkg.inputs[i], filePath) == Err(r.error) &&
                              forall j :: 0 <= j < i ==> ResolveOne(env, pkg.inputs[j], filePath).Ok?) &&
      (r.Ok? ==> r.value.name == packageName && r.value.namespace == pkg.namespace && !r.value.publish)
  {
    ResolveAllMeaning(env, pkg.inputs, filePath);
  }

  /** The parameters are exactly the inputs that resolve to a non-nil value, under their own names. */
  lemma PackageParameters(env: Env, flags: Flags, pkg: PackageSpec, packageName: string, filePath: string, ma: KeyValue)
    requires PackageOf(env, flags, pkg, packageName, filePath, ma).Ok?
    ensures var p := PackageOf(env, flags, pkg, packageName, filePath, ma).value;
      forall kv :: kv in p.parameters <==>
        exists i :: 0 <= i < |pkg.inputs| && pkg.inputs[i].0 == kv.key && ResolveOne(env, pkg.inputs[i], filePath) == Ok(Some(kv.value))
  {
    ResolveAllMeaning(env, pkg.inputs, filePath);
  }

  /**
    The declared annotations come first, in order and substituted; the
    managed annotation is appended, as the last entry, exactly on a managed
    deployment.
   */
  lemma {:induction false} ManagedAnnotationsShape(env: Env, flags: Flags, annotations: seq<(string, Value)>, ma: KeyValue)
    ensures var a := ManagedAnnotations(env, flags, annotations, ma);
      |a| == |annotations| + (if flags.managed then 1 else 0) &&
      (forall i :: 0 <= i < |annotations| ==> a[i] == KeyValue(annotations[i].0, env.getEnvVar(annotations[i].1))) &&
      (flags.managed ==> a[|a| - 1] == ma)
  {
    var e := EnvAnnotations(env, annotations);
    var a := ManagedAnnotations(env, flags, annotations, ma);
    forall i | 0 <= i < |annotations| ensures a[i] == KeyValue(annotations[i].0, env.getEnvVar(annotations[i].1)) {
      assert a[i] == e[i];
      EnvAnnotationsAt(env, annotations, i);
    }
  }

  /** The version and the license of the declaration never reach the composed package. */
  lemma VersionAndLicenseNotStored(env: Env, flags: Flags, pkg: PackageSpec, packageName: string, filePath: string, ma: KeyValue,
                                   version: string, license: string)
    ensures PackageOf(env, flags, pkg.(version := version, license := license), packageName, filePath, ma)
         == PackageOf(env, flags, pkg, packageName, filePath, ma)
  {
  }

  /** Each mandatory key that is missing gives exactly two warnings, the first naming the key and its default. */
  lemma PackageWarningsShape(pkg: PackageSpec)
    ensures |PackageWarnings(pkg)| == (if pkg.version == "" then 2 else 0) + (if pkg.license == "" then 2 else 0)
    ensures MissingMandatoryKey(PACKAGE_VERSION, DEFAULT_PACKAGE_VERSION) in PackageWarnings(pkg) <==> pkg.version == ""
    ensures MissingMandatoryKey(PACKAGE_LICENSE, DEFAULT_PACKAGE_LICENSE) in PackageWarnings(pkg) <==> pkg.license == ""
  {
  }

  /** The packages map of ComposeAllPackages over `packages`, later keys overwriting earlier ones, or the first error. */
  function AllPackagesOf(env: Env, flags: Flags, packages: seq<(string, PackageSpec)>, filePath: string, ma: KeyValue)
    : Result<map<string, Package>>
  {
    if packages == [] then Ok(map[])
    else
      match PackageOf(env, flags, packages[0].1, packages[0].0, filePath, ma)
      case Err(e) => Err(e)
      case Ok(p) =>
        match AllPackagesOf(env, flags, packages[1..], filePath, ma)
        case Err(e) => Err(e)
        case Ok(m) => Ok(map[packages[0].0 := p] + m)
  }

  /**
    Composing the selected packages fails exactly when one of them fails,
    and then with the error of the first such package, every package before
    it composing without error.
   */
  lemma {:induction false} AllPackagesFailFast(env: Env, flags: Flags, packages: seq<(string, PackageSpec)>, filePath: string, ma: KeyValue)
    ensures AllPackagesOf(env, flags, packages, filePath, ma).Err? <==>
      exists i :: 0 <= i < |packages| && PackageOf(env, flags, packages[i].1, packages[i].0, filePath, ma).Err?
    ensures AllPackagesOf(env, flags, packages, filePath, ma).Err? ==>
      exists i :: (0 <= i < |packages| &&
        (forall j :: 0 <= j < i ==> PackageOf(env, flags, packages[j].1, packages[j].0, filePath, ma).Ok?) &&
        PackageOf(env, flags, packages[i].1, packages[i].0, filePath, ma) == Err(AllPackagesOf(env, flags, packages, filePath, ma).error))
    decreases |packages|
  {
    if packages != [] {
      var tail := packages[1..];
      var r := AllPackagesOf(env, flags, packages, filePath, ma);
      AllPackagesFailFast(env, flags, tail, filePath, ma);
      if PackageOf(env, flags, packages[0].1, packages[0].0, filePath, ma).Ok? {
        if exists i :: 0 <= i < |packages| && PackageOf(env, flags, packages[i].1, packages[i].0, filePath, ma).Err? {
          var i :| 0 <= i < |packages| && PackageOf(env, flags, packages[i].1, packages[i].0, filePath, ma).Err?;
          assert tail[i - 1] == packages[i];
        }
        if r.Err? {
          var i :| 0 <= i < |tail| &&
            (forall j :: 0 <= j < i ==> PackageOf(env, flags, tail[j].1, tail[j].0, filePath, ma).Ok?) &&
            PackageOf(env, flags, tail[i].1, tail[i].0, filePath, ma) == Err(r.error);
          assert tail[i] == packages[i + 1];
          forall j | 0 <= j < i + 1
            ensures PackageOf(env, flags, packages[j].1, packages[j].0, filePath, ma).Ok?
          {
            if j > 0 {
              assert tail[j - 1] == packages[j];
            }
          }
        }
      }
    }
  }

  /** The warnings of every package composed, up to and including the first that fails. */
  function AllPackagesWarnings(env: Env, flags: Flags, packages: seq<(string, PackageSpec)>, filePath: string, ma: KeyValue)
    : seq<Warning>
  {
    if packages == [] then []
    else
      PackageWarnings(packages[0].1) +
      if PackageOf(env, flags, packages[0].1, packages[0].0, filePath, ma).Err? then []
      else AllPackagesWarnings(env, flags, packages[1..], filePath, ma)
  }

  /** The packages of a successful composition are keyed by exactly the declared names, each holding its own package. */
  lemma AllPackagesKeys(env: Env, flags: Flags, packages: seq<(string, PackageSpec)>, filePath: string, ma: KeyValue)
    requires DistinctNames(packages)
    requires AllPackagesOf(env, flags, packages, filePath, ma).Ok?
    ensures var m := AllPackagesOf(env, flags, packages, filePath, ma).value;
      (forall n :: n in m <==> exists i :: 0 <= i < |packages| && packages[i].0 == n) &&
      (forall i :: 0 <= i < |packages| ==>
         (packages[i].0 in m && PackageOf(env, flags, packages[i].1, packages[i].0, filePath, ma) == Ok(m[packages[i].0])))
  {
    AllPackagesDomain(env, flags, packages, filePath, ma);
    forall i | 0 <= i < |packages|
      ensures var m := AllPackagesOf(env, flags, packages, filePath, ma).value;
        packages[i].0 in m && PackageOf(env, flags, packages[i].1, packages[i].0, filePath, ma) == Ok(m[packages[i].0])
    {
      AllPackagesAt(env, flags, packages, filePath, ma, i);
    }
  }

  lemma {:induction false} AllPackagesDomain(env: Env, flags: Flags, packages: seq<(string, PackageSpec)>, filePath: string, ma: KeyValue)
    requires AllPackagesOf(env, flags, packages, filePath, ma).Ok?
    ensures var m := AllPackagesOf(env, flags, packages, filePath, ma).value;
      forall n :: n in m <==> exists i :: 0 <= i < |packages| && packages[i].0 == n
  {
    if packages != [] {
      var tail := packages[1..];
      AllPackagesDomain(env, flags, tail, filePath, ma);
      var mt := AllPackagesOf(env, flags, tail, filePath, ma).value;
      var m := AllPackagesOf(env, flags, packages, filePath, ma).value;
      assert m.Keys == {packages[0].0} + mt.Keys;
      forall n | n in m ensures exists i :: 0 <= i < |packages| && packages[i].0 == n {
        if n != packages[0].0 {
          var i :| 0 <= i < |tail| && tail[i].0 == n;
          assert packages[i + 1] == tail[i];
        }
      }
      forall i | 0 <= i < |packages| ensures packages[i].0 in m {
        if i > 0 {
          assert packages[i] == tail[i - 1];
        }
      }
    }
  }

  lemma {:induction false} AllPackagesAt(env: Env, flags: Flags, packages: seq<(string, PackageSpec)>, filePath: string, ma: KeyValue,
                                        i: nat)
    requires DistinctNames(packages) && i < |packages|
    requires AllPackagesOf(env, flags, packages, filePath, ma).Ok?
    ensures var m := AllPackagesOf(env, flags, packages, filePath, ma).value;
      packages[i].0 in m && PackageOf(env, flags, packages[i].1, packages[i].0, filePath, ma) == Ok(m[packages[i].0])
  {
    var tail := packages[1..];
    DistinctTail(packages);
    var mt := AllPackagesOf(env, flags, tail, filePath, ma).value;
    var m := AllPackagesOf(env, flags, packages, filePath, ma).value;
    var p := PackageOf(env, flags, packages[0].1, packages[0].0, filePath, ma).value;
    assert m == map[packages[0].0 := p] + mt;
    if i == 0 {
      AllPackagesDomain(env, flags, tail, filePath, ma);
      assert packages[0].0 !in mt;
    } else {
      assert packages[i] == tail[i - 1];
      AllPackagesAt(env, flags, tail, filePath, ma, i - 1);
    }
  }

  /** AllPackagesOf with the packages of `acc` added, as the composition loop accumulates them. */
  function PackagesMergedInto(acc: map<string, Package>, r: Result<map<string, Package>>): Result<map<string, Package>> {
    if r.Ok? then Ok(acc + r.value) else r
  }

  lemma PackagesMergedIntoEmpty(r: Result<map<string, Package>>)
    ensures PackagesMergedInto(map[], r) == r
  {
    if r.Ok? { assert map[] + r.value == r.value; }
  }

  /** The composition of packages i.. is package i's error, or its package over the rest. */
  lemma AllPackagesStep(env: Env, flags: Flags, packages: seq<(string, PackageSpec)>, i: nat, filePath: string, ma: KeyValue,
                        acc: map<string, Package>, s: Result<Package>)
    requires i < |packages|
    requires s == PackageOf(env, flags, packages[i].1, packages[i].0, filePath, ma)
    ensures s.Err? ==> PackagesMergedInto(acc, AllPackagesOf(env, flags, packages[i..], filePath, ma)) == Err(s.error)
    ensures s.Ok? ==>
      PackagesMergedInto(acc, AllPackagesOf(env, flags, packages[i..], filePath, ma))
        == PackagesMergedInto(acc[packages[i].0 := s.value], AllPackagesOf(env, flags, packages[i + 1..], filePath, ma))
  {
    var rest := packages[i..];
    assert rest[0] == packages[i] && rest[1..] == packages[i + 1..];
    var here := AllPackagesOf(env, flags, rest, filePath, ma);
    var tail := AllPackagesOf(env, flags, packages[i + 1..], filePath, ma);
    if s.Err? {
      assert here == Err(s.error);
    } else if tail.Err? {
      assert here == Err(tail.error);
    } else {
      assert here == Ok(map[packages[i].0 := s.value] + tail.value);
      assert acc + (map[packages[i].0 := s.value] + tail.value) == acc[packages[i].0 := s.value] + tail.value;
    }
  }

  /** The warnings of packages i.. are package i's, then, unless it fails, those of the rest. */
  lemma AllWarningsStep(env: Env, flags: Flags, packages: seq<(string, PackageSpec)>, i: nat, filePath: string, ma: KeyValue,
                        s: Result<Package>)
    requires i < |packages|
    requires s == PackageOf(env, flags, packages[i].1, packages[i].0, filePath, ma)
    ensures AllPackagesWarnings(env, flags, packages[i..], filePath, ma) ==
      PackageWarnings(packages[i].1) + (if s.Err? then [] else AllPackagesWarnings(env, flags, packages[i + 1..], filePath, ma))
  {
    var rest := packages[i..];
    assert rest[0] == packages[i] && rest[1..] == packages[i + 1..];
  }

  /** The loop invariants carried over one composed package: it fails with the warnings so far, or goes on. */
  lemma AllPackagesNext(env: Env, flags: Flags, packages: seq<(string, PackageSpec)>, i: nat, filePath: string, ma: KeyValue,
                        acc: map<string, Package>, warnings: seq<Warning>, s: Result<Package>, w: seq<Warning>)
    requires i < |packages|
    requires AllPackagesOf(env, flags, packages, filePath, ma)
          == PackagesMergedInto(acc, AllPackagesOf(env, flags, packages[i..], filePath, ma))
    requires AllPackagesWarnings(env, flags, packages, filePath, ma)
          == warnings + AllPackagesWarnings(env, flags, packages[i..], filePath, ma)
    requires s == PackageOf(env, flags, packages[i].1, packages[i].0, filePath, ma) && w == PackageWarnings(packages[i].1)
    ensures s.Err? ==> AllPackagesOf(env, flags, packages, filePath, ma) == Err(s.error) &&
                       AllPackagesWarnings(env, flags, packages, filePath, ma) == warnings + w
    ensures s.Ok? ==>
      AllPackagesOf(env, flags, packages, filePath, ma)
        == PackagesMergedInto(acc[packages[i].0 := s.value], AllPackagesOf(env, flags, packages[i + 1..], filePath, ma)) &&
      AllPackagesWarnings(env, flags, packages, filePath, ma)
        == (warnings + w) + AllPackagesWarnings(env, flags, packages[i + 1..], filePath, ma)
  {
    AllPackagesStep(env, flags, packages, i, filePath, ma, acc, s);
    AllWarningsStep(env, flags, packages, i, filePath, ma, s);
    var later := AllPackagesWarnings(env, flags, packages[i + 1..], filePath, ma);
    if s.Err? {
      assert w + [] == w;
    } else {
      assert warnings + (w + later) == (warnings + w) + later;
    }
  }

  /**
    ComposeAllPackages: the packages the manifest selects, composed in turn.
    A named single package also gives the deprecation warning first.
   */
  method ComposeAllPackages(env: Env, flags: Flags, manifest: Yaml, filePath: string, ma: KeyValue)
    returns (r: Result<map<string, Package>>, warnings: seq<Warning>)
    ensures r == AllPackagesOf(env, flags, ManifestPackages(manifest), filePath, ma)
    ensures warnings == (if manifest.package.packagename != "" then [DeprecatedPackageKey] else []) +
                        AllPackagesWarnings(env, flags, ManifestPackages(manifest), filePath, ma)
  {
    var packages: map<string, Package> := map[];
    if manifest.package.packagename != "" {
      // the loop below then runs over an empty map
      var s, w := ComposePackage(env, flags, manifest.package, manifest.package.packagename, filePath, ma);
      warnings := [DeprecatedPackageKey] + w;
      if s.Err? {
        return Err(s.error), warnings;
      }
      packages := packages[manifest.package.packagename := s.value];
      assert packages == map[manifest.package.packagename := s.value] + map[];
      assert warnings == [DeprecatedPackageKey] + (w + []);
      return Ok(packages), warnings;
    }
    var manifestPackages: seq<(string, PackageSpec)> := [];
    if Len(manifest.packages) != 0 {
      manifestPackages := manifest.packages.value;
    } else if manifest.project.packages.Some? {
      manifestPackages := manifest.project.packages.value;
    }
    r, warnings := ComposePackageList(env, flags, manifestPackages, filePath, ma);
  }

  /** The range loop of ComposeAllPackages: each package composed and stored under its key, failing fast. */
  method ComposePackageList(env: Env, flags: Flags, manifestPackages: seq<(string, PackageSpec)>, filePath: string, ma: KeyValue)
    returns (r: Result<map<string, Package>>, warnings: seq<Warning>)
    ensures r == AllPackagesOf(env, flags, manifestPackages, filePath, ma)
    ensures warnings == AllPackagesWarnings(env, flags, manifestPackages, filePath, ma)
  {
    var packages: map<string, Package> := map[];
    warnings := [];
    var i := 0;
    assert manifestPackages[i..] == manifestPackages;
    PackagesMergedIntoEmpty(AllPackagesOf(env, flags, manifestPackages, filePath, ma));
    assert warnings + AllPackagesWarnings(env, flags, manifestPackages, filePath, ma) == AllPackagesWarnings(env, flags, manifestPackages, filePath, ma);
    while i < |manifestPackages|
      invariant 0 <= i <= |manifestPackages|
      invariant AllPackagesOf(env, flags, manifestPackages, filePath, ma)
             == PackagesMergedInto(packages, AllPackagesOf(env, flags, manifestPackages[i..], filePath, ma))
      invariant AllPackagesWarnings(env, flags, manifestPackages, filePath, ma)
             == warnings + AllPackagesWarnings(env, flags, manifestPackages[i..], filePath, ma)
    {
      var s, w := ComposePackage(env, flags, manifestPackages[i].1, manifestPackages[i].0, filePath, ma);
      AllPackagesNext(env, flags, manifestPackages, i, filePath, ma, packages, warnings, s, w);
      warnings := warnings + w;
      if s.Err? {
        return Err(s.error), warnings;
      }
      packages := packages[manifestPackages[i].0 := s.value];
      i := i + 1;
    }
    assert manifestPackages[i..] == [];
    assert packages + map[] == packages;
    assert warnings + [] == warnings;
    r := Ok(packages);
  }
}
