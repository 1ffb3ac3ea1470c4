/**
  The decoded manifest and deployment documents (the YAML types of the
  parser package) and the helpers outside this model that the composers
  call: parameter resolution, environment substitution, the runtime
  tables and the file system. Every Go map is a sequence of (key, value)
  pairs in the order the range loop visits them.
 */
module Manifest {
  import opened Whisk

  /** A declared parameter: its type, inline value and default. */
  datatype ParamSpec = ParamSpec(paramType: string, value: Value, defaultValue: Value)

  datatype LimitsSpec = LimitsSpec(
    timeout: Option<int>,
    memory: Option<int>,
    logsize: Option<int>,
    concurrentActivations: Option<int>,
    userInvocationRate: Option<int>,
    codeSize: Option<int>,
    parameterSize: Option<int>)

  datatype ActionSpec = ActionSpec(
    functionPath: string,   // the `function` key
    location: string,
    runtime: string,
    main: string,
    inputs: seq<(string, ParamSpec)>,
    outputs: seq<(string, ParamSpec)>,
    annotations: seq<(string, Value)>,
    webexport: string,
    limits: Option<LimitsSpec>)

  /** A sequence: its comma-separated list of action names. */
  datatype SequenceSpec = SequenceSpec(actions: string, annotations: seq<(string, Value)>)

  datatype TriggerSpec = TriggerSpec(
    name: string,
    namespace: string,
    source: string,
    feed: string,
    inputs: seq<(string, ParamSpec)>,
    annotations: seq<(string, Value)>)

  datatype RuleSpec = RuleSpec(name: string, trigger: string, action: string)

  datatype DependencySpec = DependencySpec(
    location: string,
    version: string,
    inputs: seq<(string, ParamSpec)>,
    annotations: seq<(string, Value)>)

  datatype PackageSpec = PackageSpec(
    packagename: string,
    namespace: string,
    version: string,
    license: string,
    inputs: seq<(string, ParamSpec)>,
    annotations: seq<(string, Value)>,
    actions: seq<(string, ActionSpec)>,
    sequences: seq<(string, SequenceSpec)>,
    triggers: seq<(string, TriggerSpec)>,
    rules: seq<(string, RuleSpec)>,
    dependencies: seq<(string, DependencySpec)>)

  /** No two entries of a declared map share a key, as in every Go map. */
  predicate DistinctNames<V>(s: seq<(string, V)>) {
    forall i, j :: 0 <= i < j < |s| ==> s[i].0 != s[j].0
  }

  /** Dropping the first entry keeps the names distinct, and no later entry shares the first one's name. */
  lemma DistinctTail<V>(s: seq<(string, V)>)
    requires DistinctNames(s) && s != []
    ensures DistinctNames(s[1..])
    ensures forall i :: 1 <= i < |s| ==> s[i].0 != s[0].0
  {
    DistinctRest(s);
  }

  /** Dropping the first entry keeps the names distinct. */
  lemma DistinctRest<V>(s: seq<(string, V)>)
    requires DistinctNames(s) && s != []
    ensures DistinctNames(s[1..])
  {
    var tail := s[1..];
    forall a, b | 0 <= a < b < |tail| ensures tail[a].0 != tail[b].0 {
      assert tail[a] == s[a + 1] && tail[b] == s[b + 1];
    }
  }

  /** A package map that may be nil (None) as well as empty. */
  type PackageMap = Option<seq<(string, PackageSpec)>>

  datatype Project = Project(package: PackageSpec, packages: PackageMap)

  /** A manifest or deployment document: the deprecated single package, the packages map, the project wrapper. */
  datatype Yaml = Yaml(package: PackageSpec, packages: PackageMap, project: Project, filepath: string)

  /** len() of a package map: a nil map has length zero. */
  function Len(m: PackageMap): nat {
    if m.Some? then |m.value| else 0
  }

  /**
    The packages every Compose*FromAllPackages works on: the single
    package when it is named, else the packages map when it is not
    empty, else the project's packages.
   */
  function ManifestPackages(m: Yaml): seq<(string, PackageSpec)> {
    if m.package.packagename != "" then [(m.package.packagename, m.package)]
    else if Len(m.packages) != 0 then m.packages.value
    else if m.project.packages.Some? then m.project.packages.value
    else []
  }

  /**
    The precedence of the package sources, first to last: a named single
    package, then a non-empty packages map, then the project's packages. A
    source that applies decides alone; the sources after it are not looked
    at, and with none of them there are no packages.
   */
  lemma ManifestPackagesPrecedence(m: Yaml, packages: PackageMap, project: Project)
    ensures m.package.packagename != "" ==>
      ManifestPackages(m.(packages := packages, project := project)) == [(m.package.packagename, m.package)]
    ensures m.package.packagename == "" && Len(m.packages) != 0 ==>
      ManifestPackages(m.(project := project)) == m.packages.value
    ensures m.package.packagename == "" && Len(m.packages) == 0 ==>
      ManifestPackages(m) == if m.project.packages.Some? then m.project.packages.value else []
  {
  }
}

module Externals {
  import opened Whisk
  import opened Manifest

  /** The process-wide flags Managed and Strict. */
  datatype Flags = Flags(managed: bool, strict: bool)

  /**
    The helpers outside this model that turn declared values into platform
    values: ResolveParameter (a value, nil meaning "leave out", or an error),
    wskenv.GetEnvVar and wskenv.ConvertSingleName.
   */
  datatype Env = Env(
    resolveParameter: (string, ParamSpec, string) -> Result<Option<Value>>,
    getEnvVar: Value -> Value,
    convertSingleName: string -> string)

  /** utils.LocationIsBinding and utils.LocationIsGithub. */
  datatype LocationTests = LocationTests(isBinding: string -> bool, isGithub: string -> bool)

  /**
    The runtime tables: FileExtensionRuntimeKindMap and DefaultRunTimes
    (both give "" for a missing key), CheckExistRuntime over
    SupportedRunTimes, and CheckRuntimeConsistencyWithFileExtension.
   */
  datatype RuntimeTables = RuntimeTables(
    extensionRuntime: string -> string,
    defaultRuntime: string -> string,
    isSupported: string -> bool,
    isConsistent: (string, string) -> bool)

  /**
    The file system as the action composer sees it: IsDirectory, zipping a
    directory into path + ".zip", GetExec of that archive with the declared
    runtime, and reading a file.
   */
  datatype FileSystem = FileSystem(
    isDirectory: string -> bool,
    zip: string -> Option<Error>,
    getExec: (string, string) -> Result<Exec>,
    read: string -> Result<seq<bv8>>)

  /** LimitsTimeoutValidation, LimitsMemoryValidation and LimitsLogsizeValidation. */
  datatype LimitValidators = LimitValidators(
    timeout: Option<int> -> bool,
    memory: Option<int> -> bool,
    logsize: Option<int> -> bool)

  /** The yaml-side helpers GetTriggerList, GetRuleList and Rule.ComposeWskRule. */
  datatype YamlHelpers = YamlHelpers(
    triggerList: PackageSpec -> seq<TriggerSpec>,
    ruleList: PackageSpec -> seq<RuleSpec>,
    composeWskRule: RuleSpec -> Rule)
}
