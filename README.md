# wskdeploy manifest composition and deployment binding, in Dafny

This project models the core of wskdeploy, the OpenWhisk deployment tool. It
proves properties of that model.

- **Manifest composition** (`parsers/manifest_parser.go`). The decoded
  manifest is turned into platform entities, package by package:
  - dependency records;
  - packages;
  - sequences, which are actions of kind `sequence`;
  - actions;
  - triggers;
  - rules.
- **Deployment binding** (`deployers/deploymentreader.go`). `BindAssets` lays
  the deployment file's inputs and annotations over the composed packages,
  actions and triggers, in place.
- **Web-action annotations** (`utils/webaction.go`). A web mode decides the
  `web-export`, `raw-http` and `final` annotations.

## Layout

| file | module | what it holds |
|---|---|---|
| `whisk.dfy` | `Whisk` | the platform values: key/value pairs, actions, packages, triggers, rules, errors, printed warnings |
| `manifest.dfy` | `Manifest`, `Externals` | the decoded YAML documents, and which packages a composer works on; the helpers outside the model, passed in as function-valued fields |
| `strs.dfy`, `paths.dfy` | `Strs`, `Paths` | the Go `strings` and `path` functions the core calls: TrimSpace, ToLower, Split, HasPrefix, path.Join, file extensions, package qualification |
| `keyvalues.dfy` | `KeyValues` | `deleteKey` and `addKeyValue` over key/value lists, and their laws |
| `webactions.dfy` | `WebActions` | `WebAction` and its helpers |
| `inputs.dfy` | `Inputs` | the input and annotation loops every composer runs |
| `dependencies.dfy`, `packages.dfy`, `sequences.dfy`, `actions.dfy`, `triggers.dfy`, `rules.dfy` | same names | one composer each, with its `*FromAllPackages` aggregator |
| `deployment.dfy` | `Deployment` | the deployment reader: class `DeploymentProject` (the composed deployment) and class `DeploymentReader` (its binding passes) |

## How the model is built

**Specification functions and methods.** Every composer is written twice.
- A specification function gives the result. Examples are `DependenciesOf`,
  `PackageOf`, `ActionsOf` and `TriggersOf`.
- A method mirrors the Go loop.
- The method's `ensures` ties its result to the function. The loop invariants
  say how much of the function's result the loop has built so far.
- Lemmas then state what the function's result means. Examples: the
  fail-fast behaviour, the first error, one record per declaration,
  key/value shapes, precedence.

**Maps and nil.**
- A Go map is modelled as the sequence of its entries, in the order the
  `range` loop visits them. The map's distinct keys are stated as
  `DistinctNames` wherever a property needs them.
- A map that may be nil is an `Option`.
- A result map is a Dafny `map`.
- A nil value or error is `None`.
- Parameter and annotation lists of the composed entities are never nil in
  the model. Go leaves them nil when a declaration has none
  (for example parsers/manifest_parser.go:302-304, 314-316, 584-586,
  623-625, 773-775); the model stores `[]`, and
  nothing in the core tells the two apart.

**The deployment reader** is imperative:
- `DeploymentProject` holds the composed packages and triggers as fields.
- The binding methods of `DeploymentReader` modify them.
- Each method states the whole new state as a pass function of the old state.
- Frame lemmas state what each pass leaves alone.

**Behaviours of the code as written.** These behaviours of wskdeploy may
surprise a reader:
- **Partial results.** `ComposeActions` returns the records composed so far with
  the error in two cases:
  - a source file that cannot be read;
  - web-export annotations that cannot be built.

  Every other failure returns no records. Across packages, any failure returns
  no records.
- **Web export drops the managed annotation.** The web-export annotations are
  built from the declared annotations. The managed annotation that was just
  appended is therefore dropped for a web action.
- **The extension variable carries over.** ComposeActions keeps the file
  extension in one variable for the whole loop. An action without a source file,
  or with a directory as source, is checked against the extension of the last
  file-based action before it. `Actions.StaleZipExtension` shows the
  consequence.
- **Defaults are not stored.** ComposePackage fills a missing version or license
  into its local copy of the declaration only. The defaults never reach the
  package, so the warnings are their only effect.
- **The license warning.** The second warning for a missing license names the
  `version` key.
- **Deployment inputs take precedence.** They come first in the merged parameter
  list. The composed parameters follow, minus the ones they redeclare.
- **Annotation overrides.** A deployment annotation may only overwrite a key the
  manifest already gave the entity. Overrides made before an unknown key stay in
  place.
- **The deployment's package precedence.** The deployment file's package map
  uses the reverse of the manifest's precedence: the project's packages first,
  then the single packages. The `project` field of a document stands for what
  its GetProject() returns; the YAML parser that defines it is not part of
  this model.

**Constants.**
- Dependency version `master`.
- Kinds `sequence`, `zip` and `jar`.
- Feed annotation key `feed`.
- Package defaults `0.0.1` and `unlicensed`, under the keys `version` and
  `license`.
- Web export value `true`.
- Web modes `yes`/`true`, `no`/`false` and `raw`.
- Annotations `web-export`, `raw-http` and `final`.

## Model

| member | source | states |
|---|---|---|
| Manifest.ManifestPackagesPrecedence | parsers/manifest_parser.go:109-116 | the sources in order: a named single package alone, without looking at the packages map or the project; else a non-empty packages map, without looking at the project; else the project's packages, a nil project map giving none |
| Manifest.DistinctTail | parsers/manifest_parser.go:119 | the map being ranged over has distinct keys, and so does its rest; no later entry repeats the first key |
| Strs.Lower | utils/webaction.go:32 | lower-casing keeps the length and maps each character on its own |
| Strs.LowerIdempotent | utils/webaction.go:32 | lower-casing twice is lower-casing once |
| Strs.TrimSpace | parsers/manifest_parser.go:829 | the result is a slice s[i..j] of the input with only white space before i and from j on, and neither starts nor ends with white space; an input with no white space at either end is returned as it is |
| Strs.SplitPieces | parsers/manifest_parser.go:359 | no piece of a split contains the separator |
| Strs.JoinSplit | parsers/manifest_parser.go:359 | joining the pieces of a split with the separator gives back the input |
| Strs.SplitJoin | parsers/manifest_parser.go:359 | splitting a join of separator-free pieces gives back the pieces |
| Strs.SplitLast | parsers/manifest_parser.go:433 | the last piece of a split ends the input and is preceded by a separator unless it is the whole input |
| Strs.LastSegment | parsers/manifest_parser.go:433 | the last segment of the manifest path ends the path, holds no separator, and is preceded by one unless it is the whole path |
| Paths.PathJoin | parsers/manifest_parser.go:191 | two non-empty parts without slashes at the join are joined with one '/'; "/" joined with a relative part gives the rooted part |
| Paths.FileExtension | parsers/manifest_parser.go:470-474 | the extension ends the path and holds no '.' and no '/' |
| Paths.ExtensionOfName | parsers/manifest_parser.go:470-474 | a file named base.ext with a dot-free ext has extension ext |
| Paths.ManifestDir | parsers/manifest_parser.go:453 | the cut-set trim removes exactly the manifest path's last segment, leaving a directory that is empty or ends in '/' |
| Paths.Qualify | parsers/manifest_parser.go:828-833 | a target that names no package is placed under the package; one holding '/' is kept |
| Paths.QualifyPrefixTestRedundant | parsers/manifest_parser.go:364 | the second test of the qualification (the "package/" prefix) never decides: a name with that prefix already holds '/' |
| KeyValues.DeleteKeyLength | utils/webaction.go:89-91 | deleting a present key removes one entry; deleting an absent key changes nothing |
| KeyValues.DeleteKeyFirst | utils/webaction.go:89-91 | exactly the entry at the key's first position is removed; the others stay, in order |
| KeyValues.DeleteKeyKeepsOthers | utils/webaction.go:89-91 | entries whose keys are outside a chosen set are not affected by deleting a key from the set |
| KeyValues.DeleteKeyUnique | utils/webaction.go:89-91 | on a list with unique keys, deleting a key removes it everywhere and keeps the keys unique |
| WebActions.ParseMode | utils/webaction.go:32-44 | "yes" and "true" mean web on, "no" and "false" off, "raw" raw, compared after lower-casing; nothing else is a mode |
| WebActions.WebTripleKeys | utils/webaction.go:61-86 | each mode appends exactly the three keys web-export, raw-http, final, once each, in that order |
| WebActions.ApplyMode | utils/webaction.go:61-86 | the three keys are deleted first, then appended with the mode's values |
| WebActions.WebActionAnnotations | utils/webaction.go:50-59 | a nil list stays nil exactly when annotations are fetched; otherwise the mode is applied, nil counting as empty |
| WebActions.WebAction | utils/webaction.go:31-46 | an error naming the mode exactly when the lower-cased mode is not one of the five; otherwise the mode's annotations |
| WebActions.WebActionCaseInsensitive | utils/webaction.go:32 | the mode's case does not matter |
| WebActions.WebActionYes | utils/webaction.go:33-36 | any mode that lower-cases to "yes" or "true" gives web-export true, raw-http false, final true, after the other annotations |
| WebActions.WebActionNo | utils/webaction.go:37-40 | "no" and "false", in any case, give all three annotations false |
| WebActions.WebActionRaw | utils/webaction.go:41-42 | "raw", in any case, gives all three annotations true |
| WebActions.WebActionInvalid | utils/webaction.go:43-44 | every mode that does not lower-case to one of yes, true, no, false, raw is an error naming the mode as given, and no annotations come back |
| WebActions.ApplyModeKeepsOthers | utils/webaction.go:61-94 | annotations with other keys keep their values and their order |
| WebActions.ApplyModeUnique | utils/webaction.go:61-94 | on a list with unique keys the result has unique keys, so each of the three appears exactly once |
| WebActions.DeleteWebKeysAbsent | utils/webaction.go:88-94 | on a list with unique keys, none of the three keys is left after the deletion |
| WebActions.ApplyModeIdempotent | utils/webaction.go:61-94 | applying a mode twice is applying it once |
| WebActions.WebOffAfterWebOn | utils/webaction.go:61-77 | turning web export off after turning it on is the same as turning it off directly |
| Inputs.ResolveAllMeaning | parsers/manifest_parser.go:286-304 | the input loop fails exactly when some input fails, with the first failing input's error; otherwise it holds exactly the inputs with non-nil values, under their own names |
| Inputs.CollectParameters | parsers/manifest_parser.go:286-304 | the input loop computes the resolved list of ResolveAll |
| Inputs.EnvAnnotationsAt | parsers/manifest_parser.go:307-316 | annotation i keeps its key and carries its value through GetEnvVar |
| Inputs.CollectAnnotations | parsers/manifest_parser.go:307-316 | the annotation loop computes EnvAnnotations, one entry per declared annotation, in order |
| Dependencies.ClassifyLocation | parsers/manifest_parser.go:143-164 | a binding gets a leading '/'; a GitHub location gets "https://" unless it already names http(s); anything else is an unknown-dependency-type error; the location itself is kept as a suffix |
| Dependencies.ClassifyLocationIdempotent | parsers/manifest_parser.go:143-164 | classifying an already normalised location changes nothing |
| Dependencies.DependencyOf | parsers/manifest_parser.go:137-193 | the record fails exactly when the location or an input fails; otherwise version defaults to "master", and the binding flag, package, project path, parameters and annotations are as declared |
| Dependencies.LocationErrorFirst | parsers/manifest_parser.go:143-164 | an unknown location type is reported before any input is resolved |
| Dependencies.DependenciesFailFast | parsers/manifest_parser.go:132-197 | a package's dependencies fail exactly when one of them does, and then with the first failing dependency's error, every earlier dependency composing without error |
| Dependencies.DependenciesOfError | parsers/manifest_parser.go:132-197 | a failing composition carries the error of its first failing dependency, every earlier one composing without error |
| Dependencies.DependencyKeyInjective | parsers/manifest_parser.go:191-193 | within a package, the key "<package>:<dependency>" determines the dependency |
| Dependencies.DependencyKeys | parsers/manifest_parser.go:191-193 | the record map has exactly one key per declared dependency |
| Dependencies.DependencyRecordAt | parsers/manifest_parser.go:191-193 | with distinct names, each dependency's record sits under its own key |
| Dependencies.ComposeDependency | parsers/manifest_parser.go:137-193 | the loop body computes DependencyOf |
| Dependencies.ComposeDependencies | parsers/manifest_parser.go:132-197 | the loop computes DependenciesOf, with records under "Packages" below the project path |
| Dependencies.ComposeDependenciesFromAllPackages | parsers/manifest_parser.go:106-130 | the selected packages' dependencies merged in turn, later keys winning, or the first package's error |
| Dependencies.AllDependenciesFailFast | parsers/manifest_parser.go:119-128 | the aggregate fails exactly when some package's dependencies fail, and then with the first failing package's error, every earlier package composing without error |
| Dependencies.AllDependenciesAreUnion | parsers/manifest_parser.go:119-128 | a successful aggregate is the union of the packages' dependency maps in package order |
| Dependencies.AllDependenciesEachOk | parsers/manifest_parser.go:119-128 | in a successful aggregate every package's dependencies compose |
| Dependencies.AllDependenciesDomain | parsers/manifest_parser.go:119-128 | a successful aggregate holds exactly the keys of the packages' dependency maps |
| Dependencies.AllDependenciesUnion | parsers/manifest_parser.go:121-124 | a key holds the record of the last package that declares it: later packages overwrite equal keys |
| Packages.ComposePackage | parsers/manifest_parser.go:233-324 | computes PackageOf, and gives two warnings for each missing version or license |
| Packages.PackageShape | parsers/manifest_parser.go:233-324 | the package is named by its key, keeps the namespace and is unpublished; it fails exactly when an input fails, with the first error |
| Packages.PackageParameters | parsers/manifest_parser.go:286-304 | the parameters are exactly the inputs with non-nil values |
| Packages.ManagedAnnotationsShape | parsers/manifest_parser.go:307-321 | the declared annotations come first, in order and substituted; the managed annotation comes last, exactly on a managed deployment |
| Packages.VersionAndLicenseNotStored | parsers/manifest_parser.go:246-283 | the declared version and license do not affect the composed package |
| Packages.PackageWarningsShape | parsers/manifest_parser.go:246-283 | each missing mandatory key gives two warnings, the first naming the key and its default |
| Packages.AllPackagesKeys | parsers/manifest_parser.go:220-228 | with distinct names, a successful map is keyed by exactly the declared names, each holding its own package |
| Packages.AllPackagesDomain | parsers/manifest_parser.go:220-228 | the keys of a successful map are exactly the declared names |
| Packages.AllPackagesFailFast | parsers/manifest_parser.go:220-228 | composing the packages fails exactly when one package fails, and then with the first failing package's error, every earlier package composing without error |
| Packages.ComposeAllPackages | parsers/manifest_parser.go:199-231 | the selected packages composed in turn, each stored under its key, or the first error; warnings in composition order, after the deprecation warning for a single package |
| Packages.ComposePackageList | parsers/manifest_parser.go:220-228 | the range loop over a packages map computes AllPackagesOf and AllPackagesWarnings |
| Sequences.ComponentsAt | parsers/manifest_parser.go:359-368 | component i is the i-th comma-separated piece, trimmed, qualified and made absolute |
| Sequences.CollectComponents | parsers/manifest_parser.go:359-368 | the component loop computes one component per comma-separated piece, in order |
| Sequences.ComponentShape | parsers/manifest_parser.go:359-368 | a bare name becomes /namespace/package/name and a qualified name /namespace/name; surrounding blanks do not matter |
| Sequences.ComponentEmptyNamespace | parsers/manifest_parser.go:359-368 | with an empty namespace the components are rooted at "/" |
| Sequences.SequenceRecordShape | parsers/manifest_parser.go:354-394 | each record is an unpublished action of kind "sequence", named and filed by its key, in the package, with one component per piece and the managed annotation last |
| Sequences.SequencesOfAt | parsers/manifest_parser.go:352-398 | record i is the record of the i-th declared sequence |
| Sequences.ComposeSequences | parsers/manifest_parser.go:352-398 | the loop computes SequencesOf, one record per sequence in map order |
| Sequences.ComposeSequence | parsers/manifest_parser.go:354-394 | the loop body computes SequenceRecord |
| Sequences.ComposeSequencesFromAllPackages | parsers/manifest_parser.go:326-350 | the selected packages' records concatenated in package order |
| Sequences.AllSequencesKinds | parsers/manifest_parser.go:326-350 | one record per declared sequence, each of kind "sequence" in the namespace and belonging to a selected package |
| Actions.FunctionOf | parsers/manifest_parser.go:446-448 | the deprecated location stands in for an empty function; the source is empty exactly when both are |
| Actions.RuntimeKind | parsers/manifest_parser.go:518-558 | the kind is the source's or the declared runtime; an error exactly for an unsupported runtime on a zip file |
| Actions.RuntimeAdopted | parsers/manifest_parser.go:518-558 | a declared runtime is adopted exactly when it is supported and the file is a zip, consistent with the extension, or strict mode is on |
| Actions.RuntimeKept | parsers/manifest_parser.go:518-558 | without a runtime, or with an unsupported one outside a zip, the kind stays |
| Actions.WebExportAnnotations | parsers/manifest_parser.go:616-640 | a web action's annotations are the declared ones with the web-on annotations, and the managed annotation is not among them |
| Actions.PlainAnnotations | parsers/manifest_parser.go:616-629 | otherwise the declared annotations, then the managed one on a managed deployment |
| Actions.SelectLimitsMeaning | parsers/manifest_parser.go:645-681 | limits are attached exactly when a timeout, memory or log size is set and valid; each field is kept when valid and nil otherwise |
| Actions.ActionStepShape | parsers/manifest_parser.go:424-693 | an action is named by its key, unpublished, in its package, with the resolved inputs, resolvable outputs, the annotations section's result and the filtered limits; a declared main wins; the exec kind is RuntimeKind's for the declared runtime, the extension in effect and the source's kind |
| Actions.TableKindForFile | parsers/manifest_parser.go:476-490 | a single source file with no declared runtime gets the default runtime of the kind the tables give its file extension |
| Actions.ActionStepSource | parsers/manifest_parser.go:446-505 | the record's file path and the extension variable are set by a file source only; a file's code is base64 exactly for zip and jar |
| Actions.ActionStepKeepsPartial | parsers/manifest_parser.go:492-496 | the only failures that keep earlier records are an unreadable file and a web-export error |
| Actions.UndiscoverableRuntime | parsers/manifest_parser.go:478-505 | a zip file, or a file whose kind the tables do not know, needs a declared runtime; the error names the manifest file, the action and "Not Specified" |
| Actions.StaleZipExtension | parsers/manifest_parser.go:470-558 | after a zip file, an action with no source and an unsupported runtime is rejected as a zip action |
| Actions.LoopComplete | parsers/manifest_parser.go:424-693 | a loop without error yields one record per declaration, after the earlier ones, named by its key; record k is the step's record for declaration k, computed on the extension the earlier declarations leave |
| Actions.LoopLength | parsers/manifest_parser.go:424-693 | a loop without error appends exactly one record per declaration and keeps the earlier records |
| Actions.LoopRecordsAt | parsers/manifest_parser.go:424-693 | a loop without error holds, at position k after the earlier records, the step's record for declaration k on the extension the earlier declarations leave |
| Actions.LoopFailure | parsers/manifest_parser.go:424-693 | a loop with an error fails at the first step that stops: the loop over the actions before it ends without error, the step stops on the extension variable those actions leave, its error comes back, and the records are exactly those of the actions before it or none |
| Actions.ActionsOfComplete | parsers/manifest_parser.go:424-693 | ComposeActions without error has one record per declared action, in the package; record k is the action that ActionStep builds from declaration k, with the extension the earlier actions carry over |
| Actions.ActionsOfFailure | parsers/manifest_parser.go:424-693 | ComposeActions with an error fails at the first action whose step stops, after composing every action before it on the threaded extension variable; it returns that step's error and the records of the actions before it for the partial-result failures, none otherwise |
| Actions.ComposeSource | parsers/manifest_parser.go:446-505 | the source section computes SourceOf |
| Actions.ComposeRest | parsers/manifest_parser.go:518-688 | the rest of the loop body computes FinishAction |
| Actions.ComposeAnnotations | parsers/manifest_parser.go:616-640 | the annotations section computes ActionAnnotations |
| Actions.ComposeActions | parsers/manifest_parser.go:424-693 | the loop computes ActionsOf, starting with an empty extension variable |
| Actions.AllActionsOfFailure | parsers/manifest_parser.go:400-422 | across packages a failure returns no records and the error of the first failing package, every package before it composing without error; success has one record per declared action |
| Actions.AllActionsOfSucceeds | parsers/manifest_parser.go:413-419 | the packages compose without error exactly when every package's actions do, so one failing package fails the whole |
| Actions.ComposeActionsFromAllPackages | parsers/manifest_parser.go:400-422 | computes ManifestActionsOf: the single package directly, else the packages in turn, failing fast |
| Triggers.FeedOf | parsers/manifest_parser.go:731-755 | the feed, or the deprecated source when the feed is empty |
| Triggers.TriggerShape | parsers/manifest_parser.go:719-796 | named through ConvertSingleName, keeping the namespace, unpublished, with the resolved inputs; fails exactly when an input does |
| Triggers.TriggerAnnotations | parsers/manifest_parser.go:746-791 | the feed annotation first when there is a feed, then the declared annotations in order, then the managed one on a managed deployment |
| Triggers.SourceActsAsFeed | parsers/manifest_parser.go:731-744 | a trigger with only a source is composed as if the source were its feed |
| Triggers.FeedOverridesSource | parsers/manifest_parser.go:731-744 | a declared feed makes the source irrelevant |
| Triggers.TriggersOfMeaning | parsers/manifest_parser.go:719-796 | the list fails with the first failing trigger's error; otherwise trigger i is the composition of declaration i |
| Triggers.ComposeTrigger | parsers/manifest_parser.go:724-791 | the loop body computes TriggerOf |
| Triggers.ComposeTriggers | parsers/manifest_parser.go:719-796 | the loop computes TriggersOf over the package's trigger list |
| Triggers.AllTriggersCount | parsers/manifest_parser.go:695-717 | a success has one trigger per listed trigger of every selected package |
| Triggers.AllTriggersFailFast | parsers/manifest_parser.go:708-715 | composing the triggers fails exactly when one package's triggers fail, and then with the first failing package's error, every earlier package composing without error |
| Triggers.ComposeTriggersFromAllPackages | parsers/manifest_parser.go:695-717 | the selected packages' triggers concatenated, or the first error |
| Rules.RuleShape | parsers/manifest_parser.go:824-837 | a rule keeps its name and trigger; its trimmed action is kept when it holds '/', else placed under the package |
| Rules.QualifyIdempotent | parsers/manifest_parser.go:828-833 | qualifying a qualified target again changes nothing |
| Rules.RulesOfAt | parsers/manifest_parser.go:824-837 | rule i is the composition of declaration i |
| Rules.ComposeRules | parsers/manifest_parser.go:824-837 | the loop computes RulesOf over the package's rule list, and never fails |
| Rules.AllRulesCount | parsers/manifest_parser.go:798-822 | every listed rule of every selected package is composed, none dropped or added |
| Rules.ComposeRulesFromAllPackages | parsers/manifest_parser.go:798-822 | the selected packages' rules concatenated, each qualified by its package |
| Deployment.PackMapKeyedByName | deployers/deploymentreader.go:73-96 | every package of the package map has its key as its name |
| Deployment.PackMapDistinct | deployers/deploymentreader.go:73-96 | the package map declares every name once |
| Deployment.PackMapPrecedence | deployers/deploymentreader.go:73-96 | a non-nil project map decides alone; else the project's single package, when named; else the top-level packages, when not nil; else the top-level single package under its own name, even an empty one |
| Deployment.DescriptorPackMap | deployers/deploymentreader.go:73-96 | the package map each pass builds is PackMap |
| Deployment.MergeNoInputs | deployers/deploymentreader.go:110-133 | without deployment inputs the composed parameters stay |
| Deployment.MergeInputsDeploymentWins | deployers/deploymentreader.go:110-133 | a deployment input's key looks up the deployment value, passed through GetEnvVar |
| Deployment.MergeInputsKeepsOthers | deployers/deploymentreader.go:110-133 | a composed parameter the deployment does not redeclare keeps its value |
| Deployment.MergeInputsKeys | deployers/deploymentreader.go:110-133 | the merged keys are exactly the deployment's and the composed ones |
| Deployment.DepParams | deployers/deploymentreader.go:120-123 | the depParams map has exactly the deployment input keys |
| Deployment.MergeParameters | deployers/deploymentreader.go:110-133 | computes MergeInputs: deployment inputs first, then the composed parameters they do not name |
| Deployment.OverrideAllKeys | deployers/deploymentreader.go:135-158 | overriding only rewrites values: length and keys stay |
| Deployment.OverrideAllSucceeds | deployers/deploymentreader.go:135-158 | binding the annotations succeeds exactly when every deployment key is one the entity already has |
| Deployment.OverrideAllFirstMissing | deployers/deploymentreader.go:151-156 | a failure names the first deployment key the entity lacks |
| Deployment.OverrideAllAppend | deployers/deploymentreader.go:135-158 | overrides apply in sequence and are not rolled back |
| Deployment.OverrideAllUntouched | deployers/deploymentreader.go:135-158 | only the first entry of each overridden key is rewritten |
| Deployment.OverrideAllValue | deployers/deploymentreader.go:135-158 | after success each deployment key looks up its deployment value |
| Deployment.FindAnnotation | deployers/deploymentreader.go:140-149 | the inner loop finds the first annotation with the key, and reports whether there is one |
| Deployment.OverrideAnnotations | deployers/deploymentreader.go:135-158 | the annotation loop computes OverrideAll |
| Deployment.BindEntity | deployers/deploymentreader.go:110-158 | computes the inputs merge (only when there are inputs) and the annotation override |
| Deployment.PackagePassFrame | deployers/deploymentreader.go:98-159 | the package pass adds or removes no package, leaves actions alone, and leaves unnamed packages as they were |
| Deployment.ActionPassFrame | deployers/deploymentreader.go:188-250 | the action pass adds or removes no package, leaves package entities alone, and leaves unnamed packages as they were |
| Deployment.ActionsPassFrame | deployers/deploymentreader.go:196-248 | no action is added or removed, and an unnamed action stays |
| Deployment.TriggersPassFrame | deployers/deploymentreader.go:278-340 | no trigger is added or removed, and an unnamed trigger stays |
| Deployment.PackagePassBreak | deployers/deploymentreader.go:100-106 | after an unmatched package name, no later package is bound |
| Deployment.ActionPassBreak | deployers/deploymentreader.go:190-194 | after an unmatched package name, no later package's actions are bound |
| Deployment.PackagePassApplies | deployers/deploymentreader.go:98-159 | with no break before it, each mapped package is bound exactly once, onto the composed package |
| Deployment.DeploymentReader.BindAssets | deployers/deploymentreader.go:56-69 | the new state and error are the three passes in order, stopping at the first error; warnings are the package pass's |
| Deployment.DeploymentReader.BindPackageInputsAndAnnotations | deployers/deploymentreader.go:71-161 | the packages become the package pass's result; the error is an unknown annotation key; triggers are unchanged |
| Deployment.DeploymentReader.BindActionInputsAndAnnotations | deployers/deploymentreader.go:163-252 | the packages become the action pass's result; the error is an unknown annotation key; triggers are unchanged |
| Deployment.DeploymentReader.BindTriggerInputsAndAnnotations | deployers/deploymentreader.go:254-342 | the triggers become the trigger pass's result; the error is an unknown annotation key; packages are unchanged |
| Deployment.BindDeploymentPackage | deployers/deploymentreader.go:108-158 | the package pass's work on one package computes BindPackage |
| Deployment.BindActions | deployers/deploymentreader.go:196-248 | the action loop of one package computes ActionsPass |
| Deployment.BindTriggers | deployers/deploymentreader.go:280-338 | the trigger loop of one package computes TriggersPass |

## Left out

- Printed output is not modelled: the runtime-mismatch notes, ignored and unsupported limits, the trigger-source deprecation, the "Checking key" line, and whisk.Debug. The only warnings kept are those that are a step's sole effect: the package version and license warnings, the single-package deprecation, and the package-name mismatch.
- CheckLicense is not modelled; it only prints.
- Reading YAML files (HandleYaml, ParseManifest) and YAML decoding are outside the core. The decoded documents are inputs.
- ComposeApiRecords and ComposeApiRecordsFromAllPackages are not part of this model.
- The helpers from other files are function-valued parameters: ResolveParameter, GetEnvVar, ConvertSingleName, the location tests, the runtime tables, IsDirectory, zipping, GetExec, file reads, the limit validators, GetTriggerList, GetRuleList and ComposeWskRule.
- The ServiceDeployer struct is not part of this model. DeploymentProject keeps only its packages and triggers.
- The deferred removal of the zip file written for a directory action is a file-system side effect and is left out.
- The constants defined in files that are not part of this model (the YAML key and value names, the zip and jar extensions, the package defaults) are given the values listed under Constants above.
- The path separator (os.PathSeparator) is taken to be '/', as on Unix systems.
- Paths.PathJoin: joins at the separator only, without path.Clean's removal of "." and ".." elements, its collapsing of repeated slashes or its dropping of a trailing '/' (path.Join("a", "b/") is "a/b", the model gives "a/b/").
- Strs.Lower: lower-cases ASCII letters only, without Unicode case mapping.
- Actions.ActionStepShape: the outputs are resolved only to detect an error; the source discards their values.
- Map iteration order is taken as the sequence order of the entries. Go randomises it; the model covers every order, one order per map.
- Deployment.BindAll and Deployment.DeploymentReader.BindAssets: the three binding passes range one package map in one order, whereas deployers/deploymentreader.go:98, 188 and 278 build and range a fresh map in each pass, so the model does not capture the passes visiting the packages in different orders (for instance stopping at different unmatched names).
- Aliasing of slices shared between composed entities is not modelled. Records are values.
- Parameter values keep their structure only as null, boolean, string or number. Nested YAML values are not modelled.
