/**
  Values and platform entities that the composers build and the deployment
  reader updates: key/value pairs, actions with their executable payload,
  packages, triggers and rules, and the error values the core reports.
 */
module Whisk {

  datatype Option<+T> = None | Some(value: T)

  datatype Result<+T> = Ok(value: T) | Err(error: Error)

  /** An annotation or parameter value; NullValue is Go's nil. Structured YAML values are not told apart from scalars. */
  datatype Value = NullValue | BoolValue(b: bool) | StringValue(s: string) | NumberValue(n: int)

  datatype KeyValue = KeyValue(key: string, value: Value)

  /** Which of the three runtime checks of the action composer rejected an action. */
  datatype RuntimeFailure =
    | CannotDiscoverRuntime    // no kind for the extension, no runtime, not a zip file
    | ZipWithoutRuntime        // a zip file and no runtime declared
    | ZipRuntimeUnsupported    // a zip file and a runtime the server does not support

  datatype Error =
    | ParameterResolutionError(name: string, filePath: string)
    | UnknownDependencyTypeError
    | InvalidRuntimeError(reason: RuntimeFailure, manifestFile: string, actionName: string, runtime: string)
    | FileError(path: string)
    | WebModeError(mode: string)
    | YAMLFileFormatError(filePath: string, key: string)

  /** The code of an action: the file's bytes as text, or base64 of them for zip and jar files. */
  datatype Code = Text(data: seq<bv8>) | Base64(data: seq<bv8>)

  datatype Exec = Exec(kind: string, code: Option<Code>, main: string, components: seq<string>)

  const EmptyExec := Exec("", None, "", [])

  datatype Limits = Limits(timeout: Option<int>, memory: Option<int>, logsize: Option<int>)

  datatype Action = Action(
    name: string,
    namespace: string,
    exec: Exec,
    parameters: seq<KeyValue>,
    annotations: seq<KeyValue>,
    limits: Option<Limits>,
    publish: bool)

  /** An action together with its owning package and the path of its source. */
  datatype ActionRecord = ActionRecord(action: Action, packagename: string, filepath: string)

  datatype Package = Package(
    name: string,
    namespace: string,
    publish: bool,
    parameters: seq<KeyValue>,
    annotations: seq<KeyValue>)

  datatype Trigger = Trigger(
    name: string,
    namespace: string,
    publish: bool,
    parameters: seq<KeyValue>,
    annotations: seq<KeyValue>)

  datatype Rule = Rule(name: string, trigger: string, action: string)

  /** Warnings the core prints; only the ones that are the sole effect of a step are kept. */
  datatype Warning =
    | MissingMandatoryKey(key: string, defaultValue: string)
    | KeyValueNotSaved(key: string)
    | DeprecatedPackageKey
    | PackageNameMismatch(packageName: string)

  /** A list result with `acc` put in front, as the composer loops accumulate their results. */
  function Prefixed<T>(acc: seq<T>, r: Result<seq<T>>): Result<seq<T>> {
    if r.Ok? then Ok(acc + r.value) else r
  }

  lemma PrefixedEmpty<T>(r: Result<seq<T>>)
    ensures Prefixed([], r) == r
  {
    if r.Ok? { assert [] + r.value == r.value; }
  }

  /** The union of a sequence of maps, a later map winning on equal keys. */
  function UnionOf<K, V>(ms: seq<map<K, V>>): map<K, V> {
    if ms == [] then map[] else ms[0] + UnionOf(ms[1..])
  }

  /** The union holds exactly the keys of its maps. */
  lemma {:induction false} UnionOfDomain<K, V>(ms: seq<map<K, V>>)
    ensures forall k :: k in UnionOf(ms) ==> exists i :: 0 <= i < |ms| && k in ms[i]
    ensures forall i, k :: 0 <= i < |ms| && k in ms[i] ==> k in UnionOf(ms)
  {
    if ms != [] {
      var tail := ms[1..];
      UnionOfDomain(tail);
      forall k | k in UnionOf(ms)
        ensures exists i :: 0 <= i < |ms| && k in ms[i]
      {
        if k !in ms[0] {
          assert k in UnionOf(tail);
          var i :| 0 <= i < |tail| && k in tail[i];
          assert ms[i + 1] == tail[i];
        } else {
          assert k in ms[0];
        }
      }
      forall i, k | 0 < i < |ms| && k in ms[i]
        ensures k in UnionOf(ms)
      {
        assert tail[i - 1] == ms[i];
      }
    }
  }

  /** A key holds the value of the last map that has it. */
  lemma {:induction false} UnionOfLast<K, V>(ms: seq<map<K, V>>, i: nat, k: K)
    requires i < |ms| && k in ms[i]
    requires forall j :: i < j < |ms| ==> k !in ms[j]
    ensures k in UnionOf(ms) && UnionOf(ms)[k] == ms[i][k]
  {
    var tail := ms[1..];
    if i == 0 {
      UnionOfDomain(tail);
      assert k !in UnionOf(tail);
    } else {
      assert tail[i - 1] == ms[i];
      forall j | i - 1 < j < |tail|
        ensures k !in tail[j]
      {
        assert tail[j] == ms[j + 1];
      }
      UnionOfLast(tail, i - 1, k);
    }
  }

  /** Map union is associative. */
  lemma MapUnionAssoc<K, V>(a: map<K, V>, b: map<K, V>, c: map<K, V>)
    ensures a + (b + c) == (a + b) + c
  {
  }
}
