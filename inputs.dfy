/**
  The two loops every composer runs over declared key/value maps: inputs
  go through ResolveParameter (a nil result is left out, an error stops
  the composer) and annotations through GetEnvVar.
 */
module Inputs {
  import opened Whisk
  import opened Manifest
  import opened Externals

  function ResolveOne(env: Env, input: (string, ParamSpec), filePath: string): Result<Option<Value>> {
    env.resolveParameter(input.0, input.1, filePath)
  }

  /** The resolved parameter list, or the first resolution error in declared order. */
  function ResolveAll(env: Env, inputs: seq<(string, ParamSpec)>, filePath: string): (r: Result<seq<KeyValue>>)
    ensures r.Ok? ==> |r.value| <= |inputs|
  {
    if inputs == [] then Ok([])
    else
      match ResolveOne(env, inputs[0], filePath)
      case Err(e) => Err(e)
      case Ok(v) =>
        match ResolveAll(env, inputs[1..], filePath)
        case Err(e) => Err(e)
        case Ok(rest) => Ok((if v.Some? then [KeyValue(inputs[0].0, v.value)] else []) + rest)
  }

  /**
    Resolution fails exactly when some input fails, with the error of the
    first one that does; otherwise the list holds exactly the inputs whose
    value is not nil, under their own names.
   */
  lemma {:induction false} ResolveAllMeaning(env: Env, inputs: seq<(string, ParamSpec)>, filePath: string)
    ensures var r := ResolveAll(env, inputs, filePath);
      (r.Err? <==> exists i :: 0 <= i < |inputs| && ResolveOne(env, inputs[i], filePath).Err?) &&
      (r.Err? ==> exists i :: 0 <= i < |inputs| && ResolveOne(env, inputs[i], filePath) == Err(r.error) &&
                              forall j :: 0 <= j < i ==> ResolveOne(env, inputs[j], filePath).Ok?) &&
      (r.Ok? ==> forall kv :: kv in r.value <==>
        exists i :: 0 <= i < |inputs| && inputs[i].0 == kv.key && ResolveOne(env, inputs[i], filePath) == Ok(Some(kv.value)))
  {
    if inputs != [] {
      var tail := inputs[1..];
      ResolveAllMeaning(env, tail, filePath);
      assert forall i :: 0 <= i < |tail| ==> tail[i] == inputs[i + 1];
      var first := ResolveOne(env, inputs[0], filePath);
      var r := ResolveAll(env, inputs, filePath);
      var rt := ResolveAll(env, tail, filePath);
      if first.Ok? && rt.Err? {
        var e := rt.error;
        var i :| 0 <= i < |tail| && ResolveOne(env, tail[i], filePath) == Err(e) &&
                 forall j :: 0 <= j < i ==> ResolveOne(env, tail[j], filePath).Ok?;
        assert ResolveOne(env, inputs[i + 1], filePath) == Err(e);
        forall j | 0 <= j < i + 1 ensures ResolveOne(env, inputs[j], filePath).Ok? {
          if j > 0 { assert inputs[j] == tail[j - 1]; }
        }
      } else if first.Ok? && rt.Ok? {
        var head := if first.value.Some? then [KeyValue(inputs[0].0, first.value.value)] else [];
        assert r.value == head + rt.value;
        forall kv | kv in r.value
          ensures exists i :: 0 <= i < |inputs| && inputs[i].0 == kv.key && ResolveOne(env, inputs[i], filePath) == Ok(Some(kv.value))
        {
          if kv in rt.value {
            var i :| 0 <= i < |tail| && tail[i].0 == kv.key && ResolveOne(env, tail[i], filePath) == Ok(Some(kv.value));
            assert inputs[i + 1] == tail[i];
          }
        }
        forall kv: KeyValue, i | 0 <= i < |inputs| && inputs[i].0 == kv.key && ResolveOne(env, inputs[i], filePath) == Ok(Some(kv.value))
          ensures kv in r.value
        {
          if i > 0 { assert tail[i - 1] == inputs[i]; }
        }
      }
    }
  }

  /** The input loop of the composers: each declared input resolved in turn, nil values dropped. */
  method CollectParameters(env: Env, inputs: seq<(string, ParamSpec)>, filePath: string) returns (r: Result<seq<KeyValue>>)
    ensures r == ResolveAll(env, inputs, filePath)
  {
    var keyValArr: seq<KeyValue> := [];
    var i := 0;
    assert inputs[i..] == inputs;
    PrefixedEmpty(ResolveAll(env, inputs, filePath));
    while i < |inputs|
      invariant 0 <= i <= |inputs|
      invariant ResolveAll(env, inputs, filePath) == Prefixed(keyValArr, ResolveAll(env, inputs[i..], filePath))
    {
      ghost var rest := inputs[i..];
      assert rest[0] == inputs[i] && rest[1..] == inputs[i + 1..];
      var value := env.resolveParameter(inputs[i].0, inputs[i].1, filePath);
      if value.Err? {
        assert ResolveAll(env, rest, filePath) == Err(value.error);
        return Err(value.error);
      }
      ghost var tail := ResolveAll(env, inputs[i + 1..], filePath);
      var head := if value.value.Some? then [KeyValue(inputs[i].0, value.value.value)] else [];
      assert ResolveAll(env, rest, filePath) == if tail.Ok? then Ok(head + tail.value) else tail;
      if tail.Ok? {
        assert keyValArr + (head + tail.value) == (keyValArr + head) + tail.value;
      }
      keyValArr := keyValArr + head;
      i := i + 1;
    }
    assert inputs[i..] == [];
    assert keyValArr + [] == keyValArr;
    r := Ok(keyValArr);
  }

  /** Each declared annotation with its value passed through GetEnvVar, in declared order. */
  function EnvAnnotations(env: Env, annotations: seq<(string, Value)>): (r: seq<KeyValue>)
    ensures |r| == |annotations|
  {
    if annotations == [] then []
    else [KeyValue(annotations[0].0, env.getEnvVar(annotations[0].1))] + EnvAnnotations(env, annotations[1..])
  }

  /** Annotation i keeps its key and carries its value through GetEnvVar. */
  lemma {:induction false} EnvAnnotationsAt(env: Env, annotations: seq<(string, Value)>, i: nat)
    requires i < |annotations|
    ensures EnvAnnotations(env, annotations)[i] == KeyValue(annotations[i].0, env.getEnvVar(annotations[i].1))
  {
    if i > 0 {
      EnvAnnotationsAt(env, annotations[1..], i - 1);
    }
  }

  /** The annotation loop of the composers. */
  method CollectAnnotations(env: Env, annotations: seq<(string, Value)>) returns (r: seq<KeyValue>)
    ensures r == EnvAnnotations(env, annotations)
  {
    r := [];
    var i := 0;
    assert annotations[i..] == annotations;
    while i < |annotations|
      invariant 0 <= i <= |annotations|
      invariant EnvAnnotations(env, annotations) == r + EnvAnnotations(env, annotations[i..])
    {
      EnvAnnotationsStep(env, annotations, i, r);
      r := r + [KeyValue(annotations[i].0, env.getEnvVar(annotations[i].1))];
      i := i + 1;
    }
    assert annotations[i..] == [];
    assert r + [] == r;
  }

  lemma EnvAnnotationsStep(env: Env, annotations: seq<(string, Value)>, i: nat, acc: seq<KeyValue>)
    requires i < |annotations|
    ensures acc + EnvAnnotations(env, annotations[i..])
         == (acc + [KeyValue(annotations[i].0, env.getEnvVar(annotations[i].1))]) + EnvAnnotations(env, annotations[i + 1..])
  {
    var rest := annotations[i..];
    assert rest[0] == annotations[i] && rest[1..] == annotations[i + 1..];
  }
}
