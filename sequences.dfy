/**
  ComposeSequences and ComposeSequencesFromAllPackages
  (parsers/manifest_parser.go): a declared sequence becomes an action of
  kind "sequence" whose components are the comma-separated action names,
  each trimmed, qualified by the package unless it already holds a '/', and
  made absolute under the namespace. Composing sequences never fails.
 */
module Sequences {
  import opened Whisk
  import opened Strs
  import opened Paths
  import opened Manifest
  import opened Externals
  import opened Inputs
  import opened Packages

  /** YAML_KEY_SEQUENCE, the kind of every sequence action. */
  const SEQUENCE_KIND := "sequence"

  /** One component: the trimmed name, qualified by the package, joined under "/" + namespace. */
  function Component(namespace: string, packageName: string, piece: string): string {
    PathJoin("/" + namespace, Qualify(packageName, TrimSpace(piece)))
  }

  /** The components of a list of comma-separated pieces, in order. */
  function Components(namespace: string, packageName: string, pieces: seq<string>): (c: seq<string>)
    ensures |c| == |pieces|
  {
    if pieces == [] then [] else [Component(namespace, packageName, pieces[0])] + Components(namespace, packageName, pieces[1..])
  }

  /** Component i is the component of piece i. */
  lemma {:induction false} ComponentsAt(namespace: string, packageName: string, pieces: seq<string>, i: nat)
    requires i < |pieces|
    ensures Components(namespace, packageName, pieces)[i] == Component(namespace, packageName, pieces[i])
  {
    var all := Components(namespace, packageName, pieces);
    var tail := Components(namespace, packageName, pieces[1..]);
    assert all == [Component(namespace, packageName, pieces[0])] + tail;
    if i > 0 {
      ComponentsAt(namespace, packageName, pieces[1..], i - 1);
      assert pieces[1..][i - 1] == pieces[i];
      assert all[i] == tail[i - 1];
    } else {
      assert all[0] == Component(namespace, packageName, pieces[0]);
    }
  }

  /** The component loop of ComposeSequences. */
  method CollectComponents(namespace: string, packageName: string, actions: string) returns (components: seq<string>)
    ensures components == Components(namespace, packageName, Split(actions, ','))
  {
    var actionList := Split(actions, ',');
    components := [];
    var i := 0;
    assert actionList[i..] == actionList;
    while i < |actionList|
      invariant 0 <= i <= |actionList|
      invariant Components(namespace, packageName, actionList) == components + Components(namespace, packageName, actionList[i..])
    {
      ComponentsStep(namespace, packageName, actionList, i, components);
      components := components + [Component(namespace, packageName, actionList[i])];
      i := i + 1;
    }
    assert actionList[i..] == [];
    assert components + [] == components;
  }

  lemma ComponentsStep(namespace: string, packageName: string, pieces: seq<string>, i: nat, acc: seq<string>)
    requires i < |pieces|
    ensures acc + Components(namespace, packageName, pieces[i..])
         == (acc + [Component(namespace, packageName, pieces[i])]) + Components(namespace, packageName, pieces[i + 1..])
  {
    var rest := pieces[i..];
    assert rest[0] == pieces[i] && rest[1..] == pieces[i + 1..];
  }

  /** The record of one sequence: its action, the package it belongs to, and its own name as the file path. */
  function SequenceRecord(env: Env, flags: Flags, namespace: string, packageName: string, ma: KeyValue,
                          key: string, sequence: SequenceSpec): ActionRecord
  {
    var exec := Exec(SEQUENCE_KIND, None, "", Components(namespace, packageName, Split(sequence.actions, ',')));
    ActionRecord(Action(key, namespace, exec, [], ManagedAnnotations(env, flags, sequence.annotations, ma), None, false),
                 packageName, key)
  }

  function SequencesOf(env: Env, flags: Flags, namespace: string, sequences: seq<(string, SequenceSpec)>,
                       packageName: string, ma: KeyValue): (r: seq<ActionRecord>)
    ensures |r| == |sequences|
  {
    if sequences == [] then []
    else [SequenceRecord(env, flags, namespace, packageName, ma, sequences[0].0, sequences[0].1)] +
         SequencesOf(env, flags, namespace, sequences[1..], packageName, ma)
  }

  /** Record i is the record of the i-th declared sequence. */
  lemma {:induction false} SequencesOfAt(env: Env, flags: Flags, namespace: string, sequences: seq<(string, SequenceSpec)>,
                                        packageName: string, ma: KeyValue, i: nat)
    requires i < |sequences|
    ensures SequencesOf(env, flags, namespace, sequences, packageName, ma)[i]
         == SequenceRecord(env, flags, namespace, packageName, ma, sequences[i].0, sequences[i].1)
  {
    var all := SequencesOf(env, flags, namespace, sequences, packageName, ma);
    var tail := SequencesOf(env, flags, namespace, sequences[1..], packageName, ma);
    assert all == [SequenceRecord(env, flags, namespace, packageName, ma, sequences[0].0, sequences[0].1)] + tail;
    if i > 0 {
      SequencesOfAt(env, flags, namespace, sequences[1..], packageName, ma, i - 1);
      assert sequences[1..][i - 1] == sequences[i];
      assert all[i] == tail[i - 1];
    } else {
      assert all[0] == SequenceRecord(env, flags, namespace, packageName, ma, sequences[0].0, sequences[0].1);
    }
  }

  lemma SequencesStep(env: Env, flags: Flags, namespace: string, sequences: seq<(string, SequenceSpec)>, i: nat,
                      packageName: string, ma: KeyValue, acc: seq<ActionRecord>)
    requires i < |sequences|
    ensures acc + SequencesOf(env, flags, namespace, sequences[i..], packageName, ma)
         == (acc + [SequenceRecord(env, flags, namespace, packageName, ma, sequences[i].0, sequences[i].1)]) +
            SequencesOf(env, flags, namespace, sequences[i + 1..], packageName, ma)
  {
    var rest := sequences[i..];
    assert rest[0] == sequences[i] && rest[1..] == sequences[i + 1..];
    var x := [SequenceRecord(env, flags, namespace, packageName, ma, sequences[i].0, sequences[i].1)];
    var tail := SequencesOf(env, flags, namespace, sequences[i + 1..], packageName, ma);
    assert SequencesOf(env, flags, namespace, rest, packageName, ma) == x + tail;
    AppendRegroup(acc, x, tail);
  }

  lemma AppendRegroup(acc: seq<ActionRecord>, x: seq<ActionRecord>, tail: seq<ActionRecord>)
    ensures acc + (x + tail) == (acc + x) + tail
  {
  }

  /** ComposeSequences: one record per declared sequence, in the order of the map. */
  method ComposeSequences(env: Env, flags: Flags, namespace: string, sequences: seq<(string, SequenceSpec)>,
                          packageName: string, ma: KeyValue) returns (s1: seq<ActionRecord>)
    ensures s1 == SequencesOf(env, flags, namespace, sequences, packageName, ma)
  {
    s1 := [];
    var i := 0;
    assert sequences[i..] == sequences;
    while i < |sequences|
      invariant 0 <= i <= |sequences|
      invariant SequencesOf(env, flags, namespace, sequences, packageName, ma)
             == s1 + SequencesOf(env, flags, namespace, sequences[i..], packageName, ma)
    {
      SequencesStep(env, flags, namespace, sequences, i, packageName, ma, s1);
      var record := ComposeSequence(env, flags, namespace, packageName, ma, sequences[i].0, sequences[i].1);
      s1 := s1 + [record];
      i := i + 1;
    }
    assert sequences[i..] == [];
    assert s1 + [] == s1;
  }

  /** The body of the loop of ComposeSequences: the record of one sequence. */
  method ComposeSequence(env: Env, flags: Flags, namespace: string, packageName: string, ma: KeyValue,
                         key: string, sequence: SequenceSpec) returns (record: ActionRecord)
    ensures record == SequenceRecord(env, flags, namespace, packageName, ma, key, sequence)
  {
    var components := CollectComponents(namespace, packageName, sequence.actions);
    var annotations := CollectAnnotations(env, sequence.annotations);
    if flags.managed {
      annotations := annotations + [ma];
    }
    assert annotations == ManagedAnnotations(env, flags, sequence.annotations, ma);
    var action := Action(key, namespace, Exec(SEQUENCE_KIND, None, "", components), [], annotations, None, false);
    record := ActionRecord(action, packageName, key);
  }

  /**
    A bare action name is placed under the package and the namespace; a name
    that already names a package keeps it. Blanks around the name do not
    matter.
   */
  lemma ComponentShape(namespace: string, packageName: string, piece: string)
    requires namespace != "" && namespace[|namespace| - 1] != '/'
    requires packageName != "" && packageName[0] != '/' && packageName[|packageName| - 1] != '/'
    requires var act := TrimSpace(piece); act != "" && act[0] != '/'
    ensures var act := TrimSpace(piece);
      Component(namespace, packageName, piece) ==
        if '/' in act then "/" + namespace + "/" + act else "/" + namespace + "/" + packageName + "/" + act
  {
    JoinQualified(namespace, packageName, TrimSpace(piece));
  }

  /** The join ComponentShape describes, for an action name already trimmed. */
  lemma JoinQualified(namespace: string, packageName: string, act: string)
    requires namespace != "" && namespace[|namespace| - 1] != '/'
    requires packageName != "" && packageName[0] != '/' && packageName[|packageName| - 1] != '/'
    requires act != "" && act[0] != '/'
    ensures PathJoin("/" + namespace, Qualify(packageName, act)) ==
      if '/' in act then "/" + namespace + "/" + act else "/" + namespace + "/" + packageName + "/" + act
  {
    var q := Qualify(packageName, act);
    var root := "/" + namespace;
    assert root[|root| - 1] == namespace[|namespace| - 1];
    if '/' !in act {
      assert q == packageName + "/" + act;
      assert q[0] == packageName[0];
      AppendQualified(root + "/", packageName, act);
    }
  }

  /** Appending a qualified name appends the package, the separator and the name. */
  lemma AppendQualified(prefix: string, packageName: string, act: string)
    ensures prefix + (packageName + "/" + act) == prefix + packageName + "/" + act
  {
  }

  /** With an empty namespace the components are rooted at "/". */
  lemma ComponentEmptyNamespace(packageName: string, piece: string)
    requires packageName != "" && packageName[0] != '/' && packageName[|packageName| - 1] != '/'
    requires var act := TrimSpace(piece); act != "" && act[0] != '/'
    ensures var act := TrimSpace(piece);
      Component("", packageName, piece) == if '/' in act then "/" + act else "/" + packageName + "/" + act
  {
    JoinQualifiedAtRoot(packageName, TrimSpace(piece));
  }

  /** The join ComponentEmptyNamespace describes, for an action name already trimmed. */
  lemma JoinQualifiedAtRoot(packageName: string, act: string)
    requires packageName != "" && packageName[0] != '/' && packageName[|packageName| - 1] != '/'
    requires act != "" && act[0] != '/'
    ensures PathJoin("/", Qualify(packageName, act)) == if '/' in act then "/" + act else "/" + packageName + "/" + act
  {
    var q := Qualify(packageName, act);
    if '/' !in act {
      assert q == packageName + "/" + act;
      assert q[0] == packageName[0];
    }
  }

  /** Every sequence record is an unpublished action of kind "sequence" with one component per piece. */
  lemma {:induction false} SequenceRecordShape(env: Env, flags: Flags, namespace: string, packageName: string, ma: KeyValue,
                                              key: string, sequence: SequenceSpec)
    ensures var r := SequenceRecord(env, flags, namespace, packageName, ma, key, sequence);
      r.action.exec.kind == SEQUENCE_KIND && r.action.name == key && r.filepath == key &&
      r.action.namespace == namespace && !r.action.publish && r.packagename == packageName &&
      |r.action.exec.components| == |Split(sequence.actions, ',')| &&
      (forall i :: 0 <= i < |Split(sequence.actions, ',')| ==>
         r.action.exec.components[i] == Component(namespace, packageName, Split(sequence.actions, ',')[i])) &&
      (flags.managed ==> r.action.annotations[|r.action.annotations| - 1] == ma)
  {
    ManagedAnnotationsShape(env, flags, sequence.annotations, ma);
    var pieces := Split(sequence.actions, ',');
    forall i | 0 <= i < |pieces|
      ensures Components(namespace, packageName, pieces)[i] == Component(namespace, packageName, pieces[i])
    {
      ComponentsAt(namespace, packageName, pieces, i);
    }
  }

  /** The sequence records of all selected packages, concatenated in package order. */
  function AllSequencesOf(env: Env, flags: Flags, namespace: string, packages: seq<(string, PackageSpec)>, ma: KeyValue)
    : seq<ActionRecord>
  {
    if packages == [] then []
    else SequencesOf(env, flags, namespace, packages[0].1.sequences, packages[0].0, ma) +
         AllSequencesOf(env, flags, namespace, packages[1..], ma)
  }

  lemma AllSequencesStep(env: Env, flags: Flags, namespace: string, packages: seq<(string, PackageSpec)>, i: nat,
                         ma: KeyValue, acc: seq<ActionRecord>)
    requires i < |packages|
    ensures acc + AllSequencesOf(env, flags, namespace, packages[i..], ma)
         == (acc + SequencesOf(env, flags, namespace, packages[i].1.sequences, packages[i].0, ma)) +
            AllSequencesOf(env, flags, namespace, packages[i + 1..], ma)
  {
    var rest := packages[i..];
    assert rest[0] == packages[i] && rest[1..] == packages[i + 1..];
  }

  /** ComposeSequencesFromAllPackages: the selected packages in turn; the error it returns is always nil. */
  method ComposeSequencesFromAllPackages(env: Env, flags: Flags, namespace: string, mani: Yaml, ma: KeyValue)
    returns (s1: seq<ActionRecord>)
    ensures s1 == AllSequencesOf(env, flags, namespace, ManifestPackages(mani), ma)
  {
    if mani.package.packagename != "" {
      s1 := ComposeSequences(env, flags, namespace, mani.package.sequences, mani.package.packagename, ma);
      assert s1 + [] == s1;
      return;
    }
    var manifestPackages: seq<(string, PackageSpec)> := [];
    if Len(mani.packages) != 0 {
      manifestPackages := mani.packages.value;
    } else if mani.project.packages.Some? {
      manifestPackages := mani.project.packages.value;
    }
    s1 := [];
    var i := 0;
    assert manifestPackages[i..] == manifestPackages;
    while i < |manifestPackages|
      invariant 0 <= i <= |manifestPackages|
      invariant AllSequencesOf(env, flags, namespace, manifestPackages, ma)
             == s1 + AllSequencesOf(env, flags, namespace, manifestPackages[i..], ma)
    {
      AllSequencesStep(env, flags, namespace, manifestPackages, i, ma, s1);
      var s := ComposeSequences(env, flags, namespace, manifestPackages[i].1.sequences, manifestPackages[i].0, ma);
      s1 := s1 + s;
      i := i + 1;
    }
    assert manifestPackages[i..] == [];
    assert s1 + [] == s1;
  }

  /** Every record of the whole composition belongs to one of the selected packages and is a sequence. */
  lemma {:induction false} AllSequencesKinds(env: Env, flags: Flags, namespace: string, packages: seq<(string, PackageSpec)>, ma: KeyValue)
    ensures var r := AllSequencesOf(env, flags, namespace, packages, ma);
      |r| == SequenceCount(packages) &&
      forall k :: 0 <= k < |r| ==>
        (r[k].action.exec.kind == SEQUENCE_KIND && r[k].action.namespace == namespace &&
         exists i :: 0 <= i < |packages| && r[k].packagename == packages[i].0)
  {
    if packages != [] {
      var head := SequencesOf(env, flags, namespace, packages[0].1.sequences, packages[0].0, ma);
      var tail := AllSequencesOf(env, flags, namespace, packages[1..], ma);
      AllSequencesKinds(env, flags, namespace, packages[1..], ma);
      var r := head + tail;
      forall k | 0 <= k < |r|
        ensures r[k].action.exec.kind == SEQUENCE_KIND && r[k].action.namespace == namespace &&
          exists i :: 0 <= i < |packages| && r[k].packagename == packages[i].0
      {
        if k < |head| {
          assert r[k] == head[k];
          var sq := packages[0].1.sequences;
          SequencesOfAt(env, flags, namespace, sq, packages[0].0, ma, k);
          SequenceRecordShape(env, flags, namespace, packages[0].0, ma, sq[k].0, sq[k].1);
        } else {
          assert r[k] == tail[k - |head|];
          var i :| 0 <= i < |packages[1..]| && tail[k - |head|].packagename == packages[1..][i].0;
          assert packages[1..][i] == packages[i + 1];
        }
      }
    }
  }

  /** The number of sequences the selected packages declare. */
  function SequenceCount(packages: seq<(string, PackageSpec)>): nat {
    if packages == [] then 0 else |packages[0].1.sequences| + SequenceCount(packages[1..])
  }
}
