/**
  Key/value lists (whisk.KeyValueArr) and the two list helpers the
  web-action shaping uses: deleteKey removes the first entry with a key,
  addKeyValue appends one. Lookups and filters state what they do.
 */
module KeyValues {
  import opened Whisk

  function Keys(kvs: seq<KeyValue>): (ks: seq<string>)
    ensures |ks| == |kvs|
    ensures forall i :: 0 <= i < |kvs| ==> ks[i] == kvs[i].key
  {
    if kvs == [] then [] else [kvs[0].key] + Keys(kvs[1..])
  }

  /** No two entries share a key (true of every list built from a Go map). */
  predicate UniqueKeys(kvs: seq<KeyValue>) {
    forall i, j :: 0 <= i < j < |kvs| ==> kvs[i].key != kvs[j].key
  }

  /** Position of the first entry with `key`, or |kvs| when there is none. */
  function FirstIndex(key: string, kvs: seq<KeyValue>): (i: nat)
    ensures i <= |kvs|
    ensures i < |kvs| ==> kvs[i].key == key
    ensures forall j :: 0 <= j < i ==> kvs[j].key != key
    ensures i == |kvs| <==> key !in Keys(kvs)
  {
    if kvs == [] then 0
    else if kvs[0].key == key then 0
    else
      var i := 1 + FirstIndex(key, kvs[1..]);
      assert Keys(kvs) == [kvs[0].key] + Keys(kvs[1..]);
      i
  }

  /** The value of the first entry with `key`. */
  function Lookup(key: string, kvs: seq<KeyValue>): (r: Option<Value>)
    ensures r.None? <==> key !in Keys(kvs)
    ensures r.Some? ==> KeyValue(key, r.value) in kvs
  {
    var i := FirstIndex(key, kvs);
    if i < |kvs| then Some(kvs[i].value) else None
  }

  /** deleteKey: the list without its first entry for `key`, the rest in order. */
  function DeleteKey(key: string, kvs: seq<KeyValue>): (r: seq<KeyValue>)
    ensures |r| <= |kvs|
  {
    if kvs == [] then []
    else if kvs[0].key == key then kvs[1..]
    else [kvs[0]] + DeleteKey(key, kvs[1..])
  }

  /** deleteKey removes one entry when the key is present and is the identity otherwise. */
  lemma DeleteKeyLength(key: string, kvs: seq<KeyValue>)
    ensures key in Keys(kvs) ==> |DeleteKey(key, kvs)| == |kvs| - 1
    ensures key !in Keys(kvs) ==> DeleteKey(key, kvs) == kvs
  {
    DeleteKeyFirst(key, kvs);
  }

  /** What deleteKey removes is exactly the entry at the first position holding the key. */
  lemma {:induction false} DeleteKeyFirst(key: string, kvs: seq<KeyValue>)
    ensures var i := FirstIndex(key, kvs);
      DeleteKey(key, kvs) == if i < |kvs| then kvs[..i] + kvs[i + 1..] else kvs
  {
    if kvs != [] && kvs[0].key != key {
      var t := kvs[1..];
      DeleteKeyFirst(key, t);
      var j := FirstIndex(key, t);
      assert FirstIndex(key, kvs) == j + 1;
      assert DeleteKey(key, kvs) == [kvs[0]] + DeleteKey(key, t);
      if j < |t| {
        SpliceAfterHead(kvs, j);
      }
    }
  }

  /** Cutting out the entry after position j of the tail is cutting out entry j + 1 of the list. */
  lemma SpliceAfterHead(kvs: seq<KeyValue>, j: nat)
    requires j + 1 < |kvs|
    ensures [kvs[0]] + (kvs[1..][..j] + kvs[1..][j + 1..]) == kvs[..j + 1] + kvs[j + 2..]
  {
    assert kvs[..j + 1] == [kvs[0]] + kvs[1..][..j];
    assert kvs[j + 2..] == kvs[1..][j + 1..];
  }

  /** addKeyValue: the list with one entry appended. */
  function AddKeyValue(key: string, value: Value, kvs: seq<KeyValue>): seq<KeyValue> {
    kvs + [KeyValue(key, value)]
  }

  /** The entries whose key is not one of `ks`, in their original order. */
  function WithoutKeys(kvs: seq<KeyValue>, ks: seq<string>): (r: seq<KeyValue>)
    ensures |r| <= |kvs|
    ensures forall kv :: kv in r <==> kv in kvs && kv.key !in ks
  {
    if kvs == [] then []
    else (if kvs[0].key in ks then [] else [kvs[0]]) + WithoutKeys(kvs[1..], ks)
  }

  lemma {:induction false} WithoutKeysAppend(a: seq<KeyValue>, b: seq<KeyValue>, ks: seq<string>)
    ensures WithoutKeys(a + b, ks) == WithoutKeys(a, ks) + WithoutKeys(b, ks)
  {
    if a != [] {
      assert (a + b)[0] == a[0];
      assert (a + b)[1..] == a[1..] + b;
      WithoutKeysAppend(a[1..], b, ks);
    } else {
      assert a + b == b;
    }
  }

  /** Deleting a key never disturbs entries with other keys: filtering out that key afterwards gives the same list. */
  lemma {:induction false} DeleteKeyKeepsOthers(key: string, kvs: seq<KeyValue>, ks: seq<string>)
    requires key in ks
    ensures WithoutKeys(DeleteKey(key, kvs), ks) == WithoutKeys(kvs, ks)
  {
    if kvs != [] && kvs[0].key != key {
      DeleteKeyKeepsOthers(key, kvs[1..], ks);
      assert DeleteKey(key, kvs) == [kvs[0]] + DeleteKey(key, kvs[1..]);
      WithoutKeysAppend([kvs[0]], DeleteKey(key, kvs[1..]), ks);
    }
  }

  /** On a list with unique keys, deleteKey removes every entry with the key. */
  lemma {:induction false} DeleteKeyUnique(key: string, kvs: seq<KeyValue>)
    requires UniqueKeys(kvs)
    ensures DeleteKey(key, kvs) == WithoutKeys(kvs, [key])
    ensures UniqueKeys(DeleteKey(key, kvs))
    ensures key !in Keys(DeleteKey(key, kvs))
  {
    DeleteKeyFilters(key, kvs);
    WithoutKeysUnique(kvs, [key]);
    var r := DeleteKey(key, kvs);
    assert forall i :: 0 <= i < |r| ==> r[i] in r;
  }

  lemma {:induction false} DeleteKeyFilters(key: string, kvs: seq<KeyValue>)
    requires UniqueKeys(kvs)
    ensures DeleteKey(key, kvs) == WithoutKeys(kvs, [key])
  {
    if kvs != [] {
      var tail := kvs[1..];
      assert UniqueKeys(tail) by {
        forall i, j | 0 <= i < j < |tail| ensures tail[i].key != tail[j].key {
          assert tail[i] == kvs[i + 1] && tail[j] == kvs[j + 1];
        }
      }
      if kvs[0].key == key {
        forall i | 0 <= i < |tail| ensures tail[i].key !in [key] {
          assert tail[i] == kvs[i + 1];
        }
        WithoutKeysNoOp(tail, [key]);
      } else {
        DeleteKeyFilters(key, tail);
      }
    }
  }

  lemma {:induction false} WithoutKeysUnique(kvs: seq<KeyValue>, ks: seq<string>)
    requires UniqueKeys(kvs)
    ensures UniqueKeys(WithoutKeys(kvs, ks))
  {
    if kvs != [] {
      var tail := kvs[1..];
      UniqueTail(kvs);
      WithoutKeysUnique(tail, ks);
      var rest := WithoutKeys(tail, ks);
      if kvs[0].key !in ks {
        assert WithoutKeys(kvs, ks) == [kvs[0]] + rest;
        UniqueCons(kvs[0], rest);
      } else {
        assert WithoutKeys(kvs, ks) == rest;
      }
    }
  }

  /** The tail of a list with unique keys has unique keys, none of them the head's. */
  lemma UniqueTail(kvs: seq<KeyValue>)
    requires kvs != [] && UniqueKeys(kvs)
    ensures UniqueKeys(kvs[1..])
    ensures forall kv :: kv in kvs[1..] ==> kv.key != kvs[0].key
  {
    var tail := kvs[1..];
    forall i, j | 0 <= i < j < |tail| ensures tail[i].key != tail[j].key {
      assert tail[i] == kvs[i + 1] && tail[j] == kvs[j + 1];
    }
    forall kv | kv in tail ensures kv.key != kvs[0].key {
      var i :| 0 <= i < |tail| && tail[i] == kv;
      assert kvs[i + 1] == kv;
    }
  }

  /** Two lists with unique keys and no key in common concatenate to a list with unique keys. */
  lemma UniqueAppend(d: seq<KeyValue>, t: seq<KeyValue>)
    requires UniqueKeys(d) && UniqueKeys(t)
    requires forall i, j :: 0 <= i < |d| && 0 <= j < |t| ==> d[i].key != t[j].key
    ensures UniqueKeys(d + t)
  {
    var r := d + t;
    forall i, j | 0 <= i < j < |r| ensures r[i].key != r[j].key {
      if j < |d| {
        assert r[i] == d[i] && r[j] == d[j];
      } else if i < |d| {
        assert r[i] == d[i] && r[j] == t[j - |d|];
      } else {
        assert r[i] == t[i - |d|] && r[j] == t[j - |d|];
      }
    }
  }

  /** Putting an entry with a fresh key in front keeps the keys unique. */
  lemma UniqueCons(e: KeyValue, rest: seq<KeyValue>)
    requires UniqueKeys(rest)
    requires forall kv :: kv in rest ==> kv.key != e.key
    ensures UniqueKeys([e] + rest)
  {
    var r := [e] + rest;
    forall i, j | 0 <= i < j < |r| ensures r[i].key != r[j].key {
      assert r[j] == rest[j - 1];
      if i > 0 {
        assert r[i] == rest[i - 1];
      } else {
        assert rest[j - 1] in rest;
      }
    }
  }

  lemma {:induction false} WithoutKeysNoOp(kvs: seq<KeyValue>, ks: seq<string>)
    requires forall i :: 0 <= i < |kvs| ==> kvs[i].key !in ks
    ensures WithoutKeys(kvs, ks) == kvs
  {
    if kvs != [] {
      WithoutKeysNoOp(kvs[1..], ks);
      assert kvs == [kvs[0]] + kvs[1..];
    }
  }

  /** Deleting one key keeps another key absent. */
  lemma {:induction false} DeleteKeyPreservesAbsence(key: string, kvs: seq<KeyValue>, other: string)
    requires other !in Keys(kvs)
    ensures other !in Keys(DeleteKey(key, kvs))
  {
    if kvs != [] {
      assert Keys(kvs) == [kvs[0].key] + Keys(kvs[1..]);
      if kvs[0].key != key {
        DeleteKeyPreservesAbsence(key, kvs[1..], other);
        assert Keys(DeleteKey(key, kvs)) == [kvs[0].key] + Keys(DeleteKey(key, kvs[1..]));
      }
    }
  }

  /** Deleting a key absent from `d` from d + t, where t starts with an entry for the key, drops that entry. */
  lemma {:induction false} DeleteKeyAfter(key: string, d: seq<KeyValue>, t: seq<KeyValue>)
    requires forall i :: 0 <= i < |d| ==> d[i].key != key
    requires |t| >= 1 && t[0].key == key
    ensures DeleteKey(key, d + t) == d + t[1..]
  {
    if d == [] {
      assert d + t == t;
    } else {
      assert d[0].key != key;
      DeleteKeyAfter(key, d[1..], t);
      DeleteKeyAfterStep(key, d, t);
    }
  }

  lemma DeleteKeyAfterStep(key: string, d: seq<KeyValue>, t: seq<KeyValue>)
    requires d != [] && d[0].key != key
    requires |t| >= 1 && DeleteKey(key, d[1..] + t) == d[1..] + t[1..]
    ensures DeleteKey(key, d + t) == d + t[1..]
  {
    var dt := d + t;
    assert dt != [] && dt[0] == d[0] && dt[1..] == d[1..] + t by {
      assert dt[0] == d[0];
    }
    assert DeleteKey(key, dt) == [d[0]] + (d[1..] + t[1..]);
    ConsAppend(d, t[1..]);
  }

  lemma ConsAppend<T>(d: seq<T>, u: seq<T>)
    requires d != []
    ensures [d[0]] + (d[1..] + u) == d + u
  {
    assert [d[0]] + d[1..] == d;
  }

  lemma {:induction false} WithoutKeysAllIn(kvs: seq<KeyValue>, ks: seq<string>)
    requires forall i :: 0 <= i < |kvs| ==> kvs[i].key in ks
    ensures WithoutKeys(kvs, ks) == []
  {
    if kvs != [] {
      assert kvs[0].key in ks;
      WithoutKeysAllIn(kvs[1..], ks);
    }
  }

  /** Deleting, in order, the keys of three entries appended to a list without those keys gives back the list. */
  lemma DeleteThreeAfter(d: seq<KeyValue>, e1: KeyValue, e2: KeyValue, e3: KeyValue)
    requires forall i :: 0 <= i < |d| ==> d[i].key != e1.key && d[i].key != e2.key && d[i].key != e3.key
    ensures DeleteKey(e3.key, DeleteKey(e2.key, DeleteKey(e1.key, d + [e1, e2, e3]))) == d
  {
    DeleteKeyAfter(e1.key, d, [e1, e2, e3]);
    assert [e1, e2, e3][1..] == [e2, e3];
    DeleteKeyAfter(e2.key, d, [e2, e3]);
    assert [e2, e3][1..] == [e3];
    DeleteKeyAfter(e3.key, d, [e3]);
    assert d + [e3][1..] == d;
  }

  /** Appending entries whose keys are all filtered out does not change the filtered list. */
  lemma WithoutKeysAppendDropped(d: seq<KeyValue>, tail: seq<KeyValue>, ks: seq<string>)
    requires forall i :: 0 <= i < |tail| ==> tail[i].key in ks
    ensures WithoutKeys(d + tail, ks) == WithoutKeys(d, ks)
  {
    WithoutKeysAppend(d, tail, ks);
    WithoutKeysAllIn(tail, ks);
    assert WithoutKeys(d, ks) + [] == WithoutKeys(d, ks);
  }
}
