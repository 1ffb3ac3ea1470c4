/**
  Web-action shaping (utils/webaction.go): a web mode decides the values of
  the three annotations web-export, raw-http and final. Earlier entries for
  those keys are deleted first and the three are appended in that order.
 */
module WebActions {
  import opened Whisk
  import opened Strs
  import opened KeyValues

  const WEB_EXPORT_ANNOT := "web-export"
  const RAW_HTTP_ANNOT := "raw-http"
  const FINAL_ANNOT := "final"

  const WebKeys: seq<string> := [WEB_EXPORT_ANNOT, RAW_HTTP_ANNOT, FINAL_ANNOT]

  /** The three modes the switch tells apart, after lower-casing. */
  datatype Mode = WebOn | WebOff | Raw

  /** The lower-cased mode: "yes" and "true" turn web export on, "no" and "false" off, "raw" raw; anything else is an error. */
  function ParseMode(webMode: string): (r: Option<Mode>)
    ensures r == Some(WebOn) <==> Lower(webMode) in {"yes", "true"}
    ensures r == Some(WebOff) <==> Lower(webMode) in {"no", "false"}
    ensures r == Some(Raw) <==> Lower(webMode) == "raw"
  {
    var m := Lower(webMode);
    if m == "yes" || m == "true" then Some(WebOn)
    else if m == "no" || m == "false" then Some(WebOff)
    else if m == "raw" then Some(Raw)
    else None
  }

  /** deleteWebAnnotationKeys: the first entry of each of the three keys removed. */
  function DeleteWebAnnotationKeys(a: seq<KeyValue>): seq<KeyValue> {
    DeleteKey(FINAL_ANNOT, DeleteKey(RAW_HTTP_ANNOT, DeleteKey(WEB_EXPORT_ANNOT, a)))
  }

  /** The three annotation values a mode stands for: (web-export, raw-http, final). */
  function ModeFlags(m: Mode): (bool, bool, bool) {
    match m
    case WebOn => (true, false, true)
    case WebOff => (false, false, false)
    case Raw => (true, true, true)
  }

  /** The three entries a mode appends, in the order the helpers append them. */
  function WebTriple(m: Mode): (t: seq<KeyValue>)
    ensures |t| == 3
  {
    var (web, raw, final) := ModeFlags(m);
    [KeyValue(WEB_EXPORT_ANNOT, BoolValue(web)), KeyValue(RAW_HTTP_ANNOT, BoolValue(raw)), KeyValue(FINAL_ANNOT, BoolValue(final))]
  }

  /** The appended entries carry the three keys, one each, in the order of WebKeys. */
  lemma WebTripleKeys(m: Mode)
    ensures forall i :: 0 <= i < 3 ==> WebTriple(m)[i].key == WebKeys[i]
    ensures UniqueKeys(WebTriple(m))
  {
    assert |WEB_EXPORT_ANNOT| == 10 && |RAW_HTTP_ANNOT| == 8 && |FINAL_ANNOT| == 5;
  }

  /**
    addWebAnnotations, deleteWebAnnotations and addRawAnnotations: the three
    keys deleted, then appended with the mode's values.
   */
  function ApplyMode(m: Mode, a: seq<KeyValue>): (r: seq<KeyValue>)
    ensures r == DeleteWebAnnotationKeys(a) + WebTriple(m)
  {
    var (web, raw, final) := ModeFlags(m);
    var d := DeleteWebAnnotationKeys(a);
    AddKeyValue(FINAL_ANNOT, BoolValue(final),
      AddKeyValue(RAW_HTTP_ANNOT, BoolValue(raw),
        AddKeyValue(WEB_EXPORT_ANNOT, BoolValue(web), d)))
  }

  /**
    webActionAnnotations: a nil list is left nil when annotations are being
    fetched from the server; otherwise the mode's annotations are applied
    (a nil list behaves as the empty one).
   */
  function WebActionAnnotations(fetch: bool, annotations: Option<seq<KeyValue>>, m: Mode): (r: Option<seq<KeyValue>>)
    ensures r.None? <==> annotations.None? && fetch
    ensures annotations.Some? ==> r == Some(ApplyMode(m, annotations.value))
    ensures annotations.None? && !fetch ==> r == Some(ApplyMode(m, []))
  {
    if annotations.Some? then Some(ApplyMode(m, annotations.value))
    else if !fetch then Some(ApplyMode(m, []))
    else None
  }

  /** WebAction: the annotations for a web mode, or an error naming the mode when it is not one of the five. */
  function WebAction(webMode: string, annotations: Option<seq<KeyValue>>, fetch: bool): (r: Result<Option<seq<KeyValue>>>)
    ensures r.Err? <==> ParseMode(webMode).None?
    ensures r.Err? ==> r.error == WebModeError(webMode)
    ensures r.Ok? ==> r.value == WebActionAnnotations(fetch, annotations, ParseMode(webMode).value)
  {
    match ParseMode(webMode)
    case None => Err(WebModeError(webMode))
    case Some(m) => Ok(WebActionAnnotations(fetch, annotations, m))
  }

  /** Mode names are compared without regard to case. */
  lemma {:induction false} WebActionCaseInsensitive(webMode: string, annotations: Option<seq<KeyValue>>, fetch: bool)
    ensures WebAction(webMode, annotations, fetch).Ok? ==>
      WebAction(webMode, annotations, fetch) == WebAction(Lower(webMode), annotations, fetch)
  {
    LowerIdempotent(webMode);
  }

  /** "yes" and "true", in any case, add web-export true, raw-http false and final true after the other annotations. */
  lemma WebActionYes(webMode: string, a: seq<KeyValue>, fetch: bool)
    requires Lower(webMode) in {"yes", "true"}
    ensures WebAction(webMode, Some(a), fetch) == Ok(Some(DeleteWebAnnotationKeys(a) + [
      KeyValue(WEB_EXPORT_ANNOT, BoolValue(true)),
      KeyValue(RAW_HTTP_ANNOT, BoolValue(false)),
      KeyValue(FINAL_ANNOT, BoolValue(true))]))
  {
  }

  /** "raw", in any case, sets all three annotations to true. */
  lemma WebActionRaw(webMode: string, a: seq<KeyValue>, fetch: bool)
    requires Lower(webMode) == "raw"
    ensures WebAction(webMode, Some(a), fetch) == Ok(Some(DeleteWebAnnotationKeys(a) + [
      KeyValue(WEB_EXPORT_ANNOT, BoolValue(true)),
      KeyValue(RAW_HTTP_ANNOT, BoolValue(true)),
      KeyValue(FINAL_ANNOT, BoolValue(true))]))
  {
  }

  /** "no" and "false" set all three annotations to false. */
  lemma WebActionNo(webMode: string, a: seq<KeyValue>, fetch: bool)
    requires Lower(webMode) in {"no", "false"}
    ensures WebAction(webMode, Some(a), fetch) == Ok(Some(DeleteWebAnnotationKeys(a) + [
      KeyValue(WEB_EXPORT_ANNOT, BoolValue(false)),
      KeyValue(RAW_HTTP_ANNOT, BoolValue(false)),
      KeyValue(FINAL_ANNOT, BoolValue(false))]))
  {
  }

  /** Any other mode is an error naming the mode as given, and the annotations are not returned. */
  lemma WebActionInvalid(webMode: string, annotations: Option<seq<KeyValue>>, fetch: bool)
    requires !(Lower(webMode) in {"yes", "true", "no", "false", "raw"})
    ensures WebAction(webMode, annotations, fetch) == Err(WebModeError(webMode))
  {
  }

  /** Entries with keys other than the three keep their relative order. */
  lemma {:induction false} ApplyModeKeepsOthers(m: Mode, a: seq<KeyValue>)
    ensures WithoutKeys(ApplyMode(m, a), WebKeys) == WithoutKeys(a, WebKeys)
  {
    DeleteWebKeysKeepsOthers(a);
    WebTripleKeys(m);
    WithoutKeysAppendDropped(DeleteWebAnnotationKeys(a), WebTriple(m), WebKeys);
  }

  lemma DeleteWebKeysKeepsOthers(a: seq<KeyValue>)
    ensures WithoutKeys(DeleteWebAnnotationKeys(a), WebKeys) == WithoutKeys(a, WebKeys)
  {
    var d1 := DeleteKey(WEB_EXPORT_ANNOT, a);
    var d2 := DeleteKey(RAW_HTTP_ANNOT, d1);
    DeleteKeyKeepsOthers(WEB_EXPORT_ANNOT, a, WebKeys);
    DeleteKeyKeepsOthers(RAW_HTTP_ANNOT, d1, WebKeys);
    DeleteKeyKeepsOthers(FINAL_ANNOT, d2, WebKeys);
  }

  /** With every key at most once, a mode's annotations appear exactly once each, at the end. */
  lemma {:induction false} ApplyModeUnique(m: Mode, a: seq<KeyValue>)
    requires UniqueKeys(a)
    ensures UniqueKeys(ApplyMode(m, a))
    ensures WithoutKeys(ApplyMode(m, a), WebKeys) == WithoutKeys(a, WebKeys)
  {
    ApplyModeKeepsOthers(m, a);
    var d := DeleteWebAnnotationKeys(a);
    var t := WebTriple(m);
    DeleteWebKeysAbsent(a);
    WebTripleKeys(m);
    forall i, j | 0 <= i < |d| && 0 <= j < |t| ensures d[i].key != t[j].key {
      assert t[j].key == WebKeys[j];
    }
    UniqueAppend(d, t);
  }

  /** On a list with unique keys, deleting the three keys leaves none of them and keeps the keys unique. */
  lemma {:induction false} DeleteWebKeysAbsent(a: seq<KeyValue>)
    requires UniqueKeys(a)
    ensures UniqueKeys(DeleteWebAnnotationKeys(a))
    ensures forall k :: k in WebKeys ==> k !in Keys(DeleteWebAnnotationKeys(a))
    ensures var d := DeleteWebAnnotationKeys(a); forall i :: 0 <= i < |d| ==> d[i].key !in WebKeys
  {
    var d1 := DeleteKey(WEB_EXPORT_ANNOT, a);
    var d2 := DeleteKey(RAW_HTTP_ANNOT, d1);
    var d := DeleteKey(FINAL_ANNOT, d2);
    assert d == DeleteWebAnnotationKeys(a);
    DeleteKeyUnique(WEB_EXPORT_ANNOT, a);
    DeleteKeyUnique(RAW_HTTP_ANNOT, d1);
    DeleteKeyUnique(FINAL_ANNOT, d2);
    DeleteKeyPreservesAbsence(RAW_HTTP_ANNOT, d1, WEB_EXPORT_ANNOT);
    DeleteKeyPreservesAbsence(FINAL_ANNOT, d2, WEB_EXPORT_ANNOT);
    DeleteKeyPreservesAbsence(FINAL_ANNOT, d2, RAW_HTTP_ANNOT);
    var ks := Keys(d);
    assert WEB_EXPORT_ANNOT !in ks && RAW_HTTP_ANNOT !in ks && FINAL_ANNOT !in ks;
    forall i | 0 <= i < |d| ensures d[i].key !in WebKeys {
      assert d[i].key == ks[i];
    }
  }

  /** Applying a mode twice is applying it once, on a list with unique keys. */
  lemma {:induction false} ApplyModeIdempotent(m: Mode, a: seq<KeyValue>)
    requires UniqueKeys(a)
    ensures ApplyMode(m, ApplyMode(m, a)) == ApplyMode(m, a)
  {
    DeleteWebKeysAbsent(a);
    DeleteTail(DeleteWebAnnotationKeys(a), m);
  }

  /** Deleting the three keys from a list ending in the mode's three entries strips exactly those entries. */
  lemma {:induction false} DeleteTail(d: seq<KeyValue>, m: Mode)
    requires forall i :: 0 <= i < |d| ==> d[i].key !in WebKeys
    ensures DeleteWebAnnotationKeys(d + WebTriple(m)) == d
  {
    var tail := WebTriple(m);
    forall i | 0 <= i < |d|
      ensures d[i].key != WEB_EXPORT_ANNOT && d[i].key != RAW_HTTP_ANNOT && d[i].key != FINAL_ANNOT
    {
      assert d[i].key !in WebKeys;
    }
    DeleteThreeAfter(d, tail[0], tail[1], tail[2]);
  }

  /** Turning web export off after turning it on leaves the same list as turning it off directly. */
  lemma {:induction false} WebOffAfterWebOn(a: seq<KeyValue>)
    requires UniqueKeys(a)
    ensures ApplyMode(WebOff, ApplyMode(WebOn, a)) == ApplyMode(WebOff, a)
  {
    DeleteWebKeysAbsent(a);
    DeleteTail(DeleteWebAnnotationKeys(a), WebOn);
  }
}
