/**
 * `chooseIdFromRecord` and `safeText` of static/app.js: how a search result record is
 * given an identifier, and how a possibly missing value is shown as text.
 */
module SearchRecords {
  import opened Wrappers
  import opened JsValues

  /** A decoded record: its properties in `Object.keys` order. */
  type JsRecord = seq<(string, JsValue)>

  /** `rec[k]`: the value of the first property named `k`, or `undefined`. */
  function Get(rec: JsRecord, k: string): (v: JsValue)
    ensures v != Undefined ==> (k, v) in rec
    ensures (forall i :: 0 <= i < |rec| ==> rec[i].0 != k) ==> v == Undefined
    ensures forall i :: 0 <= i < |rec| && rec[i].0 == k && (forall j :: 0 <= j < i ==> rec[j].0 != k) ==>
      v == rec[i].1
  {
    if rec == [] then Undefined
    else if rec[0].0 == k then rec[0].1
    else
      assert forall i :: 1 <= i < |rec| ==> rec[1..][i - 1] == rec[i];
      Get(rec[1..], k)
  }

  /** `Object.keys(rec)`. */
  function Keys(rec: JsRecord): (ks: seq<string>)
    ensures |ks| == |rec| && forall i :: 0 <= i < |rec| ==> ks[i] == rec[i].0
  {
    seq(|rec|, i requires 0 <= i < |rec| => rec[i].0)
  }

  /** The keys tried first, in order. */
  const PriorityKeys: seq<string> :=
    ["PermitNumber", "PermitNum", "_id", "ID", "OBJECTID", "FID", "ApplicationNumber"]

  /** Whether no key of `keys` has a truthy value in `rec`. */
  predicate AllFalsy(rec: JsRecord, keys: seq<string>) {
    forall j :: 0 <= j < |keys| ==> !Truthy(Get(rec, keys[j]))
  }

  /** The value of the first key in `keys` whose value in `rec` is truthy. */
  function FirstTruthy(rec: JsRecord, keys: seq<string>): (r: Option<JsValue>)
    ensures r.Some? ==> Truthy(r.value)
    ensures r.None? <==> AllFalsy(rec, keys)
  {
    if keys == [] then None
    else if Truthy(Get(rec, keys[0])) then Some(Get(rec, keys[0]))
    else FirstTruthy(rec, keys[1..])
  }

  /** The first truthy key wins: the keys before it are all falsy. */
  lemma {:induction false} FirstTruthyAt(rec: JsRecord, keys: seq<string>, i: nat)
    requires i < |keys| && Truthy(Get(rec, keys[i]))
    requires forall j :: 0 <= j < i ==> !Truthy(Get(rec, keys[j]))
    ensures FirstTruthy(rec, keys) == Some(Get(rec, keys[i]))
  {
    if i > 0 {
      FirstTruthyAt(rec, keys[1..], i - 1);
    }
  }

  /** Reference definition of `chooseIdFromRecord`; `None` is a null or missing record. */
  function RecordId(rec: Option<JsRecord>): string {
    if rec.None? then "unknown"
    else
      match FirstTruthy(rec.value, PriorityKeys)
      case Some(v) => ToJsString(v)
      case None =>
        match FirstTruthy(rec.value, Keys(rec.value))
        case Some(v) => ToJsString(v)
        case None => "unknown"
  }

  /** `chooseIdFromRecord`: the priority keys in order, then every key in order, each loop
      returning the first truthy value as a string; "unknown" when there is none. */
  method ChooseIdFromRecord(rec: Option<JsRecord>) returns (id: string)
    ensures id == RecordId(rec)
  {
    if rec.None? {
      return "unknown";
    }
    var r := rec.value;
    var i := 0;
    while i < |PriorityKeys|
      invariant i <= |PriorityKeys|
      invariant FirstTruthy(r, PriorityKeys) == FirstTruthy(r, PriorityKeys[i..])
    {
      var v := Get(r, PriorityKeys[i]);
      if Truthy(v) {
        return ToJsString(v);
      }
      assert PriorityKeys[i..][1..] == PriorityKeys[i + 1..];
      i := i + 1;
    }
    var keys := Keys(r);
    var n := 0;
    while n < |keys|
      invariant n <= |keys|
      invariant FirstTruthy(r, keys) == FirstTruthy(r, keys[n..])
    {
      var v := Get(r, keys[n]);
      if Truthy(v) {
        return ToJsString(v);
      }
      assert keys[n..][1..] == keys[n + 1..];
      n := n + 1;
    }
    return "unknown";
  }

  /** A null or missing record has the id "unknown". */
  lemma NoRecordIsUnknown()
    ensures RecordId(None) == "unknown"
  {
  }

  /** The first truthy priority key gives the id, whatever else the record holds. */
  lemma RecordIdPriority(rec: JsRecord, i: nat)
    requires i < |PriorityKeys| && Truthy(Get(rec, PriorityKeys[i]))
    requires forall j :: 0 <= j < i ==> !Truthy(Get(rec, PriorityKeys[j]))
    ensures RecordId(Some(rec)) == ToJsString(Get(rec, PriorityKeys[i]))
  {
    FirstTruthyAt(rec, PriorityKeys, i);
  }

  /** With every priority key falsy, the first property in key order whose value is truthy
      gives the id. */
  lemma RecordIdFallback(rec: JsRecord, i: nat)
    requires AllFalsy(rec, PriorityKeys)
    requires i < |rec| && Truthy(Get(rec, rec[i].0))
    requires AllFalsy(rec, Keys(rec)[..i])
    ensures RecordId(Some(rec)) == ToJsString(Get(rec, rec[i].0))
  {
    var keys := Keys(rec);
    assert FirstTruthy(rec, PriorityKeys) == None;
    assert forall j :: 0 <= j < i ==> keys[..i][j] == keys[j];
    FirstTruthyAt(rec, keys, i);
  }

  /** The id is "unknown" when nothing in the record is truthy, and is never empty: a
      truthy value's string form has at least one character. */
  lemma RecordIdCases(rec: Option<JsRecord>)
    ensures rec.Some? &&
            AllFalsy(rec.value, PriorityKeys) && AllFalsy(rec.value, Keys(rec.value)) ==>
      RecordId(rec) == "unknown"
    ensures RecordId(rec) != ""
  {
  }

  /** `safeText`: "" for `null` and `undefined`, `String(v)` otherwise. */
  function SafeText(v: JsValue): (r: string)
    ensures r == "" <==> v == Null || v == Undefined || v == Str("")
    ensures v.Str? ==> r == v.s
    ensures v.Number? ==> r == IntToDecimal(v.n)
  {
    if v == Null || v == Undefined then "" else ToJsString(v)
  }
}
