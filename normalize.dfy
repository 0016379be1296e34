/**
 * FListApiClient.fixupContent: the walk over a decoded API response that
 * replaces every string stored under a key containing "datetime_" by the
 * instant parseDate reads from it.
 *
 * The walk is a for-in loop over the keys of one object (or the indices of
 * one array) that overwrites entries in place and recurses into the values
 * isObject accepts: objects, Date objects included, but never arrays. An
 * array is therefore only walked when it is the value the walk starts from.
 */
module Normalize {
  import opened Wrappers
  import opened Calendar
  import opened RelativeTime

  /** A decoded JSON value, plus the Date objects the walk stores into it. */
  datatype Json =
    | JNull
    | JBool(b: bool)
    | JNumber(n: real)
    | JString(s: string)
    | JArray(elements: seq<Json>)
    | JObject(fields: seq<Field>)
    | JDate(time: Num)

  /**
   * One own property of an object, in enumeration order. A parsed object
   * holds each key once (`DistinctKeys`); a tree with a repeated key stands
   * for no JavaScript value.
   */
  datatype Field = Field(key: string, value: Json)

  /** No two entries of an object share a key. */
  predicate UniqueKeys(fs: seq<Field>) {
    forall i, j :: 0 <= i < j < |fs| ==> fs[i].key != fs[j].key
  }

  /** What JSON.parse leaves: every object in the tree holds each key at most once. */
  predicate DistinctKeys(v: Json)
    decreases v
  {
    match v
    case JObject(fs) => UniqueKeys(fs) && forall i :: 0 <= i < |fs| ==> DistinctKeys(fs[i].value)
    case JArray(es) => forall i :: 0 <= i < |es| ==> DistinctKeys(es[i])
    case _ => true
  }

  /** isObject: typeof is 'object', not null and not an array; a Date is one. */
  predicate IsObject(v: Json) {
    v.JObject? || v.JDate?
  }

  const Marker: string := "datetime_"

  /** `sub` occurs in `s` at index `i`. */
  predicate OccursAt(s: string, sub: string, i: int) {
    0 <= i && i + |sub| <= |s| && s[i..i + |sub|] == sub
  }

  /** `key.includes('datetime_')`: a key whose string value the walk converts. */
  predicate IsMarker(key: string)
    ensures IsMarker(key) ==> |Marker| <= |key|
    ensures |Marker| <= |key| && key[..|Marker|] == Marker ==> IsMarker(key)
  {
    assert |Marker| <= |key| && key[..|Marker|] == Marker ==> OccursAt(key, Marker, 0);
    exists i | 0 <= i <= |key| :: OccursAt(key, Marker, i)
  }

  /** A key is a marker exactly when it has "datetime_" at its start or a marker after its first character. */
  lemma {:induction false} MarkerSearch(key: string)
    ensures IsMarker(key) <==> |Marker| <= |key| && (key[..|Marker|] == Marker || IsMarker(key[1..]))
  {
    if IsMarker(key) {
      var i :| 0 <= i <= |key| && OccursAt(key, Marker, i);
      if i > 0 {
        assert key[1..][i - 1..i - 1 + |Marker|] == key[i..i + |Marker|];
        assert OccursAt(key[1..], Marker, i - 1);
      }
    }
    if |Marker| <= |key| {
      if key[..|Marker|] == Marker {
        assert OccursAt(key, Marker, 0);
      } else if IsMarker(key[1..]) {
        var i :| 0 <= i <= |key[1..]| && OccursAt(key[1..], Marker, i);
        assert key[i + 1..i + 1 + |Marker|] == key[1..][i..i + |Marker|];
        assert OccursAt(key, Marker, i + 1);
      }
    }
  }

  // ---- the walk, as a function of the tree ----

  /** What the walk leaves in one entry of an object. */
  function FixupField(f: Field, now: int): (r: Field)
    ensures r.key == f.key
    decreases f, 1
  {
    if f.value.JString? && IsMarker(f.key) then Field(f.key, JDate(ParseDateValue(f.value.s, now)))
    else if IsObject(f.value) then Field(f.key, Normalized(f.value, now))
    else f
  }

  /** The entries of an object after the walk; keys and their order stay. */
  function FixupFields(fs: seq<Field>, now: int): (r: seq<Field>)
    ensures |r| == |fs|
    decreases fs
  {
    if fs == [] then [] else [FixupField(fs[0], now)] + FixupFields(fs[1..], now)
  }

  lemma {:induction false} FixupFieldsAt(fs: seq<Field>, i: nat, now: int)
    requires i < |fs|
    ensures FixupFields(fs, now)[i] == FixupField(fs[i], now)
    decreases i
  {
    if i > 0 {
      FixupFieldsAt(fs[1..], i - 1, now);
    }
  }

  /** What the walk leaves in one element of an array it starts from: an index never contains the marker. */
  function FixupElement(e: Json, now: int): Json
    decreases e, 1
  {
    if IsObject(e) then Normalized(e, now) else e
  }

  function FixupElements(es: seq<Json>, now: int): (r: seq<Json>)
    ensures |r| == |es|
    decreases es
  {
    if es == [] then [] else [FixupElement(es[0], now)] + FixupElements(es[1..], now)
  }

  lemma {:induction false} FixupElementsAt(es: seq<Json>, i: nat, now: int)
    requires i < |es|
    ensures FixupElements(es, now)[i] == FixupElement(es[i], now)
    decreases i
  {
    if i > 0 {
      FixupElementsAt(es[1..], i - 1, now);
    }
  }

  /** The tree fixupContent leaves behind when the clock reads `now`. Anything but an object or array stays as it is. */
  function Normalized(v: Json, now: int): Json
    decreases v, 0
  {
    match v
    case JObject(fs) => JObject(FixupFields(fs, now))
    case JArray(es) => JArray(FixupElements(es, now))
    case _ => v
  }

  // ---- the walk, in place ----

  /**
   * FixupContent: the for-in loop over one object's keys, or one array's
   * indices, overwriting each entry it converts or recurses into.
   */
  method FixupContent(v: Json, now: int) returns (r: Json)
    requires InTimeRange(now)
    ensures r == Normalized(v, now)
    decreases v, 1
  {
    match v
    case JObject(fs) =>
      var fields := FixupObject(fs, now);
      r := JObject(fields);
    case JArray(es) =>
      var elements := FixupArray(es, now);
      r := JArray(elements);
    case _ =>
      r := v;
  }

  /** The loop over the keys of one object. */
  method FixupObject(fs: seq<Field>, now: int) returns (fields: seq<Field>)
    requires InTimeRange(now)
    ensures fields == FixupFields(fs, now)
    decreases fs
  {
    fields := fs;
    var k := 0;
    while k < |fs|
      invariant 0 <= k <= |fs| && |fields| == |fs|
      invariant forall i :: 0 <= i < k ==> fields[i] == FixupField(fs[i], now)
      invariant forall i :: k <= i < |fs| ==> fields[i] == fs[i]
    {
      var key, data := fs[k].key, fs[k].value;
      if data.JString? && IsMarker(key) {
        var date := ParseDate(data.s, now);
        fields := fields[k := Field(key, JDate(date.time))];
      } else if IsObject(data) {
        var fixed := FixupContent(data, now);
        fields := fields[k := Field(key, fixed)];
      }
      k := k + 1;
    }
    forall i | 0 <= i < |fs|
      ensures fields[i] == FixupFields(fs, now)[i]
    {
      FixupFieldsAt(fs, i, now);
    }
  }

  /** The loop over the indices of the array the walk starts from. */
  method FixupArray(es: seq<Json>, now: int) returns (elements: seq<Json>)
    requires InTimeRange(now)
    ensures elements == FixupElements(es, now)
    decreases es
  {
    elements := es;
    var k := 0;
    while k < |es|
      invariant 0 <= k <= |es| && |elements| == |es|
      invariant forall i :: 0 <= i < k ==> elements[i] == FixupElement(es[i], now)
      invariant forall i :: k <= i < |es| ==> elements[i] == es[i]
    {
      if IsObject(es[k]) {
        var fixed := FixupContent(es[k], now);
        elements := elements[k := fixed];
      }
      k := k + 1;
    }
    forall i | 0 <= i < |es|
      ensures elements[i] == FixupElements(es, now)[i]
    {
      FixupElementsAt(es, i, now);
    }
  }

  // ---- what the walk does ----

  /** Some object the walk visits holds a string under a marker key. */
  predicate MarkerIn(v: Json)
    decreases v, 2
  {
    match v
    case JObject(fs) => MarkerInFields(fs)
    case JArray(es) => exists i :: 0 <= i < |es| && IsObject(es[i]) && MarkerIn(es[i])
    case _ => false
  }

  predicate MarkerInFields(fs: seq<Field>)
    decreases fs
  {
    fs != [] && (MarkerInField(fs[0]) || MarkerInFields(fs[1..]))
  }

  predicate MarkerInField(f: Field)
    decreases f, 0
  {
    (f.value.JString? && IsMarker(f.key)) || (IsObject(f.value) && MarkerIn(f.value))
  }

  /** Without a string under a marker key anywhere the walk goes, the walk changes nothing. */
  lemma {:induction false} UnmarkedUnchanged(v: Json, now: int)
    requires !MarkerIn(v)
    ensures Normalized(v, now) == v
    decreases v, 2
  {
    match v
    case JObject(fs) =>
      UnmarkedFieldsUnchanged(fs, now);
    case JArray(es) =>
      forall i | 0 <= i < |es|
        ensures FixupElements(es, now)[i] == es[i]
      {
        FixupElementsAt(es, i, now);
        if IsObject(es[i]) {
          UnmarkedUnchanged(es[i], now);
        }
      }
      assert FixupElements(es, now) == es;
    case _ =>
  }

  lemma {:induction false} UnmarkedFieldsUnchanged(fs: seq<Field>, now: int)
    requires !MarkerInFields(fs)
    ensures FixupFields(fs, now) == fs
    decreases fs
  {
    if fs != [] {
      if IsObject(fs[0].value) {
        UnmarkedUnchanged(fs[0].value, now);
      }
      UnmarkedFieldsUnchanged(fs[1..], now);
    }
  }

  /** The walk leaves no string under a marker key anywhere it goes. */
  lemma {:induction false} NormalizedUnmarked(v: Json, now: int)
    ensures !MarkerIn(Normalized(v, now))
    decreases v, 2
  {
    match v
    case JObject(fs) =>
      NormalizedFieldsUnmarked(fs, now);
    case JArray(es) =>
      var r := FixupElements(es, now);
      forall i | 0 <= i < |r| && IsObject(r[i])
        ensures !MarkerIn(r[i])
      {
        FixupElementsAt(es, i, now);
        NormalizedUnmarked(es[i], now);
      }
    case _ =>
  }

  lemma {:induction false} NormalizedFieldsUnmarked(fs: seq<Field>, now: int)
    ensures !MarkerInFields(FixupFields(fs, now))
    decreases fs
  {
    if fs != [] {
      var r := FixupFields(fs, now);
      assert r[1..] == FixupFields(fs[1..], now);
      NormalizedFieldUnmarked(fs[0], now);
      NormalizedFieldsUnmarked(fs[1..], now);
    }
  }

  lemma {:induction false} NormalizedFieldUnmarked(f: Field, now: int)
    ensures !MarkerInField(FixupField(f, now))
    decreases f, 1
  {
    if !(f.value.JString? && IsMarker(f.key)) && IsObject(f.value) {
      NormalizedUnmarked(f.value, now);
    }
  }

  /** Running the walk a second time changes nothing. */
  lemma Idempotent(v: Json, now: int, later: int)
    ensures Normalized(Normalized(v, now), later) == Normalized(v, now)
  {
    NormalizedUnmarked(v, now);
    UnmarkedUnchanged(Normalized(v, now), later);
  }

  /**
   * An entry the walk neither converts nor enters stays as it is: a value
   * that is not a string under a marker key and not an object, such as a
   * number under a marker key or an array with objects in it.
   */
  lemma ValuesNotWalked(fs: seq<Field>, i: nat, now: int)
    requires i < |fs| && !(fs[i].value.JString? && IsMarker(fs[i].key)) && !IsObject(fs[i].value)
    ensures FixupFields(fs, now)[i] == fs[i]
  {
    FixupFieldsAt(fs, i, now);
  }

  /** The walk keeps every object's keys, so a tree JSON.parse could give stays one. */
  lemma {:induction false} NormalizedKeepsDistinctKeys(v: Json, now: int)
    requires DistinctKeys(v)
    ensures DistinctKeys(Normalized(v, now))
    decreases v
  {
    match v
    case JObject(fs) =>
      var gs := FixupFields(fs, now);
      forall i | 0 <= i < |fs|
        ensures gs[i].key == fs[i].key && DistinctKeys(gs[i].value)
      {
        FixupFieldsAt(fs, i, now);
        if !(fs[i].value.JString? && IsMarker(fs[i].key)) && IsObject(fs[i].value) {
          NormalizedKeepsDistinctKeys(fs[i].value, now);
        }
      }
    case JArray(es) =>
      var gs := FixupElements(es, now);
      forall i | 0 <= i < |es|
        ensures DistinctKeys(gs[i])
      {
        FixupElementsAt(es, i, now);
        if IsObject(es[i]) {
          NormalizedKeepsDistinctKeys(es[i], now);
        }
      }
    case _ =>
  }

  /** A string under a marker key becomes the instant parseDate reads from it, never later than `now`. */
  lemma MarkedStringBecomesDate(fs: seq<Field>, i: nat, now: int)
    requires i < |fs| && fs[i].value.JString? && IsMarker(fs[i].key)
    ensures FixupFields(fs, now)[i] == Field(fs[i].key, JDate(ParseDateValue(fs[i].value.s, now)))
    ensures NotAfter(FixupFields(fs, now)[i].value.time, now)
  {
    FixupFieldsAt(fs, i, now);
    ParseDateNotLater(fs[i].value.s, now);
  }

  // ---- the hasOwnProperty guard as written ----

  /** An object has its own "hasOwnProperty" entry, which hides the inherited method. */
  predicate ShadowsHasOwnProperty(fs: seq<Field>) {
    exists i :: 0 <= i < |fs| && fs[i].key == "hasOwnProperty"
  }

  /** Why the walk as written stops: `obj.hasOwnProperty` is not a function. */
  const NotAFunction: string := "TypeError: obj.hasOwnProperty is not a function"

  /**
   * The walk exactly as written: the guard calls `obj.hasOwnProperty(key)`
   * on the first key of every object it visits, which throws when the object
   * has an own entry of that name.
   */
  function AsWritten(v: Json, now: int): (r: Result<Json, string>)
    decreases v, 2
  {
    match v
    case JObject(fs) =>
      if ShadowsHasOwnProperty(fs) then Failure(NotAFunction)
      else
        var r := AsWrittenFields(fs, now);
        if r.Failure? then Failure(r.error) else Success(JObject(r.value))
    case JArray(es) =>
      var r := AsWrittenElements(es, now);
      if r.Failure? then Failure(r.error) else Success(JArray(r.value))
    case _ => Success(v)
  }

  function AsWrittenFields(fs: seq<Field>, now: int): Result<seq<Field>, string>
    decreases fs
  {
    if fs == [] then Success([])
    else
      var f := fs[0];
      var head :=
        if f.value.JString? && IsMarker(f.key) then Success(JDate(ParseDateValue(f.value.s, now)))
        else if IsObject(f.value) then AsWritten(f.value, now)
        else Success(f.value);
      var tail := AsWrittenFields(fs[1..], now);
      if head.Failure? then Failure(head.error)
      else if tail.Failure? then Failure(tail.error)
      else Success([Field(f.key, head.value)] + tail.value)
  }

  function AsWrittenElements(es: seq<Json>, now: int): Result<seq<Json>, string>
    decreases es
  {
    if es == [] then Success([])
    else
      var head := if IsObject(es[0]) then AsWritten(es[0], now) else Success(es[0]);
      var tail := AsWrittenElements(es[1..], now);
      if head.Failure? then Failure(head.error)
      else if tail.Failure? then Failure(tail.error)
      else Success([head.value] + tail.value)
  }

  /** A response holding `{"hasOwnProperty": 1}` makes the walk as written throw instead of returning the tree. */
  lemma ShadowedGuardThrows(now: int, v: Json)
    requires v == JObject([Field("hasOwnProperty", JNumber(1.0))])
    ensures AsWritten(v, now) == Failure(NotAFunction)
    ensures Normalized(v, now) == v
  {
    assert ShadowsHasOwnProperty(v.fields) by {
      assert v.fields[0].key == "hasOwnProperty";
    }
  }

  /** Some object the walk visits has an own "hasOwnProperty" entry. */
  predicate ShadowIn(v: Json)
    decreases v, 2
  {
    match v
    case JObject(fs) => ShadowsHasOwnProperty(fs) || ShadowInFields(fs)
    case JArray(es) => exists i :: 0 <= i < |es| && IsObject(es[i]) && ShadowIn(es[i])
    case _ => false
  }

  predicate ShadowInFields(fs: seq<Field>)
    decreases fs
  {
    fs != [] && ((!(fs[0].value.JString? && IsMarker(fs[0].key)) && IsObject(fs[0].value) && ShadowIn(fs[0].value))
                 || ShadowInFields(fs[1..]))
  }

  /** Wherever no visited object shadows the method, the walk as written is the walk the rest of the model uses. */
  lemma {:induction false} AsWrittenAgrees(v: Json, now: int)
    requires !ShadowIn(v)
    ensures AsWritten(v, now) == Success(Normalized(v, now))
    decreases v, 2
  {
    match v
    case JObject(fs) =>
      AsWrittenFieldsAgree(fs, now);
    case JArray(es) =>
      AsWrittenElementsAgree(es, now);
    case _ =>
  }

  lemma {:induction false} AsWrittenFieldsAgree(fs: seq<Field>, now: int)
    requires !ShadowInFields(fs)
    ensures AsWrittenFields(fs, now) == Success(FixupFields(fs, now))
    decreases fs
  {
    if fs != [] {
      var f := fs[0];
      if !(f.value.JString? && IsMarker(f.key)) && IsObject(f.value) {
        AsWrittenAgrees(f.value, now);
      }
      AsWrittenFieldsAgree(fs[1..], now);
    }
  }

  lemma {:induction false} AsWrittenElementsAgree(es: seq<Json>, now: int)
    requires forall i :: 0 <= i < |es| && IsObject(es[i]) ==> !ShadowIn(es[i])
    ensures AsWrittenElements(es, now) == Success(FixupElements(es, now))
    decreases es
  {
    if es != [] {
      if IsObject(es[0]) {
        AsWrittenAgrees(es[0], now);
      }
      AsWrittenElementsAgree(es[1..], now);
    }
  }
}
