/**
 A value produced by `JSON.parse`, with the JavaScript views of it the import
 handlers use: truthiness, `typeof … === 'object'`, property reads and the
 `Object.keys` enumeration.
 */
module Json {
  import opened Wrappers
  import opened JsString

  /**
   A parsed JSON value. An object keeps its members in source-text order, duplicates
   included; `Member` gives them the values `JSON.parse` does, and `OwnEntries`
   enumerates them (in first-occurrence order, see `ObjectEntries`).
   Numbers are kept as reals: only their truthiness matters here.
   */
  datatype Json =
    | JNull
    | JBool(b: bool)
    | JNumber(n: real)
    | JString(s: string)
    | JArray(items: seq<Json>)
    | JObject(members: seq<(string, Json)>)

  /** JavaScript truthiness; `None` stands for `undefined`. Empty arrays and objects are truthy. */
  predicate Truthy(v: Option<Json>) {
    match v
    case None => false
    case Some(JNull) => false
    case Some(JBool(b)) => b
    case Some(JNumber(n)) => n != 0.0
    case Some(JString(s)) => s != ""
    case Some(_) => true
  }

  /** `a || b`. */
  function Or(a: Option<Json>, b: Json): (r: Json)
    ensures Truthy(a) ==> Some(r) == a
    ensures !Truthy(a) ==> r == b
  {
    if Truthy(a) then a.value else b
  }

  /** `typeof v === 'object'` (which holds of `null` and of arrays too). */
  predicate IsObjectTyped(v: Json) {
    v.JNull? || v.JArray? || v.JObject?
  }

  /** The set of keys listed in a member sequence. */
  function KeysOf(es: seq<(string, Json)>): set<string> {
    set i | 0 <= i < |es| :: es[i].0
  }

  /** No key is listed twice. */
  predicate DistinctKeys(es: seq<(string, Json)>) {
    forall i, j :: 0 <= i < j < |es| ==> es[i].0 != es[j].0
  }

  /** The value `JSON.parse` gives member `name`: a repeated key keeps its LAST value. */
  function Member(es: seq<(string, Json)>, name: string): (r: Option<Json>)
    ensures r.Some? <==> name in KeysOf(es)
    ensures r.Some? ==> exists i :: 0 <= i < |es| && es[i] == (name, r.value)
    ensures DistinctKeys(es) ==> forall i :: 0 <= i < |es| && es[i].0 == name ==> r == Some(es[i].1)
    ensures forall i :: 0 <= i < |es| && es[i].0 == name && (forall j :: i < j < |es| ==> es[j].0 != name) ==>
              r == Some(es[i].1)
  {
    if |es| == 0 then None
    else
      var last := es[|es| - 1];
      var prefix := es[..|es| - 1];
      assert KeysOf(es) == KeysOf(prefix) + {last.0} by {
        assert forall i :: 0 <= i < |prefix| ==> prefix[i] == es[i];
      }
      if last.0 == name then Some(last.1) else
        var r := Member(prefix, name);
        assert r.Some? ==> exists i :: 0 <= i < |prefix| && prefix[i] == (name, r.value);
        r
  }

  /**
   The own properties of the object `JSON.parse` builds from `es`: each key once,
   at the position of its FIRST occurrence, which is creation order (the values
   are described by `ObjectEntriesValues`). `Object.keys` would list array-index
   keys such as "0" or "17" before all others, in ascending numeric order; this
   enumeration does not, which the import walk cannot observe because an index
   key never carries a note prefix.
   */
  function ObjectEntries(es: seq<(string, Json)>): (r: seq<(string, Json)>)
    ensures DistinctKeys(r)
    ensures KeysOf(r) == KeysOf(es)
  {
    if |es| == 0 then []
    else
      var prefix := es[..|es| - 1];
      var last := es[|es| - 1];
      var d := ObjectEntries(prefix);
      assert es == prefix + [last];
      KeysOfSnoc(prefix, last);
      if last.0 in KeysOf(d) then
        var r := Overwrite(d, last);
        assert forall i :: 0 <= i < |d| ==> r[i].0 == d[i].0;
        assert KeysOf(r) == KeysOf(d);
        r
      else
        var r := d + [last];
        KeysOfSnoc(d, last);
        r
  }

  /** `d` with the value of the member keyed `e.0` replaced by `e.1`, in place. */
  function Overwrite(d: seq<(string, Json)>, e: (string, Json)): (r: seq<(string, Json)>)
    ensures |r| == |d|
    ensures forall i :: 0 <= i < |d| ==> r[i] == (if d[i].0 == e.0 then e else d[i])
  {
    seq(|d|, i requires 0 <= i < |d| => if d[i].0 == e.0 then e else d[i])
  }

  /** Each enumerated key carries the value `JSON.parse` keeps for it: the last one written. */
  lemma {:induction false} ObjectEntriesValues(es: seq<(string, Json)>)
    ensures forall i :: 0 <= i < |ObjectEntries(es)| ==>
              Member(es, ObjectEntries(es)[i].0) == Some(ObjectEntries(es)[i].1)
  {
    if |es| > 0 {
      var prefix := es[..|es| - 1];
      var last := es[|es| - 1];
      ObjectEntriesValues(prefix);
      var d := ObjectEntries(prefix);
      var r := ObjectEntries(es);
      forall i | 0 <= i < |r| ensures Member(es, r[i].0) == Some(r[i].1) {
        if r[i].0 != last.0 {
          assert i < |d| && r[i] == d[i];
          assert Member(es, r[i].0) == Member(prefix, d[i].0);
          assert Member(prefix, d[i].0) == Some(d[i].1);
        } else {
          assert r[i] == last;
          assert Member(es, last.0) == Some(last.1);
        }
      }
    }
  }

  /**
   Without repeated keys, the enumeration is the member sequence itself (and so
   is `Object.keys` order when, in addition, no key is an array index).
   */
  lemma {:induction false} ObjectEntriesOfDistinct(es: seq<(string, Json)>)
    requires DistinctKeys(es)
    ensures ObjectEntries(es) == es
  {
    if |es| > 0 {
      var prefix := es[..|es| - 1];
      var last := es[|es| - 1];
      assert DistinctKeys(prefix);
      ObjectEntriesOfDistinct(prefix);
      assert last.0 !in KeysOf(prefix);
      assert es == prefix + [last];
    }
  }

  lemma KeysOfSnoc(es: seq<(string, Json)>, e: (string, Json))
    ensures KeysOf(es + [e]) == KeysOf(es) + {e.0}
  {
    var s := es + [e];
    assert forall i :: 0 <= i < |es| ==> s[i] == es[i];
    assert s[|es|] == e;
  }

  /**
   `v[name]` for the field names the import handler reads (`text`, `version`,
   `savedAt`): only a parsed object carries one of those as an own property.
   */
  function Property(v: Json, name: string): (r: Option<Json>)
    ensures r.Some? ==> v.JObject?
  {
    if v.JObject? then Member(v.members, name) else None
  }

  /** The (key, value) pairs an import handler visits with `Object.keys(v).forEach`; `None` when that throws. */
  function OwnEntries(v: Json): (r: Option<seq<(string, Json)>>)
    ensures r.None? <==> v.JNull?
    ensures v.JObject? ==> r == Some(ObjectEntries(v.members))
    ensures v.JBool? || v.JNumber? ==> r == Some([])
    ensures v.JArray? || v.JString? ==> forall i :: 0 <= i < |r.value| ==> AllDigits(r.value[i].0)
  {
    match v
    case JNull => None
    case JBool(_) => Some([])
    case JNumber(_) => Some([])
    case JString(s) => Some(seq(|s|, i requires 0 <= i < |s| => (Decimal(i), JString([s[i]]))))
    case JArray(items) => Some(seq(|items|, i requires 0 <= i < |items| => (Decimal(i), items[i])))
    case JObject(members) => Some(ObjectEntries(members))
  }
}
