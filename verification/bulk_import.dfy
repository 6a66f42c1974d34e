/**
 The import handlers of the settings page and of the popup. Both walk the keys of
 the parsed file in `Object.keys` order, rename legacy keys, let a per-surface rule
 accept or reshape each value, and merge the survivors into the store with one
 `set` call. They differ only in that value rule:
 - the settings page stores `{text, version, savedAt}` objects (`OptionsValue`);
 - the popup stores bare strings and skips everything else (`PopupValue`).
 Reading the file and `JSON.parse` are outside the model: the handler receives
 the parsed value, or `None` when parsing threw.
 */
module BulkImport {
  import opened Wrappers
  import opened JsString
  import opened Json
  import opened NoteKeys

  type Store = map<string, Json>

  /**
   The page running an import: the settings page, with the clock reading `now`
   (the ISO timestamp `new Date()` gives when the file is read), or the popup.
   */
  datatype Surface = OptionsPage(now: string) | Popup

  /** The surface's value rule: the value to store for a file entry, or `None` to skip it. */
  function Accept(surface: Surface, v: Json): Option<Json> {
    match surface
    case OptionsPage(now) => OptionsValue(v, now)
    case Popup => PopupValue(v)
  }

  /** The object the settings page stores for a note. */
  function StoredNote(text: Json, version: Json, savedAt: Json): Json {
    JObject([("text", text), ("version", version), ("savedAt", savedAt)])
  }

  /** Field `name` of `r` is `v`'s field when that is truthy, and `default` otherwise (`v.name || default`). */
  ghost predicate FieldOrDefault(r: Json, v: Json, name: string, default: Json) {
    Property(r, name) == if Truthy(Property(v, name)) then Property(v, name) else Some(default)
  }

  /** The shape of every note the settings page writes: the three fields in order, `savedAt` truthy. */
  predicate IsNormalNote(v: Json) {
    && v.JObject? && |v.members| == 3
    && v.members[0].0 == "text" && v.members[1].0 == "version" && v.members[2].0 == "savedAt"
    && (Truthy(Some(v.members[0].1)) || v.members[0].1 == JString(""))
    && (Truthy(Some(v.members[1].1)) || v.members[1].1 == JNull)
    && Truthy(Some(v.members[2].1))
  }


  /**
   The settings page's value rule. `now` is the ISO timestamp `new Date()` gives
   when the file is read.
   */
  function OptionsValue(v: Json, now: string): (r: Option<Json>)
    ensures r.None? <==> v.JNull? || v.JBool? || v.JNumber?
    ensures v.JString? ==> r == Some(StoredNote(v, JNull, JString(now)))
  {
    if v.JString? then Some(StoredNote(v, JNull, JString(now)))
    else if Truthy(Some(v)) && IsObjectTyped(v) then
      Some(StoredNote(
        Or(Property(v, "text"), JString("")),
        Or(Property(v, "version"), JNull),
        Or(Property(v, "savedAt"), JString(now))))
    else None
  }

  /**
   An object or array becomes a note whose three fields are the value's own
   fields where those are truthy, and `""`, `null` and `now` otherwise.
   */
  lemma OptionsValueFields(v: Json, now: string)
    requires OptionsValue(v, now).Some? && !v.JString?
    ensures var r := OptionsValue(v, now).value;
      && FieldOrDefault(r, v, "text", JString(""))
      && FieldOrDefault(r, v, "version", JNull)
      && FieldOrDefault(r, v, "savedAt", JString(now))
  {
    StoredNoteFields(Or(Property(v, "text"), JString("")), Or(Property(v, "version"), JNull),
                     Or(Property(v, "savedAt"), JString(now)));
  }

  /** Every note the settings page writes is in normal form, given a non-empty timestamp. */
  lemma OptionsValueIsNormal(v: Json, now: string)
    requires now != ""
    ensures OptionsValue(v, now).Some? ==> IsNormalNote(OptionsValue(v, now).value)
  {
  }

  /** Reading back the three fields of a stored note. */
  lemma StoredNoteFields(text: Json, version: Json, savedAt: Json)
    ensures Property(StoredNote(text, version, savedAt), "text") == Some(text)
    ensures Property(StoredNote(text, version, savedAt), "version") == Some(version)
    ensures Property(StoredNote(text, version, savedAt), "savedAt") == Some(savedAt)
  {
    var es := [("text", text), ("version", version), ("savedAt", savedAt)];
    assert DistinctKeys(es);
    assert es[0].0 == "text" && es[1].0 == "version" && es[2].0 == "savedAt";
  }

  /** The popup's value rule: strings only, stored as they are. */
  function PopupValue(v: Json): (r: Option<Json>)
    ensures r.Some? <==> v.JString?
    ensures r.Some? ==> r.value == v
  {
    if v.JString? then Some(v) else None
  }

  /** Entry `i` of `es` is accepted and lands in slot `k`. */
  ghost predicate AcceptedAs(es: seq<(string, Json)>, i: int, k: string, surface: Surface) {
    0 <= i < |es| && ImportKey(es[i].0) == Some(k) && Accept(surface, es[i].1).Some?
  }

  /** Entry `i` is the last accepted entry landing in slot `k`: the one whose value survives. */
  ghost predicate LastAcceptedAs(es: seq<(string, Json)>, i: int, k: string, surface: Surface) {
    AcceptedAs(es, i, k, surface) && forall j :: i < j < |es| ==> !AcceptedAs(es, j, k, surface)
  }

  /**
   The `validNotes` object a handler builds: one slot per accepted key, and when
   `note_X` and `comment_X` both occur, the later entry overwrites the earlier.
   */
  function CollectNotes(es: seq<(string, Json)>, surface: Surface): map<string, Json>
    decreases |es|
  {
    if |es| == 0 then map[]
    else Collect(CollectNotes(es[..|es| - 1], surface), es[|es| - 1], surface)
  }

  /** The walk keeps exactly the accepted slots, each with the value of its last accepted entry. */
  lemma {:induction false} CollectNotesSpec(es: seq<(string, Json)>, surface: Surface)
    ensures CollectsAll(es, surface, CollectNotes(es, surface))
    decreases |es|
  {
    if |es| > 0 {
      CollectNotesSpec(es[..|es| - 1], surface);
      CollectStep(es, surface, CollectNotes(es[..|es| - 1], surface));
    }
  }

  /** `r` holds exactly the slots some entry is accepted into, each with the value of the last such entry. */
  ghost predicate CollectsAll(es: seq<(string, Json)>, surface: Surface, r: map<string, Json>) {
    && (forall k :: k in r ==> exists i :: AcceptedAs(es, i, k, surface))
    && (forall i, k :: AcceptedAs(es, i, k, surface) ==> k in r)
    && (forall i, k :: LastAcceptedAs(es, i, k, surface) ==> k in r && r[k] == Accept(surface, es[i].1).value)
  }

  /** One iteration of the `forEach`: `validNotes[noteKey] = …` when the entry is accepted. */
  function Collect(acc: map<string, Json>, e: (string, Json), surface: Surface): map<string, Json> {
    match (ImportKey(e.0), Accept(surface, e.1))
    case (Some(k), Some(v)) => acc[k := v]
    case _ => acc
  }

  /** One step of the walk keeps `CollectsAll`, conjunct by conjunct. */
  lemma CollectStep(es: seq<(string, Json)>, surface: Surface, acc: map<string, Json>)
    requires |es| > 0 && CollectsAll(es[..|es| - 1], surface, acc)
    ensures CollectsAll(es, surface, Collect(acc, es[|es| - 1], surface))
  {
    CollectStepSound(es, surface, acc);
    CollectStepComplete(es, surface, acc);
    CollectStepLast(es, surface, acc);
  }

  lemma CollectStepSound(es: seq<(string, Json)>, surface: Surface, acc: map<string, Json>)
    requires |es| > 0 && CollectsAll(es[..|es| - 1], surface, acc)
    ensures var r := Collect(acc, es[|es| - 1], surface);
      forall k :: k in r ==> exists i :: AcceptedAs(es, i, k, surface)
  {
    var prefix := es[..|es| - 1];
    var last := es[|es| - 1];
    forall k | k in Collect(acc, last, surface) ensures exists i :: AcceptedAs(es, i, k, surface) {
      if k in acc && (ImportKey(last.0) != Some(k) || Accept(surface, last.1).None?) {
        var i :| AcceptedAs(prefix, i, k, surface);
        assert prefix[i] == es[i];
        assert AcceptedAs(es, i, k, surface);
      } else {
        assert AcceptedAs(es, |prefix|, k, surface);
      }
    }
  }

  lemma CollectStepComplete(es: seq<(string, Json)>, surface: Surface, acc: map<string, Json>)
    requires |es| > 0 && CollectsAll(es[..|es| - 1], surface, acc)
    ensures forall i, k :: AcceptedAs(es, i, k, surface) ==> k in Collect(acc, es[|es| - 1], surface)
  {
    var prefix := es[..|es| - 1];
    forall i, k | AcceptedAs(es, i, k, surface) ensures k in Collect(acc, es[|es| - 1], surface) {
      if i < |prefix| {
        assert prefix[i] == es[i];
        assert AcceptedAs(prefix, i, k, surface);
      }
    }
  }

  lemma CollectStepLast(es: seq<(string, Json)>, surface: Surface, acc: map<string, Json>)
    requires |es| > 0 && CollectsAll(es[..|es| - 1], surface, acc)
    ensures var r := Collect(acc, es[|es| - 1], surface);
      forall i, k :: LastAcceptedAs(es, i, k, surface) ==> k in r && r[k] == Accept(surface, es[i].1).value
  {
    var prefix := es[..|es| - 1];
    var n := |prefix|;
    var r := Collect(acc, es[|es| - 1], surface);
    forall i, k | LastAcceptedAs(es, i, k, surface) ensures k in r && r[k] == Accept(surface, es[i].1).value {
      if i < n {
        assert !AcceptedAs(es, n, k, surface);
        assert prefix[i] == es[i];
        assert LastAcceptedAs(prefix, i, k, surface) by {
          forall j | i < j < n ensures !AcceptedAs(prefix, j, k, surface) {
            assert prefix[j] == es[j];
            assert !AcceptedAs(es, j, k, surface);
          }
        }
      }
    }
  }

  /** The entries of `es` whose key carries either note prefix, in their order. */
  function NoteEntriesOf(es: seq<(string, Json)>): seq<(string, Json)>
    decreases |es|
  {
    if |es| == 0 then []
    else
      var last := es[|es| - 1];
      NoteEntriesOf(es[..|es| - 1]) + (if IsAnyNoteKey(last.0) then [last] else [])
  }

  /** The walk sees only the entries with a note prefix: every other entry is skipped. */
  lemma {:induction false} CollectIgnoresForeign(es: seq<(string, Json)>, surface: Surface)
    ensures CollectNotes(es, surface) == CollectNotes(NoteEntriesOf(es), surface)
    decreases |es|
  {
    if |es| > 0 {
      var prefix := es[..|es| - 1];
      var last := es[|es| - 1];
      var f := NoteEntriesOf(prefix);
      CollectIgnoresForeign(prefix, surface);
      if IsAnyNoteKey(last.0) {
        assert NoteEntriesOf(es) == f + [last];
        assert (f + [last])[..|f|] == f;
      } else {
        assert NoteEntriesOf(es) == f;
      }
    }
  }

  /**
   Two enumerations that agree on the note-prefixed entries and their relative
   order import the same notes, however the other keys are placed.
   */
  lemma CollectSeesOnlyNoteEntries(es1: seq<(string, Json)>, es2: seq<(string, Json)>, surface: Surface)
    requires NoteEntriesOf(es1) == NoteEntriesOf(es2)
    ensures CollectNotes(es1, surface) == CollectNotes(es2, surface)
  {
    CollectIgnoresForeign(es1, surface);
    CollectIgnoresForeign(es2, surface);
  }

  /** Every collected value is what the surface's rule made of some value of the file. */
  lemma {:induction false} CollectValuesFromFile(es: seq<(string, Json)>, surface: Surface)
    ensures forall k :: k in CollectNotes(es, surface) ==>
              exists i :: 0 <= i < |es| && Accept(surface, es[i].1) == Some(CollectNotes(es, surface)[k])
    decreases |es|
  {
    if |es| > 0 {
      var prefix := es[..|es| - 1];
      var last := es[|es| - 1];
      var acc := CollectNotes(prefix, surface);
      CollectValuesFromFile(prefix, surface);
      var r := CollectNotes(es, surface);
      forall k | k in r ensures exists i :: 0 <= i < |es| && Accept(surface, es[i].1) == Some(r[k]) {
        if ImportKey(last.0) == Some(k) && Accept(surface, last.1).Some? {
          assert Accept(surface, es[|es| - 1].1) == Some(r[k]);
        } else {
          assert r == Collect(acc, last, surface);
          assert k in acc && r[k] == acc[k];
          var i :| 0 <= i < |prefix| && Accept(surface, prefix[i].1) == Some(acc[k]);
          assert prefix[i] == es[i];
        }
      }
    }
  }

  datatype ImportResult =
    | InvalidFile                      // "Invalid JSON file": parsing or key enumeration threw
    | NoValidNotes                     // "No valid notes found in file": no `set` call
    | Imported(count: nat, store: Store) // one `set` call, the reported count and the store after it

  /** The notes a parsed file yields on `surface`, or `None` when enumerating its keys throws (`null`). */
  function FileNotes(parsed: Json, surface: Surface): (r: Option<map<string, Json>>)
    ensures r.None? <==> parsed.JNull?
  {
    match OwnEntries(parsed)
    case None => None
    case Some(es) => Some(CollectNotes(es, surface))
  }

  /** Whatever a file holds, the notes it yields all sit under `note_` keys. */
  lemma FileNotesAreNoteKeys(parsed: Json, surface: Surface)
    ensures FileNotes(parsed, surface).Some? ==> forall k :: k in FileNotes(parsed, surface).value ==> IsNoteKey(k)
  {
    if OwnEntries(parsed).Some? {
      CollectNotesSpec(OwnEntries(parsed).value, surface);
    }
  }

  /** The popup writes only strings, each of them a value the file holds. */
  lemma PopupNotesAreFileStrings(parsed: Json)
    ensures FileNotes(parsed, Popup).Some? ==>
              forall k :: k in FileNotes(parsed, Popup).value ==>
                && FileNotes(parsed, Popup).value[k].JString?
                && exists i :: 0 <= i < |OwnEntries(parsed).value| &&
                                 OwnEntries(parsed).value[i].1 == FileNotes(parsed, Popup).value[k]
  {
    if OwnEntries(parsed).Some? {
      var es := OwnEntries(parsed).value;
      var notes := CollectNotes(es, Popup);
      assert FileNotes(parsed, Popup) == Some(notes);
      CollectValuesFromFile(es, Popup);
      forall k | k in notes ensures notes[k].JString? && exists i :: 0 <= i < |es| && es[i].1 == notes[k] {
        var i :| 0 <= i < |es| && Accept(Popup, es[i].1) == Some(notes[k]);
        assert es[i].1 == notes[k];
      }
    }
  }

  /** Every note the settings page writes is in normal form, given a non-empty timestamp. */
  lemma OptionsNotesAreNormal(parsed: Json, now: string)
    requires now != ""
    ensures FileNotes(parsed, OptionsPage(now)).Some? ==>
              forall k :: k in FileNotes(parsed, OptionsPage(now)).value ==>
                IsNormalNote(FileNotes(parsed, OptionsPage(now)).value[k])
  {
    if OwnEntries(parsed).Some? {
      var es := OwnEntries(parsed).value;
      var notes := CollectNotes(es, OptionsPage(now));
      assert FileNotes(parsed, OptionsPage(now)) == Some(notes);
      CollectValuesFromFile(es, OptionsPage(now));
      forall k | k in notes ensures IsNormalNote(notes[k]) {
        var i :| 0 <= i < |es| && Accept(OptionsPage(now), es[i].1) == Some(notes[k]);
        OptionsValueIsNormal(es[i].1, now);
      }
    }
  }

  /** An import handler, given the parsed file, the store and the surface running it. */
  function Import(parsed: Option<Json>, store: Store, surface: Surface): ImportResult {
    if parsed.None? then InvalidFile
    else
      match FileNotes(parsed.value, surface)
      case None => InvalidFile
      case Some(notes) =>
        if |notes| == 0 then NoValidNotes else Imported(|notes|, store + notes)
  }

  /**
   An import is a merge of the file's notes into the store: it fails only on an
   unparsable or `null` file, writes nothing when no note survives, and otherwise
   overwrites exactly the imported slots and reports how many there are.
   */
  lemma ImportIsMerge(parsed: Option<Json>, store: Store, surface: Surface)
    ensures var r := Import(parsed, store, surface);
      && (r.InvalidFile? <==> parsed.None? || parsed.value.JNull?)
      && (r.NoValidNotes? <==> parsed.Some? && FileNotes(parsed.value, surface) == Some(map[]))
      && (r.Imported? ==>
           var notes := FileNotes(parsed.value, surface).value;
           && r.count == |notes| > 0
           && (forall k :: k in r.store <==> k in store || k in notes)
           && (forall k :: k in notes ==> r.store[k] == notes[k])
           && (forall k :: k in store && k !in notes ==> r.store[k] == store[k]))
  {
  }

  /** Keys that are not `note_` keys never change in an import. */
  lemma ImportKeepsForeignKeys(parsed: Option<Json>, store: Store, surface: Surface)
    ensures var r := Import(parsed, store, surface);
      r.Imported? ==> forall k :: !IsNoteKey(k) ==> (k in r.store <==> k in store) && (k in store ==> r.store[k] == store[k])
  {
    if parsed.Some? {
      FileNotesAreNoteKeys(parsed.value, surface);
    }
  }

  /** The settings page's file `change` handler. */
  function ImportOptions(parsed: Option<Json>, store: Store, now: string): ImportResult {
    Import(parsed, store, OptionsPage(now))
  }

  /** The popup's `FileReader.onload` handler. */
  function ImportPopup(parsed: Option<Json>, store: Store): ImportResult {
    Import(parsed, store, Popup)
  }
}
