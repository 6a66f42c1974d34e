/**
 What the import handlers promise across calls: behaviour on whole files,
 the later-wins rule for colliding keys, idempotence of the settings page's
 normalisation, and export/import round trips.
 */
module ImportProperties {
  import opened Wrappers
  import opened JsString
  import opened Json
  import opened NoteKeys
  import opened Bulk
  import opened BulkImport

  /** The object a member list denotes when every key is distinct: `JSON.stringify` output parsed back. */
  function MapOf(es: seq<(string, Json)>): (m: map<string, Json>)
    ensures forall i :: 0 <= i < |es| ==> es[i].0 in m
    ensures forall k :: k in m ==> k in KeysOf(es)
    ensures DistinctKeys(es) ==> forall i :: 0 <= i < |es| ==> m[es[i].0] == es[i].1
  {
    if |es| == 0 then map[]
    else
      var prefix := es[..|es| - 1];
      KeysOfSnoc(prefix, es[|es| - 1]);
      assert es == prefix + [es[|es| - 1]];
      MapOf(prefix)[es[|es| - 1].0 := es[|es| - 1].1]
  }

  /** `es` is a serialisation of the object `m`: each key once, with its value. */
  ghost predicate Lists(es: seq<(string, Json)>, m: map<string, Json>) {
    DistinctKeys(es) && MapOf(es) == m
  }

  /** The object a member list denotes after the surface's rule reshapes each value. */
  function Reshaped(es: seq<(string, Json)>, surface: Surface): map<string, Json>
    requires forall i :: 0 <= i < |es| ==> Accept(surface, es[i].1).Some?
  {
    if |es| == 0 then map[]
    else Reshaped(es[..|es| - 1], surface)[es[|es| - 1].0 := Accept(surface, es[|es| - 1].1).value]
  }

  /** Reshaping the member list is reshaping the object it denotes, key by key. */
  lemma {:induction false} ReshapedIsMapOf(es: seq<(string, Json)>, surface: Surface)
    requires DistinctKeys(es)
    requires forall i :: 0 <= i < |es| ==> Accept(surface, es[i].1).Some?
    ensures Reshaped(es, surface).Keys == MapOf(es).Keys
    ensures forall k :: k in MapOf(es) ==> Reshaped(es, surface)[k] == Accept(surface, MapOf(es)[k]).value
  {
    if |es| > 0 {
      var prefix := es[..|es| - 1];
      assert DistinctKeys(prefix);
      ReshapedIsMapOf(prefix, surface);
    }
  }

  /** When every entry is a note key the surface accepts, the handler's walk builds the reshaped object. */
  lemma {:induction false} CollectAllAccepted(es: seq<(string, Json)>, surface: Surface)
    requires forall i :: 0 <= i < |es| ==> IsNoteKey(es[i].0) && Accept(surface, es[i].1).Some?
    ensures CollectNotes(es, surface) == Reshaped(es, surface)
  {
    if |es| > 0 {
      var prefix := es[..|es| - 1];
      CollectAllAccepted(prefix, surface);
    }
  }

  /** A listed file of note slots the surface accepts yields the listed object, reshaped value by value. */
  lemma FileNotesListed(es: seq<(string, Json)>, m: map<string, Json>, surface: Surface)
    requires Lists(es, m)
    requires forall k :: k in m ==> IsNoteKey(k) && Accept(surface, m[k]).Some?
    ensures FileNotes(JObject(es), surface) == Some(Reshaped(es, surface))
    ensures Reshaped(es, surface).Keys == m.Keys
    ensures forall k :: k in m ==> Reshaped(es, surface)[k] == Accept(surface, m[k]).value
  {
    ObjectEntriesOfDistinct(es);
    assert forall i :: 0 <= i < |es| ==> es[i].0 in m && es[i].1 == m[es[i].0];
    CollectAllAccepted(es, surface);
    ReshapedIsMapOf(es, surface);
  }

  /** A note in normal form is accepted and kept exactly as it is. */
  lemma NormalNoteIsFixpoint(v: Json, now: string)
    requires IsNormalNote(v)
    ensures OptionsValue(v, now) == Some(v)
  {
    var t, ver, sa := v.members[0].1, v.members[1].1, v.members[2].1;
    assert v == StoredNote(t, ver, sa);
    StoredNoteFields(t, ver, sa);
  }

  lemma NormalNotesAreFixpoints(m: map<string, Json>, now: string)
    requires forall k :: k in m ==> IsNormalNote(m[k])
    ensures forall k :: k in m ==> OptionsValue(m[k], now) == Some(m[k])
  {
    forall k | k in m ensures OptionsValue(m[k], now) == Some(m[k]) {
      NormalNoteIsFixpoint(m[k], now);
    }
  }

  /** Normalising twice is normalising once. */
  lemma OptionsValueIdempotent(v: Json, now: string, later: string)
    requires now != ""
    requires OptionsValue(v, now).Some?
    ensures OptionsValue(OptionsValue(v, now).value, later) == OptionsValue(v, now)
  {
    NormalNoteIsFixpoint(OptionsValue(v, now).value, later);
  }

  lemma MergeIntoEmpty(m: map<string, Json>)
    ensures map[] + m == m
  {
  }

  /** A file yielding a non-empty set of notes is one merge of exactly those notes. */
  lemma ImportOfNotes(parsed: Json, store: Store, surface: Surface, notes: map<string, Json>)
    requires FileNotes(parsed, surface) == Some(notes) && |notes| > 0
    ensures Import(Some(parsed), store, surface) == Imported(|notes|, store + notes)
  {
  }

  /** A listed file of note slots the surface accepts is merged into the store as the reshaped listed object. */
  lemma ImportListed(es: seq<(string, Json)>, m: map<string, Json>, store: Store, surface: Surface)
    requires Lists(es, m) && |m| > 0
    requires forall k :: k in m ==> IsNoteKey(k) && Accept(surface, m[k]).Some?
    ensures Reshaped(es, surface).Keys == m.Keys
    ensures forall k :: k in m ==> Reshaped(es, surface)[k] == Accept(surface, m[k]).value
    ensures Import(Some(JObject(es)), store, surface) == Imported(|m|, store + Reshaped(es, surface))
  {
    FileNotesListed(es, m, surface);
    var written := Reshaped(es, surface);
    assert |written| == |m| by {
      assert written.Keys == m.Keys;
    }
    ImportOfNotes(JObject(es), store, surface, written);
  }

  /** Reshaping by a rule that keeps every value as it is changes nothing. */
  lemma {:induction false} ReshapedUnchanged(es: seq<(string, Json)>, surface: Surface)
    requires forall i :: 0 <= i < |es| ==> Accept(surface, es[i].1) == Some(es[i].1)
    ensures Reshaped(es, surface) == MapOf(es)
  {
    if |es| > 0 {
      ReshapedUnchanged(es[..|es| - 1], surface);
    }
  }

  /** When the surface keeps every listed value as it is, the import writes the listed object itself. */
  lemma ImportListedUnchanged(es: seq<(string, Json)>, m: map<string, Json>, store: Store, surface: Surface)
    requires Lists(es, m) && |m| > 0
    requires forall k :: k in m ==> IsNoteKey(k) && Accept(surface, m[k]) == Some(m[k])
    ensures Import(Some(JObject(es)), store, surface) == Imported(|m|, store + m)
  {
    assert forall i :: 0 <= i < |es| ==> es[i].0 in m && es[i].1 == m[es[i].0];
    ObjectEntriesOfDistinct(es);
    CollectAllAccepted(es, surface);
    ReshapedUnchanged(es, surface);
    ImportOfNotes(JObject(es), store, surface, m);
  }

  /** Exporting and importing the file into an empty store through the popup restores exactly the exported notes. */
  lemma PopupRoundTrip(store: Store, es: seq<(string, Json)>)
    requires Export(store).Exported? && Lists(es, Export(store).notes)
    requires forall k :: k in store && IsNoteKey(k) ==> store[k].JString?
    ensures ImportPopup(Some(JObject(es)), map[]) == Imported(NoteCount(store), Export(store).notes)
  {
    var notes := Export(store).notes;
    assert NoteCount(store) == |notes| by {
      StatsAgreeWithExport(store);
    }
    assert forall k :: k in notes ==> IsNoteKey(k) && Accept(Popup, notes[k]) == Some(notes[k]);
    assert ImportPopup(Some(JObject(es)), map[]) == Imported(|notes|, notes) by {
      ImportListedUnchanged(es, notes, map[], Popup);
      MergeIntoEmpty(notes);
    }
  }

  /** The settings page turns a bare string into a note whose text is that string. */
  lemma OptionsKeepsText(v: Json, now: string)
    requires v.JString?
    ensures Accept(OptionsPage(now), v).Some?
    ensures Property(Accept(OptionsPage(now), v).value, "text") == Some(v)
  {
    StoredNoteFields(v, JNull, JString(now));
  }

  /** Into an empty store, a listed file of accepted note slots imports as exactly the reshaped listed object. */
  lemma ImportListedFresh(es: seq<(string, Json)>, notes: map<string, Json>, surface: Surface)
    requires Lists(es, notes) && |notes| > 0
    requires forall k :: k in notes ==> IsNoteKey(k) && Accept(surface, notes[k]).Some?
    ensures Import(Some(JObject(es)), map[], surface) == Imported(|notes|, Reshaped(es, surface))
  {
    var written := Reshaped(es, surface);
    FileNotesListed(es, notes, surface);
    assert |written| == |notes| by {
      assert written.Keys == notes.Keys;
    }
    ImportOfNotes(JObject(es), map[], surface, written);
    MergeIntoEmpty(written);
  }

  /** A listed file whose values the surface stores under a `text` field imports as notes with those texts. */
  lemma ImportKeepsTexts(es: seq<(string, Json)>, notes: map<string, Json>, surface: Surface)
    requires Lists(es, notes) && |notes| > 0
    requires forall k :: k in notes ==> IsNoteKey(k) && Accept(surface, notes[k]).Some?
    requires forall k :: k in notes ==> Property(Accept(surface, notes[k]).value, "text") == Some(notes[k])
    ensures var r := Import(Some(JObject(es)), map[], surface);
      && r.Imported? && r.count == |notes| && r.store.Keys == notes.Keys
      && (forall k :: k in r.store ==> Property(r.store[k], "text") == Some(notes[k]))
  {
    ImportListedFresh(es, notes, surface);
    FileNotesListed(es, notes, surface);
  }

  /**
   Exporting and importing the file into an empty store through the settings page
   brings every exported string back as the text of a note under the same key.
   */
  lemma OptionsRoundTripText(store: Store, es: seq<(string, Json)>, now: string)
    requires Export(store).Exported? && Lists(es, Export(store).notes)
    requires forall k :: k in store && IsNoteKey(k) ==> store[k].JString?
    ensures var r := ImportOptions(Some(JObject(es)), map[], now);
      && r.Imported? && r.count == NoteCount(store)
      && (forall k :: k in r.store <==> k in store && IsNoteKey(k))
      && (forall k :: k in r.store ==> Property(r.store[k], "text") == Some(store[k]))
  {
    var notes := Export(store).notes;
    StatsAgreeWithExport(store);
    forall k | k in notes
      ensures Accept(OptionsPage(now), notes[k]).Some?
      ensures Property(Accept(OptionsPage(now), notes[k]).value, "text") == Some(notes[k])
    {
      OptionsKeepsText(notes[k], now);
    }
    ImportKeepsTexts(es, notes, OptionsPage(now));
  }

  /** Re-importing normal-form notes the store already holds leaves the store as it is. */
  lemma OptionsReimportListed(es: seq<(string, Json)>, m: map<string, Json>, store: Store, now: string)
    requires Lists(es, m) && |m| > 0
    requires forall k :: k in m ==> IsNoteKey(k) && IsNormalNote(m[k])
    requires forall k :: k in m ==> k in store && store[k] == m[k]
    ensures ImportOptions(Some(JObject(es)), store, now) == Imported(|m|, store)
  {
    NormalNotesAreFixpoints(m, now);
    ImportListedUnchanged(es, m, store, OptionsPage(now));
    assert store + m == store;
  }

  /** Importing the settings page's own export back into the same store rewrites nothing. */
  lemma OptionsReimportIsNoOp(store: Store, es: seq<(string, Json)>, now: string)
    requires Export(store).Exported? && Lists(es, Export(store).notes)
    requires forall k :: k in store && IsNoteKey(k) ==> IsNormalNote(store[k])
    ensures ImportOptions(Some(JObject(es)), store, now) == Imported(NoteCount(store), store)
  {
    StatsAgreeWithExport(store);
    OptionsReimportListed(es, Export(store).notes, store, now);
  }

  /** A one-entry file is one step of the `forEach`. */
  lemma CollectOne(e: (string, Json), surface: Surface)
    ensures CollectNotes([e], surface) == Collect(map[], e, surface)
  {
    assert [e][..0] == [];
  }

  /** A two-entry file is two steps of the `forEach`, in file order. */
  lemma CollectTwo(e1: (string, Json), e2: (string, Json), surface: Surface)
    ensures CollectNotes([e1, e2], surface) == Collect(Collect(map[], e1, surface), e2, surface)
  {
    assert [e1, e2][..1] == [e1];
    CollectOne(e1, surface);
  }

  /** Two entries for one thread, current and legacy, collide in one slot; the later one wins. */
  lemma CollisionLaterWins(id: string, a: Json, b: Json, surface: Surface)
    requires Accept(surface, a).Some? && Accept(surface, b).Some?
    ensures CollectNotes([(NoteKey(id), a), (LegacyPrefix + id, b)], surface) == map[NoteKey(id) := Accept(surface, b).value]
    ensures CollectNotes([(LegacyPrefix + id, b), (NoteKey(id), a)], surface) == map[NoteKey(id) := Accept(surface, a).value]
  {
    ImportKeyInverse(NoteKey(id), id);
    ImportKeyInverse(LegacyPrefix + id, id);
    CollectTwo((NoteKey(id), a), (LegacyPrefix + id, b), surface);
    CollectTwo((LegacyPrefix + id, b), (NoteKey(id), a), surface);
  }

  /** A file `{"note_<id>": t, "<foreign>": u}` imports one note and skips the foreign key. */
  lemma ForeignKeySkipped(id: string, foreign: string, t: string, u: Json, store: Store)
    requires !IsAnyNoteKey(foreign)
    ensures ImportPopup(Some(JObject([(NoteKey(id), JString(t)), (foreign, u)])), store)
            == Imported(1, store[NoteKey(id) := JString(t)])
  {
    var es := [(NoteKey(id), JString(t)), (foreign, u)];
    assert DistinctKeys(es);
    ObjectEntriesOfDistinct(es);
    CollectTwo(es[0], es[1], Popup);
  }

  /** A file `{"comment_<id>": t}` imports through the popup as `note_<id>` with the same string. */
  lemma LegacyKeyRenamedPopup(id: string, t: string, store: Store)
    ensures ImportPopup(Some(JObject([(LegacyPrefix + id, JString(t))])), store)
            == Imported(1, store[NoteKey(id) := JString(t)])
  {
    var e := (LegacyPrefix + id, JString(t));
    LegacyKeyImportsAs(id);
    ObjectEntriesOfDistinct([e]);
    CollectOne(e, Popup);
  }

  /** A file `{"comment_<id>": t}` imports through the settings page as `note_<id>` with text `t`. */
  lemma LegacyKeyRenamedOptions(id: string, t: string, store: Store, now: string)
    ensures ImportOptions(Some(JObject([(LegacyPrefix + id, JString(t))])), store, now)
            == Imported(1, store[NoteKey(id) := StoredNote(JString(t), JNull, JString(now))])
  {
    var e := (LegacyPrefix + id, JString(t));
    LegacyKeyImportsAs(id);
    ObjectEntriesOfDistinct([e]);
    CollectOne(e, OptionsPage(now));
  }

  /** A file whose top level is not an object offers only index keys, so no note survives. */
  lemma NonObjectFileHasNoNotes(v: Json, store: Store, surface: Surface)
    requires v.JBool? || v.JNumber? || v.JArray? || v.JString?
    ensures Import(Some(v), store, surface) == NoValidNotes
  {
    var es := OwnEntries(v).value;
    forall i | 0 <= i < |es| ensures ImportKey(es[i].0).None? {
      DigitKeysAreForeign(es[i].0);
    }
    CollectNotesSpec(es, surface);
    assert CollectNotes(es, surface) == map[];
  }
}
