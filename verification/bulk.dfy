/**
 The export, statistics and clear actions of the settings page and the popup.
 Both surfaces apply the same selection rules, so each is defined once and is
 generic in the stored value type. A storage read is the whole store as one
 snapshot; a write is a single atomic map update.
 */
module Bulk {
  import opened JsString
  import opened NoteKeys

  /** The entries an export writes to the file: the `note_` keys, values unchanged. */
  function NoteEntries<V>(store: map<string, V>): (r: map<string, V>)
    ensures forall k :: k in r <==> k in store && IsNoteKey(k)
    ensures forall k :: k in r ==> r[k] == store[k]
  {
    map k | k in store && IsNoteKey(k) :: store[k]
  }

  datatype ExportResult<V> =
    | NothingToExport                  // "No notes to export": no file is produced
    | Exported(notes: map<string, V>)  // the object serialised into the download

  /** The export click handler. */
  function Export<V>(store: map<string, V>): (r: ExportResult<V>)
    ensures r.NothingToExport? <==> forall k :: k in store ==> !IsNoteKey(k)
    ensures r.Exported? ==> |r.notes| > 0
    ensures r.Exported? ==> forall k :: k in r.notes <==> k in store && IsNoteKey(k)
    ensures r.Exported? ==> forall k :: k in r.notes ==> r.notes[k] == store[k]
    ensures r.Exported? ==> forall k :: IsLegacyKey(k) ==> k !in r.notes
  {
    var notes := NoteEntries(store);
    if |notes| == 0 then
      assert forall k :: k in store ==> !IsNoteKey(k) by {
        forall k | k in store ensures !IsNoteKey(k) {
          assert k !in notes.Keys;
        }
      }
      NothingToExport
    else
      assert forall k :: IsLegacyKey(k) ==> k !in notes by {
        forall k | IsLegacyKey(k) ensures k !in notes { PrefixesDisjoint(k); }
      }
      Exported(notes)
  }

  /** The figure `loadStats` shows: how many `note_` keys the store holds. */
  function NoteCount<V>(store: map<string, V>): (n: nat)
    ensures n == 0 <==> forall k :: k in store ==> !IsNoteKey(k)
    ensures n <= |store|
  {
    var ks := set k | k in store && IsNoteKey(k);
    assert ks <= store.Keys;
    SubsetCardinality(ks, store.Keys);
    if forall k :: k in store ==> !IsNoteKey(k) then
      assert ks == {};
      |ks|
    else
      var k :| k in store && IsNoteKey(k);
      assert k in ks;
      |ks|
  }

  lemma SubsetCardinality(a: set<string>, b: set<string>)
    requires a <= b
    ensures |a| <= |b|
  {
    assert b == a + (b - a);
  }

  /** The statistics agree with what an export would write, and are zero exactly when it would refuse. */
  lemma StatsAgreeWithExport<V>(store: map<string, V>)
    ensures Export(store).NothingToExport? <==> NoteCount(store) == 0
    ensures Export(store).Exported? ==> NoteCount(store) == |Export(store).notes|
  {
    var notes := NoteEntries(store);
    assert (set k | k in store && IsNoteKey(k)) == notes.Keys;
  }

  datatype ClearResult<V> =
    | Declined                                   // the confirmation was refused
    | NothingToClear                             // "No notes to clear": no remove call
    | Cleared(count: nat, store: map<string, V>) // one remove of `count` keys, and the store after it

  /** The keys a clear removes: every current or legacy note key. */
  function ClearKeys<V>(store: map<string, V>): (ks: set<string>)
    ensures forall k :: k in ks <==> k in store && IsAnyNoteKey(k)
  {
    set k | k in store && IsAnyNoteKey(k)
  }

  /** The clear click handler; `confirmed` is the answer to its `confirm` dialog, which comes first. */
  function Clear<V>(store: map<string, V>, confirmed: bool): (r: ClearResult<V>)
    ensures r.Declined? <==> !confirmed
    ensures r.NothingToClear? <==> confirmed && forall k :: k in store ==> !IsAnyNoteKey(k)
    ensures r.Cleared? ==> forall k :: k in r.store <==> k in store && !IsAnyNoteKey(k)
    ensures r.Cleared? ==> forall k :: k in r.store ==> r.store[k] == store[k]
    ensures r.Cleared? ==> r.count > 0 && r.count + |r.store| == |store|
  {
    if !confirmed then Declined
    else
      var keys := ClearKeys(store);
      if |keys| == 0 then
        assert forall k :: k in store ==> !IsAnyNoteKey(k) by {
          forall k | k in store ensures !IsAnyNoteKey(k) {
            assert k !in keys;
          }
        }
        NothingToClear
      else
        var rest := store - keys;
        assert rest.Keys == store.Keys - keys;
        assert |store.Keys| == |rest.Keys| + |keys| by {
          assert store.Keys == rest.Keys + keys;
          assert rest.Keys !! keys;
        }
        Cleared(|keys|, rest)
  }

  /**
   After a clear nothing is left to clear: the statistics show no note, an
   export refuses, and a second clear finds no key to remove.
   */
  lemma ClearLeavesNoNotes<V>(store: map<string, V>)
    ensures var r := Clear(store, true);
      r.Cleared? ==> && NoteCount(r.store) == 0
                     && Export(r.store).NothingToExport?
                     && Clear(r.store, true).NothingToClear?
  {
  }
}
