/**
 The storage key namespace shared by the content script, the settings page and
 the popup: `note_<id>` is the current slot for thread `<id>`, `comment_<id>` the
 legacy one, which imports rename and never write.
 */
module NoteKeys {
  import opened Wrappers
  import opened JsString

  const NotePrefix: string := "note_"
  const LegacyPrefix: string := "comment_"

  predicate IsNoteKey(k: string) {
    StartsWith(k, NotePrefix)
  }

  predicate IsLegacyKey(k: string) {
    StartsWith(k, LegacyPrefix)
  }

  /** The keys the clear handlers select: current or legacy. */
  predicate IsAnyNoteKey(k: string) {
    IsNoteKey(k) || IsLegacyKey(k)
  }

  /** The slot of thread `id`: `` `note_${id}` ``. */
  function NoteKey(id: string): (k: string)
    ensures IsNoteKey(k) && !IsLegacyKey(k)
    ensures |k| == |NotePrefix| + |id| && k[|NotePrefix|..] == id
  {
    PrefixesDisjoint(NotePrefix + id);
    NotePrefix + id
  }

  /** No key is both current and legacy: they differ in their first character. */
  lemma PrefixesDisjoint(k: string)
    ensures !(IsNoteKey(k) && IsLegacyKey(k))
  {
    if IsNoteKey(k) {
      assert k[0] == k[..|NotePrefix|][0] == 'n';
    }
  }

  /** A key whose first character is neither `n` nor `c` is no note key of either kind. */
  lemma ForeignByFirstChar(k: string)
    requires |k| > 0 && k[0] != 'n' && k[0] != 'c'
    ensures !IsAnyNoteKey(k)
  {
    FirstChar(k);
  }

  /** An array-index key such as "0" or "17" is all digits, so it is no note key of either kind. */
  lemma DigitKeysAreForeign(k: string)
    ensures AllDigits(k) ==> !IsAnyNoteKey(k)
  {
    FirstChar(k);
  }

  lemma FirstChar(k: string)
    ensures IsNoteKey(k) ==> |k| > 0 && k[0] == 'n'
    ensures IsLegacyKey(k) ==> |k| > 0 && k[0] == 'c'
  {
    if IsNoteKey(k) { assert k[..|NotePrefix|][0] == k[0]; }
    if IsLegacyKey(k) { assert k[..|LegacyPrefix|][0] == k[0]; }
  }

  /** Distinct threads never share a slot. */
  lemma NoteKeyInjective(a: string, b: string)
    requires NoteKey(a) == NoteKey(b)
    ensures a == b
  {
    assert a == NoteKey(a)[|NotePrefix|..];
  }

  /**
   The key both import handlers store an entry under: `comment_X` is renamed
   to `note_X`, `note_X` is kept, and any other key is rejected. The handlers
   rename with `key.replace('comment_', 'note_')`; `ImportKeyIsReplace` shows
   that this rewrites exactly the leading prefix.
   */
  function ImportKey(k: string): (r: Option<string>)
    ensures r.Some? <==> IsAnyNoteKey(k)
    ensures r.Some? ==> IsNoteKey(r.value)
    ensures IsNoteKey(k) ==> r == Some(k)
    ensures IsLegacyKey(k) ==> r == Some(NoteKey(k[|LegacyPrefix|..]))
  {
    PrefixesDisjoint(k);
    var noteKey := if IsLegacyKey(k) then NotePrefix + k[|LegacyPrefix|..] else k;
    if IsAnyNoteKey(k) then Some(noteKey) else None
  }

  /** The renaming is the handlers' `key.replace('comment_', 'note_')`. */
  lemma ImportKeyIsReplace(k: string)
    requires IsLegacyKey(k)
    ensures ImportKey(k) == Some(ReplaceFirst(k, LegacyPrefix, NotePrefix))
  {
  }

  /** The legacy key of thread `id` is renamed to its current key. */
  lemma LegacyKeyImportsAs(id: string)
    ensures ImportKey(LegacyPrefix + id) == Some(NoteKey(id))
  {
    assert IsLegacyKey(LegacyPrefix + id);
    assert (LegacyPrefix + id)[|LegacyPrefix|..] == id;
  }

  /** Exactly two source keys land in the slot of thread `id`: its current and its legacy key. */
  lemma ImportKeyInverse(k: string, id: string)
    ensures ImportKey(k) == Some(NoteKey(id)) <==> k == NoteKey(id) || k == LegacyPrefix + id
  {
    PrefixesDisjoint(k);
    if ImportKey(k) == Some(NoteKey(id)) {
      if IsLegacyKey(k) {
        NoteKeyInjective(k[|LegacyPrefix|..], id);
        assert k == k[..|LegacyPrefix|] + k[|LegacyPrefix|..];
      }
    }
    if k == LegacyPrefix + id {
      assert IsLegacyKey(k);
      assert k[|LegacyPrefix|..] == id;
    }
  }
}
