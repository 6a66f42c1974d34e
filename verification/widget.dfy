/**
 The note widget the content script attaches to a thread (a tile on the updates
 list or the header of a game page). A widget has three views, of which the
 script shows and hides each one separately: the display view (the saved text
 with Edit and Delete buttons), the edit view (a textarea with Save and Cancel)
 and the empty view (an "Add Note" button). Its note lives in the store slot
 `note_<id>`. Store calls are modelled as synchronous map updates and the
 `confirm` dialog as a boolean carried by the Delete click.
 */
module Widget {
  import opened JsString
  import opened NoteKeys

  /** The `chrome.storage.local` area as the content script sees it: it only writes strings. */
  type NoteStore = map<string, string>

  /**
   The observable state of one widget: which of the three views is shown, the
   text of the display view's `note-text` element, and the textarea's value.
   */
  datatype Widget = Widget(
    displayShown: bool,
    editShown: bool,
    emptyShown: bool,
    shownText: string,
    input: string)

  /** A user action on one widget; `Input` is the user typing, which replaces the textarea's value. */
  datatype Event =
    | AddClick
    | EditClick
    | DeleteClick(confirmed: bool)
    | SaveClick
    | CancelClick
    | KeyDown(key: string, ctrl: bool)
    | Input(text: string)

  /** The widget and the store after some sequence of events. */
  datatype Session = Session(widget: Widget, store: NoteStore)

  /**
   The widget as the template creates it: the display view carries
   `display: none`, the other two views carry no style and are both shown,
   and the textarea and the note text are empty.
   */
  const Fresh: Widget := Widget(false, true, true, "", "")

  /** Exactly one of the three views is shown. */
  predicate OneVisible(w: Widget) {
    && (w.displayShown ==> !w.editShown && !w.emptyShown)
    && (w.editShown ==> !w.emptyShown)
    && (w.displayShown || w.editShown || w.emptyShown)
  }

  /** `showEditMode`: hide the display and empty views and show the edit view. */
  function ShowEditMode(w: Widget): (r: Widget)
    ensures OneVisible(r) && r.editShown
    ensures r.shownText == w.shownText && r.input == w.input
  {
    w.(displayShown := false, emptyShown := false, editShown := true)
  }

  /**
   `updateNoteDisplay`: hide the edit view; a non-empty note is written into the
   display view, which is shown, and an empty one shows the empty view instead.
   */
  function UpdateNoteDisplay(w: Widget, note: string): (r: Widget)
    ensures OneVisible(r) && !r.editShown
    ensures r.displayShown <==> note != ""
    ensures r.emptyShown <==> note == ""
    ensures r.displayShown ==> r.shownText == note
    ensures r.input == w.input
  {
    if note != "" then w.(editShown := false, shownText := note, displayShown := true, emptyShown := false)
    else w.(editShown := false, displayShown := false, emptyShown := true)
  }

  /** `saveNote`: a note that trims to nothing removes the slot, any other note is written to it. */
  function SaveNote(store: NoteStore, id: string, note: string): (r: NoteStore)
    ensures Trim(note) == "" ==> NoteKey(id) !in r
    ensures Trim(note) != "" ==> NoteKey(id) in r && r[NoteKey(id)] == note
    ensures forall k :: k != NoteKey(id) ==> (k in r <==> k in store) && (k in r ==> r[k] == store[k])
  {
    if Trim(note) == "" then store - {NoteKey(id)} else store[NoteKey(id) := note]
  }

  /** The note `loadNote` reads back: `result[note_<id>] || ''`. */
  function LoadedNote(store: NoteStore, id: string): (r: string)
    ensures r != "" <==> NoteKey(id) in store && store[NoteKey(id)] != ""
    ensures r != "" ==> r == store[NoteKey(id)]
  {
    if NoteKey(id) in store && store[NoteKey(id)] != "" then store[NoteKey(id)] else ""
  }

  /** What `loadNote` reads back after `saveNote` stored a trimmed note is that note. */
  lemma SaveThenLoad(store: NoteStore, id: string, t: string)
    ensures LoadedNote(SaveNote(store, id, Trim(t)), id) == Trim(t)
  {
    TrimIdempotent(t);
  }

  /** `loadNote`: put the stored note into the textarea and show it (or the empty view). */
  function LoadNote(w: Widget, store: NoteStore, id: string): (r: Widget)
    ensures OneVisible(r) && !r.editShown
    ensures r.input == LoadedNote(store, id)
    ensures r.displayShown <==> LoadedNote(store, id) != ""
    ensures r.displayShown ==> r.shownText == LoadedNote(store, id)
  {
    UpdateNoteDisplay(w.(input := LoadedNote(store, id)), LoadedNote(store, id))
  }

  /** The Save click handler (and Ctrl+Enter): trim the textarea, store the result, show it. */
  function Save(s: Session, id: string): Session {
    var note := Trim(s.widget.input);
    Session(UpdateNoteDisplay(s.widget, note), SaveNote(s.store, id, note))
  }

  /** The Cancel click handler (and Escape): reload the widget from the store. */
  function Cancel(s: Session, id: string): Session {
    Session(LoadNote(s.widget, s.store, id), s.store)
  }

  /** The Delete click handler: on confirmation, empty the textarea, remove the slot and show the empty view. */
  function Delete(s: Session, id: string, confirmed: bool): Session {
    if confirmed then
      Session(UpdateNoteDisplay(s.widget.(input := ""), ""), s.store - {NoteKey(id)})
    else s
  }

  /**
   The textarea's `keydown` handler: the Ctrl+Enter test and the Escape test are
   two separate `if` statements, run one after the other.
   */
  function KeyDownHandler(s: Session, id: string, key: string, ctrl: bool): Session {
    var s1 := if key == "Enter" && ctrl then Save(s, id) else s;
    if key == "Escape" then Cancel(s1, id) else s1
  }

  /** One event on the widget of thread `id`. */
  function Step(s: Session, id: string, e: Event): Session {
    match e
    case AddClick => s.(widget := ShowEditMode(s.widget))
    case EditClick => s.(widget := ShowEditMode(s.widget))
    case DeleteClick(confirmed) => Delete(s, id, confirmed)
    case SaveClick => Save(s, id)
    case CancelClick => Cancel(s, id)
    case KeyDown(key, ctrl) => KeyDownHandler(s, id, key, ctrl)
    case Input(text) => s.(widget := s.widget.(input := text))
  }

  /** A widget just inserted into the page: the template followed by `loadNote`. */
  function Mounted(store: NoteStore, id: string): (r: Widget)
    ensures OneVisible(r)
  {
    LoadNote(Fresh, store, id)
  }

  /** Every value in the store is a trimmed, non-empty note. */
  predicate Clean(store: NoteStore) {
    forall k :: k in store ==> store[k] != "" && Trim(store[k]) == store[k]
  }

  /**
   Outside edit mode the widget shows what the store holds: the display view
   exactly when the slot holds a non-empty note, with that note as its text.
   */
  predicate Synced(w: Widget, store: NoteStore, id: string) {
    !w.editShown ==>
      && (w.displayShown <==> LoadedNote(store, id) != "")
      && (w.displayShown ==> w.shownText == LoadedNote(store, id))
  }

  /** The store outside slot `k` is the same in `a` and `b`. */
  ghost predicate SameOutside(a: NoteStore, b: NoteStore, k: string) {
    forall k' :: k' != k ==> (k' in a <==> k' in b) && (k' in a ==> a[k'] == b[k'])
  }

  /** The template alone shows two views at once; loading the note leaves exactly one. */
  lemma FreshShowsTwoViews()
    ensures !OneVisible(Fresh)
    ensures forall store, id :: OneVisible(Mounted(store, id)) && Synced(Mounted(store, id), store, id)
  {
  }

  /** Every event leaves exactly one view shown. */
  lemma StepKeepsOneVisible(s: Session, id: string, e: Event)
    requires OneVisible(s.widget)
    ensures OneVisible(Step(s, id, e).widget)
  {
  }

  /** Every event writes at most the widget's own slot `note_<id>`. */
  lemma StepTouchesOwnSlot(s: Session, id: string, e: Event)
    ensures SameOutside(s.store, Step(s, id, e).store, NoteKey(id))
  {
  }

  /** Every event keeps the stored notes trimmed and non-empty. */
  lemma StepKeepsClean(s: Session, id: string, e: Event)
    requires Clean(s.store)
    ensures Clean(Step(s, id, e).store)
  {
    var note := Trim(s.widget.input);
    TrimIdempotent(s.widget.input);
    assert note != "" ==> Trim(note) == note;
  }

  /** Every event keeps the widget in step with its slot when it is not being edited. */
  lemma StepKeepsSynced(s: Session, id: string, e: Event)
    requires Synced(s.widget, s.store, id)
    ensures Synced(Step(s, id, e).widget, Step(s, id, e).store, id)
  {
    TrimIdempotent(s.widget.input);
  }

  /**
   Saving stores the trimmed textarea under `note_<id>`, or removes the slot
   when the textarea holds only white space, and shows what was saved.
   */
  lemma SaveStoresTrimmed(s: Session, id: string)
    ensures var r := Step(s, id, SaveClick);
      && (AllTrimmable(s.widget.input) ==> NoteKey(id) !in r.store && r.widget.emptyShown)
      && (!AllTrimmable(s.widget.input) ==>
            && NoteKey(id) in r.store && r.store[NoteKey(id)] == Trim(s.widget.input)
            && r.widget.displayShown && r.widget.shownText == Trim(s.widget.input))
      && r.widget.input == s.widget.input
  {
    TrimIdempotent(s.widget.input);
  }

  /** A confirmed Delete empties the slot, the textarea and the view; a refused one changes nothing. */
  lemma DeleteClears(s: Session, id: string, confirmed: bool)
    ensures var r := Step(s, id, DeleteClick(confirmed));
      && (confirmed ==> NoteKey(id) !in r.store && r.widget.input == "" && r.widget.emptyShown && OneVisible(r.widget))
      && (!confirmed ==> r == s)
  {
  }

  /** Ctrl+Enter is Save, Escape is Cancel, and every other key does nothing. */
  lemma KeyDownIsSaveOrCancel(s: Session, id: string, key: string, ctrl: bool)
    ensures key == "Enter" && ctrl ==> Step(s, id, KeyDown(key, ctrl)) == Step(s, id, SaveClick)
    ensures key == "Escape" ==> Step(s, id, KeyDown(key, ctrl)) == Step(s, id, CancelClick)
    ensures !(key == "Enter" && ctrl) && key != "Escape" ==> Step(s, id, KeyDown(key, ctrl)) == s
  {
  }

  /**
   Cancel resets the textarea and the view from the store: the stored note
   comes back, and a missing slot gives an empty textarea and the empty view.
   */
  lemma CancelReloads(s: Session, id: string)
    ensures var r := Step(s, id, CancelClick);
      && r.store == s.store
      && (NoteKey(id) in s.store ==> r.widget.input == s.store[NoteKey(id)])
      && (NoteKey(id) !in s.store ==> r.widget.input == "" && r.widget.emptyShown && OneVisible(r.widget))
  {
  }

  /** Typing and then cancelling discards what was typed: the widget is what Cancel alone gives. */
  lemma CancelDiscardsInput(s: Session, id: string, text: string)
    ensures Step(Step(s, id, Input(text)), id, CancelClick) == Step(s, id, CancelClick)
  {
  }

  /** After a save, cancelling shows the saved note in the textarea: the trimmed input. */
  lemma SaveThenCancel(s: Session, id: string)
    ensures var r := Step(Step(s, id, SaveClick), id, CancelClick);
      && r.store == Step(s, id, SaveClick).store
      && r.widget.input == Trim(s.widget.input)
      && (r.widget.displayShown <==> Trim(s.widget.input) != "")
  {
    TrimIdempotent(s.widget.input);
  }

  /** Saving twice in a row is saving once. */
  lemma SaveIdempotent(s: Session, id: string)
    ensures Step(Step(s, id, SaveClick), id, SaveClick) == Step(s, id, SaveClick)
  {
    TrimIdempotent(s.widget.input);
  }
}
