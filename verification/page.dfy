/**
 What the content script does with a page before any widget event: decide which
 kind of page it is on from the URL, find the thread id of a game page, and
 mount one note widget per thread id, never two.
 The DOM queries become inputs: whether the container element exists, the
 `data-lb-id` attribute of the game page's block container, and the result of
 the last-resort scan of the page's HTML.
 */
module PageInit {
  import opened Wrappers
  import opened JsString
  import opened NoteKeys
  import opened Widget

  /** The page kinds `initializeExtension` distinguishes. */
  datatype PageKind = UpdatesPage | GamePage | OtherPage

  const UpdatesMarker: string := "/sam/latest_alpha/"
  const ThreadsMarker: string := "/threads/"
  const LbIdPrefix: string := "thread-"

  /** `initializeExtension`'s test: the updates marker first, then the threads marker. */
  function Classify(href: string): (r: PageKind)
    ensures r == UpdatesPage <==> Includes(href, UpdatesMarker)
    ensures r == GamePage <==> !Includes(href, UpdatesMarker) && Includes(href, ThreadsMarker)
    ensures r == OtherPage <==> !Includes(href, UpdatesMarker) && !Includes(href, ThreadsMarker)
  {
    if Includes(href, UpdatesMarker) then UpdatesPage
    else if Includes(href, ThreadsMarker) then GamePage
    else OtherPage
  }

  // ---------------------------------------------------------------------------
  // The URL pattern /\/threads\/.*\.(\d+)\//
  // ---------------------------------------------------------------------------

  /** The first index at or after `j` holding a line terminator, or `|s|`: how far `.*` can reach. */
  function LineEnd(s: string, j: nat): (e: nat)
    requires j <= |s|
    ensures j <= e <= |s|
    ensures forall k :: j <= k < e ==> !IsLineTerminator(s[k])
    ensures e < |s| ==> IsLineTerminator(s[e])
    decreases |s| - j
  {
    if j == |s| || IsLineTerminator(s[j]) then j else LineEnd(s, j + 1)
  }

  /** The end of the run of decimal digits starting at `a`: how far a greedy `\d+` reaches. */
  function DigitRunEnd(s: string, a: nat): (q: nat)
    requires a <= |s|
    ensures a <= q <= |s|
    ensures forall k :: a <= k < q ==> IsDigit(s[k])
    ensures q < |s| ==> !IsDigit(s[q])
    decreases |s| - a
  {
    if a == |s| || !IsDigit(s[a]) then a else DigitRunEnd(s, a + 1)
  }

  /**
   `\.(\d+)\/` matches at `p`: a dot, at least one digit, and a slash right after
   the digits. Backtracking `\d+` to a shorter run cannot help, since a shorter
   run is followed by a digit, not a slash.
   */
  predicate GroupAt(s: string, p: nat) {
    p + 1 < |s| && s[p] == '.' &&
    var q := DigitRunEnd(s, p + 1);
    q > p + 1 && q < |s| && s[q] == '/'
  }

  /** The captured `(\d+)` of a group matching at `p`. */
  function GroupText(s: string, p: nat): (r: string)
    requires GroupAt(s, p)
    ensures |r| > 0 && AllDigits(r)
  {
    s[p + 1..DigitRunEnd(s, p + 1)]
  }

  /**
   The whole pattern matches with `/threads/` at `i` and the dot of the group at
   `p`: `.*` covers `s[i+9..p]`, which holds no line terminator.
   */
  ghost predicate MatchAt(s: string, i: int, p: int) {
    && OccursAt(s, ThreadsMarker, i)
    && i + |ThreadsMarker| <= p < |s|
    && (forall k :: i + |ThreadsMarker| <= k < p ==> !IsLineTerminator(s[k]))
    && GroupAt(s, p)
  }

  /**
   The greedy `.*` backtracks from the line end: the last dot position before
   `e` (and at or after `j`) where the group matches.
   */
  function LastGroup(s: string, j: nat, e: nat): (r: Option<nat>)
    requires j <= e <= |s|
    ensures r.Some? ==> j <= r.value < e && GroupAt(s, r.value)
    ensures r.Some? ==> forall p :: r.value < p < e ==> !GroupAt(s, p)
    ensures r.None? ==> forall p :: j <= p < e ==> !GroupAt(s, p)
    decreases e
  {
    if e == j then None
    else if GroupAt(s, e - 1) then Some(e - 1)
    else LastGroup(s, j, e - 1)
  }

  /** The dot position the regex engine settles on when the match starts at `i`, if any. */
  function MatchFrom(s: string, i: nat): (r: Option<nat>)
    requires i <= |s|
    ensures r.Some? ==> MatchAt(s, i, r.value)
    ensures r.Some? ==> forall p :: p > r.value ==> !MatchAt(s, i, p)
    ensures r.None? ==> forall p :: !MatchAt(s, i, p)
  {
    if !OccursAt(s, ThreadsMarker, i) then None
    else
      var j := i + |ThreadsMarker|;
      LastGroup(s, j, LineEnd(s, j))
  }

  /** The leftmost start at or after `i` where the pattern matches, with the dot the engine picks there. */
  function FirstMatch(s: string, i: nat): (r: Option<(nat, nat)>)
    requires i <= |s|
    ensures r.Some? ==> i <= r.value.0 && MatchAt(s, r.value.0, r.value.1)
    ensures r.Some? ==> forall p :: p > r.value.1 ==> !MatchAt(s, r.value.0, p)
    ensures r.Some? ==> forall i', p :: i <= i' < r.value.0 ==> !MatchAt(s, i', p)
    ensures r.None? ==> forall i', p :: i <= i' ==> !MatchAt(s, i', p)
    decreases |s| - i
  {
    match MatchFrom(s, i)
    case Some(p) => Some((i, p))
    case None =>
      if i == |s| then
        assert forall i', p :: i <= i' ==> !MatchAt(s, i', p) by {
          forall i', p | i <= i' ensures !MatchAt(s, i', p) {
            if i' > i {
              assert !OccursAt(s, ThreadsMarker, i');
            }
          }
        }
        None
      else FirstMatch(s, i + 1)
  }

  /** `href.match(/\/threads\/.*\.(\d+)\//)[1]`, or `None` when there is no match. */
  function UrlThreadId(href: string): (r: Option<string>)
    ensures r.Some? ==> |r.value| > 0 && AllDigits(r.value)
    ensures r.None? <==> forall i, p :: !MatchAt(href, i, p)
  {
    match FirstMatch(href, 0)
    case None => None
    case Some((i, p)) => Some(GroupText(href, p))
  }

  /**
   The id the regex captures is the digit run after the last dot of the first
   `/threads/` line that has a match.
   */
  lemma UrlThreadIdIsLeftmostGreedy(href: string)
    requires UrlThreadId(href).Some?
    ensures exists i, p :: && MatchAt(href, i, p)
                           && (forall i', p' :: 0 <= i' < i ==> !MatchAt(href, i', p'))
                           && (forall p' :: p' > p ==> !MatchAt(href, i, p'))
                           && UrlThreadId(href) == Some(GroupText(href, p))
  {
    var m := FirstMatch(href, 0).value;
    assert MatchAt(href, m.0, m.1);
  }

  /**
   A URL from which the thread-id pattern extracts an id holds the threads
   marker, so it is a game page unless the updates marker takes precedence.
   */
  lemma UrlIdMeansGamePage(href: string)
    requires UrlThreadId(href).Some?
    ensures Classify(href) == (if Includes(href, UpdatesMarker) then UpdatesPage else GamePage)
  {
    var m := FirstMatch(href, 0).value;
    assert MatchAt(href, m.0, m.1);
    assert OccursAt(href, ThreadsMarker, m.0);
  }

  /**
   A thread URL `<base>/threads/<slug>.<id>/<rest>` on one line yields `<id>`
   when neither the slug nor the rest holds a dot, whatever the base is.
   */
  lemma ThreadUrlYieldsId(base: string, slug: string, id: string, rest: string)
    requires |id| > 0 && AllDigits(id)
    requires forall k :: 0 <= k < |base| ==> !IsLineTerminator(base[k])
    requires forall k :: 0 <= k < |slug| ==> !IsLineTerminator(slug[k]) && slug[k] != '.'
    requires forall k :: 0 <= k < |rest| ==> rest[k] != '.'
    ensures UrlThreadId(base + ThreadsMarker + slug + "." + id + "/" + rest) == Some(id)
  {
    var pre := base + ThreadsMarker + slug;
    var s := pre + "." + id + "/" + rest;
    assert s == base + ThreadsMarker + slug + "." + id + "/" + rest;
    var i := |base|;
    var p := |pre|;
    var q := p + 1 + |id|;
    assert GroupAt(s, p) && GroupText(s, p) == id by {
      DotUrlFacts(pre, id, rest);
      DigitRunEndAt(s, p + 1, q);
    }
    assert forall k :: 0 <= k < p ==> !IsLineTerminator(s[k]) by {
      PrefixFacts(base, slug);
      DotUrlFacts(pre, id, rest);
    }
    assert MatchAt(s, i, p) by {
      PrefixFacts(base, slug);
      DotUrlFacts(pre, id, rest);
      assert s[i..i + |ThreadsMarker|] == pre[i..i + |ThreadsMarker|];
    }
    var m := FirstMatch(s, 0).value;
    assert m.0 <= i;
    assert MatchAt(s, m.0, p);
    assert m.1 == p by {
      DotUrlFacts(pre, id, rest);
    }
  }

  lemma PrefixFacts(base: string, slug: string)
    requires forall k :: 0 <= k < |base| ==> !IsLineTerminator(base[k])
    requires forall k :: 0 <= k < |slug| ==> !IsLineTerminator(slug[k])
    ensures var pre := base + ThreadsMarker + slug;
      && pre[|base|..|base| + |ThreadsMarker|] == ThreadsMarker
      && forall k :: 0 <= k < |pre| ==> !IsLineTerminator(pre[k])
  {
    var pre := base + ThreadsMarker + slug;
    forall k | 0 <= k < |pre| ensures !IsLineTerminator(pre[k]) {
      if k < |base| { assert pre[k] == base[k]; }
      else if k < |base| + |ThreadsMarker| { assert pre[k] == ThreadsMarker[k - |base|]; }
      else { assert pre[k] == slug[k - |base| - |ThreadsMarker|]; }
    }
  }

  lemma DotUrlFacts(pre: string, id: string, rest: string)
    requires |id| > 0 && AllDigits(id)
    requires forall k :: 0 <= k < |rest| ==> rest[k] != '.'
    ensures var s := pre + "." + id + "/" + rest;
      var p := |pre|;
      var q := p + 1 + |id|;
      && q < |s| && s[p] == '.' && s[q] == '/'
      && (forall k :: 0 <= k < p ==> s[k] == pre[k])
      && (forall k :: p < k < q ==> s[k] == id[k - p - 1] && IsDigit(s[k]))
      && (forall k :: p < k < |s| ==> s[k] != '.')
      && s[p + 1..q] == id
  {
    var s := pre + "." + id + "/" + rest;
    var p := |pre|;
    var q := p + 1 + |id|;
    forall k | p < k < |s| ensures s[k] != '.' {
      if k < q { assert s[k] == id[k - p - 1]; }
      else if k > q { assert s[k] == rest[k - q - 1]; }
    }
  }

  lemma DigitRunEndAt(s: string, a: nat, q: nat)
    requires a <= q < |s|
    requires forall k :: a <= k < q ==> IsDigit(s[k])
    requires !IsDigit(s[q])
    ensures DigitRunEnd(s, a) == q
    decreases q - a
  {
    if a < q {
      DigitRunEndAt(s, a + 1, q);
    }
  }

  // ---------------------------------------------------------------------------
  // extractThreadId
  // ---------------------------------------------------------------------------

  /**
   `extractThreadId` on a game page: the URL pattern first; then the block
   container's `data-lb-id` when it is truthy and starts with `thread-`, with the
   first `thread-` removed; then the scan of the page HTML (an input here).
   */
  function ExtractThreadId(href: string, lbId: Option<string>, bodyScan: Option<string>): (r: Option<string>)
    ensures UrlThreadId(href).Some? ==> r == UrlThreadId(href)
    ensures UrlThreadId(href).None? && lbId.Some? && StartsWith(lbId.value, LbIdPrefix) ==>
              r == Some(lbId.value[|LbIdPrefix|..])
    ensures UrlThreadId(href).None? && !(lbId.Some? && StartsWith(lbId.value, LbIdPrefix)) ==> r == bodyScan
  {
    match UrlThreadId(href)
    case Some(id) => Some(id)
    case None =>
      if lbId.Some? && lbId.value != "" && StartsWith(lbId.value, LbIdPrefix) then
        Some(ReplaceFirst(lbId.value, LbIdPrefix, ""))
      else bodyScan
  }

  /** `data-lb-id="thread-X"` yields exactly `X` when the URL has no match. */
  lemma LbIdYieldsSuffix(href: string, x: string, bodyScan: Option<string>)
    requires UrlThreadId(href).None?
    ensures ExtractThreadId(href, Some(LbIdPrefix + x), bodyScan) == Some(x)
  {
    assert (LbIdPrefix + x)[..|LbIdPrefix|] == LbIdPrefix;
    assert (LbIdPrefix + x)[|LbIdPrefix|..] == x;
  }

  // ---------------------------------------------------------------------------
  // Mounting widgets
  // ---------------------------------------------------------------------------

  /** The widgets on the page, by thread id: `note-section-<id>` / `game-note-section-<id>` elements. */
  type Page = map<string, Widget>

  /**
   `addNoteSection` / `addGamePageNoteSection`: a missing or empty id mounts
   nothing, an id that already has a widget mounts nothing, and otherwise a
   new widget is inserted and loaded from the store.
   */
  function Mount(page: Page, id: Option<string>, store: NoteStore): (r: Page)
    ensures id.None? || id.value == "" || id.value in page ==> r == page
    ensures id.Some? && id.value != "" && id.value !in page ==> r == page[id.value := Mounted(store, id.value)]
  {
    if id.None? || id.value == "" || id.value in page then page
    else page[id.value := Mounted(store, id.value)]
  }

  /** Mounting the same id a second time changes nothing: no thread gets two widgets. */
  lemma MountTwice(page: Page, id: Option<string>, store: NoteStore)
    ensures Mount(Mount(page, id, store), id, store) == Mount(page, id, store)
  {
  }

  /** `processExistingTiles` and the mutation observer: mount each tile's id in document order. */
  function MountAll(page: Page, ids: seq<Option<string>>, store: NoteStore): (r: Page)
    decreases |ids|
  {
    if |ids| == 0 then page
    else MountAll(Mount(page, ids[0], store), ids[1..], store)
  }

  /** The ids a tile list offers: every present, non-empty one. */
  ghost predicate Offered(ids: seq<Option<string>>, id: string) {
    exists j :: 0 <= j < |ids| && ids[j] == Some(id) && id != ""
  }

  /**
   Mounting a tile list keeps every existing widget as it is, adds one widget
   for each offered id not yet mounted, freshly loaded from the store, and
   nothing else.
   */
  lemma {:induction false} MountAllSpec(page: Page, ids: seq<Option<string>>, store: NoteStore)
    ensures var r := MountAll(page, ids, store);
      && (forall id :: id in r <==> id in page || Offered(ids, id))
      && (forall id :: id in page ==> r[id] == page[id])
      && (forall id :: id in r && id !in page ==> r[id] == Mounted(store, id))
    decreases |ids|
  {
    if |ids| > 0 {
      var p1 := Mount(page, ids[0], store);
      MountAllSpec(p1, ids[1..], store);
      var r := MountAll(page, ids, store);
      forall id ensures id in r <==> id in page || Offered(ids, id) {
        if Offered(ids[1..], id) {
          var j :| 0 <= j < |ids[1..]| && ids[1..][j] == Some(id) && id != "";
          assert ids[j + 1] == Some(id);
        }
        if Offered(ids, id) && id !in page && id !in p1 {
          var j :| 0 <= j < |ids| && ids[j] == Some(id) && id != "";
          assert j > 0;
          assert ids[1..][j - 1] == Some(id);
        }
      }
    }
  }

  /** Mounting the same tile list twice mounts nothing the second time. */
  lemma {:induction false} MountAllIdempotent(page: Page, ids: seq<Option<string>>, store: NoteStore)
    ensures MountAll(MountAll(page, ids, store), ids, store) == MountAll(page, ids, store)
  {
    var r := MountAll(page, ids, store);
    MountAllSpec(page, ids, store);
    NothingNewToMount(r, ids, store);
  }

  lemma {:induction false} NothingNewToMount(page: Page, ids: seq<Option<string>>, store: NoteStore)
    requires forall j :: 0 <= j < |ids| && ids[j].Some? && ids[j].value != "" ==> ids[j].value in page
    ensures MountAll(page, ids, store) == page
    decreases |ids|
  {
    if |ids| > 0 {
      assert Mount(page, ids[0], store) == page;
      forall j | 0 <= j < |ids[1..]| && ids[1..][j].Some? && ids[1..][j].value != "" ensures ids[1..][j].value in page {
        assert ids[1..][j] == ids[j + 1];
      }
      NothingNewToMount(page, ids[1..], store);
    }
  }

  // ---------------------------------------------------------------------------
  // initializeExtension
  // ---------------------------------------------------------------------------

  /** What one run of `initializeExtension` ends in. */
  datatype InitOutcome =
    | Inactive                     // neither marker in the URL: nothing happens
    | Retry                        // the container is not in the DOM yet: try again in a second
    | NoThreadId                   // a game page whose thread id cannot be found
    | Ready(page: Page)            // widgets mounted

  /**
   One run of `initializeExtension`. `containerFound` says whether the page's
   container element exists; `tiles` are the `data-thread-id` attributes of the
   updates page's tiles in document order; `lbId` and `bodyScan` feed
   `extractThreadId` on a game page.
   */
  function Initialize(href: string, containerFound: bool, tiles: seq<Option<string>>,
                      lbId: Option<string>, bodyScan: Option<string>, page: Page, store: NoteStore): (r: InitOutcome)
    ensures r.Inactive? <==> !Includes(href, UpdatesMarker) && !Includes(href, ThreadsMarker)
    ensures r.Retry? <==> !containerFound && (Includes(href, UpdatesMarker) || Includes(href, ThreadsMarker))
    ensures Includes(href, UpdatesMarker) && containerFound ==> r == Ready(MountAll(page, tiles, store))
    ensures r.NoThreadId? <==>
              && !Includes(href, UpdatesMarker) && Includes(href, ThreadsMarker) && containerFound
              && ExtractThreadId(href, lbId, bodyScan) in {None, Some("")}
    ensures r.Ready? && !Includes(href, UpdatesMarker) ==>
              && ExtractThreadId(href, lbId, bodyScan).Some?
              && ExtractThreadId(href, lbId, bodyScan).value != ""
              && r.page == Mount(page, ExtractThreadId(href, lbId, bodyScan), store)
  {
    match Classify(href)
    case OtherPage => Inactive
    case UpdatesPage => if !containerFound then Retry else Ready(MountAll(page, tiles, store))
    case GamePage =>
      if !containerFound then Retry
      else
        match ExtractThreadId(href, lbId, bodyScan)
        case None => NoThreadId
        case Some(id) => if id == "" then NoThreadId else Ready(Mount(page, Some(id), store))
  }

  /**
   While the document is loading, `initializeExtension` is registered for
   `DOMContentLoaded` twice and so runs twice in a row: the second run finds
   every widget already mounted and leaves the page as the first run left it.
   */
  lemma InitializeTwice(href: string, containerFound: bool, tiles: seq<Option<string>>,
                        lbId: Option<string>, bodyScan: Option<string>, page: Page, store: NoteStore)
    requires Initialize(href, containerFound, tiles, lbId, bodyScan, page, store).Ready?
    ensures var first := Initialize(href, containerFound, tiles, lbId, bodyScan, page, store);
      Initialize(href, containerFound, tiles, lbId, bodyScan, first.page, store) == first
  {
    if Includes(href, UpdatesMarker) {
      MountAllIdempotent(page, tiles, store);
    }
  }

  // ---------------------------------------------------------------------------
  // Events on a page of widgets
  // ---------------------------------------------------------------------------

  /** Every mounted widget shows exactly one view and, outside edit mode, its own slot. */
  predicate PageConsistent(page: Page, store: NoteStore) {
    forall id :: id in page ==> OneVisible(page[id]) && Synced(page[id], store, id)
  }

  /** An event on the widget of `id`; ids without a widget have no buttons to press. */
  function PageStep(page: Page, store: NoteStore, id: string, e: Event): (Page, NoteStore) {
    if id !in page then (page, store)
    else
      var s := Step(Session(page[id], store), id, e);
      (page[id := s.widget], s.store)
  }

  /** Mounting keeps the page consistent. */
  lemma MountAllKeepsConsistent(page: Page, ids: seq<Option<string>>, store: NoteStore)
    requires PageConsistent(page, store)
    ensures PageConsistent(MountAll(page, ids, store), store)
  {
    MountAllSpec(page, ids, store);
    FreshShowsTwoViews();
  }

  /**
   An event on one widget keeps every widget consistent: the event writes only
   its own slot, and distinct ids have distinct slots.
   */
  lemma PageStepKeepsConsistent(page: Page, store: NoteStore, id: string, e: Event)
    requires PageConsistent(page, store)
    ensures PageConsistent(PageStep(page, store, id, e).0, PageStep(page, store, id, e).1)
  {
    if id in page {
      var s := Step(Session(page[id], store), id, e);
      StepKeepsOneVisible(Session(page[id], store), id, e);
      StepKeepsSynced(Session(page[id], store), id, e);
      StepTouchesOwnSlot(Session(page[id], store), id, e);
      forall other | other in page && other != id
        ensures Synced(page[other], s.store, other)
      {
        if NoteKey(other) == NoteKey(id) {
          NoteKeyInjective(other, id);
        }
        assert LoadedNote(s.store, other) == LoadedNote(store, other);
      }
    }
  }
}
