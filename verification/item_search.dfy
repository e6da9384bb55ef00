/**
 The item search dialog (components/ItemSearchDialog.tsx): the ranked results of a
 fuzzy search over item names, a highlighted row moved with the arrow keys, Enter
 to toggle the highlighted item in the selection, and what the list shows.
 The fuzzy matcher itself is outside the model; its answer is an input.
 */
module ItemSearch {
  import opened Wrappers
  import opened Sorting
  import opened Items
  import opened Selection

  // ---------------------------------------------------------------------------
  // Results

  /** What the fuzzy matcher answers: nothing, unordered matches, or matches with an order over them. */
  datatype Ranking = NoMatches | Matched(ids: seq<nat>) | Ranked(ids: seq<nat>, order: seq<nat>)

  /** `order.map((idx) => ids[idx]).filter((idx) => idx != null)`: an order entry past the matches is dropped. */
  function Reorder(ids: seq<nat>, order: seq<nat>): (r: seq<nat>)
    ensures |r| <= |order|
  {
    if |order| == 0 then []
    else
      var last := order[|order| - 1];
      Reorder(ids, order[..|order| - 1]) + (if last < |ids| then [ids[last]] else [])
  }

  lemma {:induction false} ReorderMember(ids: seq<nat>, order: seq<nat>, x: nat)
    ensures x in Reorder(ids, order) <==> exists j :: 0 <= j < |order| && order[j] < |ids| && ids[order[j]] == x
  {
    if |order| > 0 {
      var init := order[..|order| - 1];
      ReorderMember(ids, init, x);
      if exists j :: 0 <= j < |order| && order[j] < |ids| && ids[order[j]] == x {
        var j :| 0 <= j < |order| && order[j] < |ids| && ids[order[j]] == x;
        if j < |init| {
          assert init[j] == order[j];
        }
      }
      if exists j :: 0 <= j < |init| && init[j] < |ids| && ids[init[j]] == x {
        var j :| 0 <= j < |init| && init[j] < |ids| && ids[init[j]] == x;
        assert order[j] == init[j];
      }
    }
  }

  /** `allItemIndices`: the matched positions in the matcher's order. */
  function RankedIndices(k: Ranking): (r: seq<nat>)
    ensures k.NoMatches? ==> r == []
    ensures k.Matched? ==> r == k.ids
  {
    match k
    case NoMatches => []
    case Matched(ids) => ids
    case Ranked(ids, order) => Reorder(ids, order)
  }

  /** `indices.map((i) => allIds[i])`, dropping a position past the end (which reads `undefined`). */
  function IdsAt(indices: seq<nat>, allIds: seq<string>): (r: seq<string>)
    ensures |r| <= |indices|
  {
    if |indices| == 0 then []
    else
      var last := indices[|indices| - 1];
      IdsAt(indices[..|indices| - 1], allIds) + (if last < |allIds| then [allIds[last]] else [])
  }

  /** `ids.map((id) => metadata.get(id)).filter((item) => item != null)`. */
  function Lookup(ids: seq<string>, catalog: Catalog): (r: seq<ItemInfo>)
    ensures |r| <= |ids|
  {
    if |ids| == 0 then []
    else
      var last := ids[|ids| - 1];
      Lookup(ids[..|ids| - 1], catalog) + (if last in catalog then [catalog[last]] else [])
  }

  /** Looking up a concatenation looks up each part in turn: the order of the ids is kept. */
  lemma {:induction false} LookupAppend(a: seq<string>, b: seq<string>, catalog: Catalog)
    ensures Lookup(a + b, catalog) == Lookup(a, catalog) + Lookup(b, catalog)
  {
    if |b| == 0 {
      assert a + b == a;
    } else {
      var init := b[..|b| - 1];
      LookupAppend(a, init, catalog);
      assert (a + b)[..|a + b| - 1] == a + init;
      assert (a + b)[|a + b| - 1] == b[|b| - 1];
    }
  }

  lemma {:induction false} LookupMember(ids: seq<string>, catalog: Catalog, x: ItemInfo)
    ensures x in Lookup(ids, catalog) <==> exists id :: id in ids && id in catalog && catalog[id] == x
  {
    if |ids| > 0 {
      var init := ids[..|ids| - 1];
      LookupMember(init, catalog, x);
      assert ids == init + [ids[|ids| - 1]];
    }
  }

  /** At most this many results are listed. */
  const MaxResults := 50

  /** `searchResults`: the known items among the matches, in the matcher's order, at most 50 of them. */
  function SearchResults(k: Ranking, allIds: seq<string>, catalog: Catalog): (r: seq<ItemInfo>)
    ensures |r| <= MaxResults
  {
    Slice(Lookup(IdsAt(RankedIndices(k), allIds), catalog), 0, MaxResults)
  }

  /** The results are the first 50 known matches, in the matcher's order. */
  lemma SearchResultsPrefix(k: Ranking, allIds: seq<string>, catalog: Catalog)
    ensures var known := Lookup(IdsAt(RankedIndices(k), allIds), catalog);
      var r := SearchResults(k, allIds, catalog);
      |r| == (if |known| < MaxResults then |known| else MaxResults) && r == known[..|r|]
  {
  }

  // ---------------------------------------------------------------------------
  // The highlighted row

  /** The highlighted index: a number, or `NaN` once the list was empty when an arrow key was pressed. */
  datatype Highlight = Index(i: nat) | NaN

  /** ArrowDown: `(i + 1) % n`, which is `NaN` for an empty list or a `NaN` index. */
  function HighlightNext(h: Highlight, n: nat): (r: Highlight)
    ensures r.Index? <==> h.Index? && n > 0
    ensures r.Index? ==> r.i < n
  {
    if h.NaN? || n == 0 then NaN else Index((h.i + 1) % n)
  }

  /** ArrowUp: `(i - 1 + n) % n`, which is `NaN` for an empty list or a `NaN` index. */
  function HighlightPrevious(h: Highlight, n: nat): (r: Highlight)
    ensures r.Index? <==> h.Index? && n > 0
    ensures r.Index? ==> r.i < n
  {
    if h.NaN? || n == 0 then NaN else Index((h.i - 1 + n) % n)
  }

  /** Adding the divisor once does not change the remainder. */
  lemma ModPlus(a: int, n: int)
    requires 0 <= a < n
    ensures a % n == a && (a + n) % n == a
  {
  }

  /** On an index inside the list, ArrowUp undoes ArrowDown. */
  lemma DownThenUp(h: Highlight, n: nat)
    requires h.Index? && h.i < n
    ensures HighlightPrevious(HighlightNext(h, n), n) == h
  {
    var i := h.i;
    var j := (i + 1) % n;
    if i + 1 < n {
      ModPlus(i + 1, n);
      ModPlus(i, n);
      assert j - 1 + n == i + n;
    } else {
      ModPlus(0, n);
      ModPlus(n - 1, n);
      assert i + 1 == 0 + n;
      assert j == 0;
      assert j - 1 + n == n - 1;
    }
  }

  /** On an index inside the list, ArrowDown undoes ArrowUp. */
  lemma UpThenDown(h: Highlight, n: nat)
    requires h.Index? && h.i < n
    ensures HighlightNext(HighlightPrevious(h, n), n) == h
  {
    var i := h.i;
    var j := (i - 1 + n) % n;
    if i > 0 {
      ModPlus(i - 1, n);
      ModPlus(i, n);
      assert j == i - 1;
    } else {
      ModPlus(n - 1, n);
      ModPlus(0, n);
      assert j == n - 1;
      assert j + 1 == 0 + n;
    }
  }

  /** `searchResults[i]?.id`: nothing for a `NaN` index or one past the end. */
  function HighlightedId(h: Highlight, results: seq<ItemInfo>): (r: Option<string>)
    ensures r.Some? <==> h.Index? && h.i < |results|
    ensures r.Some? ==> exists j :: 0 <= j < |results| && results[j].id == r.value
  {
    if h.Index? && h.i < |results| then Some(results[h.i].id) else None
  }

  // ---------------------------------------------------------------------------
  // Keyboard

  datatype Key = EscapeKey | ArrowDownKey | ArrowUpKey | EnterKey | OtherKey

  /** The dialog's state: the highlighted row, the selected ids, and whether `close` was called. */
  datatype Dialog = Dialog(highlight: Highlight, selected: seq<string>, closed: bool)

  /** The dialog as it opens: the first row highlighted. */
  function Opened(selected: seq<string>): (d: Dialog)
    ensures d.highlight == Index(0) && d.selected == selected && !d.closed
  {
    Dialog(Index(0), selected, false)
  }

  /** `handleKeyDown` against the current results. */
  function OnKeyDown(d: Dialog, key: Key, results: seq<ItemInfo>): (r: Dialog)
    ensures key != EnterKey ==> r.selected == d.selected
    ensures key.EscapeKey? ==> r.closed
    ensures !key.EscapeKey? && !key.EnterKey? ==> r.closed == d.closed
    ensures key.EnterKey? ==> r.highlight == d.highlight
    ensures key.EnterKey? && HighlightedId(d.highlight, results).None? ==> r == d
    ensures key.EnterKey? && HighlightedId(d.highlight, results).Some? ==>
      r.selected == Toggle(d.selected, HighlightedId(d.highlight, results).value)
      && (r.closed <==> d.closed || |results| == 1)
  {
    match key
    case EscapeKey => d.(closed := true)
    case ArrowDownKey => d.(highlight := HighlightNext(d.highlight, |results|))
    case ArrowUpKey => d.(highlight := HighlightPrevious(d.highlight, |results|))
    case EnterKey =>
      (match HighlightedId(d.highlight, results)
       case None => d
       case Some(id) => d.(selected := Toggle(d.selected, id), closed := d.closed || |results| == 1))
    case OtherKey => d
  }

  /** Pressing Enter twice on a row that was not selected leaves the selection as it was. */
  lemma EnterTwice(d: Dialog, results: seq<ItemInfo>)
    requires HighlightedId(d.highlight, results).Some?
    requires HighlightedId(d.highlight, results).value !in d.selected
    ensures OnKeyDown(OnKeyDown(d, EnterKey, results), EnterKey, results).selected == d.selected
  {
    ToggleTwice(d.selected, HighlightedId(d.highlight, results).value);
  }

  /** `onMouseEnter` on row `row` of the shown list: that row becomes the highlighted one, and nothing else changes. */
  function OnMouseEnter(d: Dialog, row: nat): (r: Dialog)
    ensures r.highlight == Index(row) && r.selected == d.selected && r.closed == d.closed
  {
    d.(highlight := Index(row))
  }

  /** What the user does in the dialog: press a key, or move the pointer onto a row of the shown list. */
  datatype Input = Press(key: Key) | Hover(row: nat)

  /**
   One input against the current results. Only a row that is shown can be
   hovered; the shown list is the results, or the selected items when there are
   none.
   */
  function Step(d: Dialog, input: Input, results: seq<ItemInfo>, catalog: Catalog): (r: Dialog)
    ensures input.Press? ==> r == OnKeyDown(d, input.key, results)
    ensures input.Hover? && input.row < |ItemsToShow(results, d.selected, catalog)| ==> r == OnMouseEnter(d, input.row)
    ensures input.Hover? && input.row >= |ItemsToShow(results, d.selected, catalog)| ==> r == d
  {
    match input
    case Press(key) => OnKeyDown(d, key, results)
    case Hover(row) => if row < |ItemsToShow(results, d.selected, catalog)| then OnMouseEnter(d, row) else d
  }

  /**
   Starting from a row of a non-empty result list, any sequence of key presses and
   row hovers keeps the highlight on a row of the results.
   */
  lemma {:induction false} ArrowsStayInList(inputs: seq<Input>, d: Dialog, results: seq<ItemInfo>, catalog: Catalog)
    requires |results| > 0 && d.highlight.Index? && d.highlight.i < |results|
    ensures var e := Replay(d, inputs, results, catalog); e.highlight.Index? && e.highlight.i < |results|
  {
    if |inputs| > 0 {
      ArrowsStayInList(inputs[..|inputs| - 1], d, results, catalog);
    }
  }

  /** Several inputs against the same results, in order. */
  function Replay(d: Dialog, inputs: seq<Input>, results: seq<ItemInfo>, catalog: Catalog): (r: Dialog)
    ensures |inputs| == 0 ==> r == d
  {
    if |inputs| == 0 then d
    else Step(Replay(d, inputs[..|inputs| - 1], results, catalog), inputs[|inputs| - 1], results, catalog)
  }

  // ---------------------------------------------------------------------------
  // The list

  /** `itemsToShow`: the results, or, when there are none, the selected items that have metadata. */
  function ItemsToShow(results: seq<ItemInfo>, selected: seq<string>, catalog: Catalog): (r: seq<ItemInfo>)
    ensures |results| > 0 ==> r == results
  {
    if |results| == 0 then Lookup(selected, catalog) else results
  }

  /** With no results the list holds exactly the metadata of the selected ids that have any, in selection order. */
  lemma ItemsToShowSelected(selected: seq<string>, catalog: Catalog, x: ItemInfo, more: seq<string>)
    ensures x in ItemsToShow([], selected, catalog) <==> exists id :: id in selected && id in catalog && catalog[id] == x
    ensures ItemsToShow([], selected + more, catalog) == ItemsToShow([], selected, catalog) + Lookup(more, catalog)
  {
    LookupMember(selected, catalog, x);
    LookupAppend(selected, more, catalog);
  }
}
