/**
 * The widget session: the catalogue, the form controls, the loaded-font set,
 * the snapshot map, the current font, the filtered view and the keyboard
 * selection, updated in place by the list, keyboard, control and reset
 * handlers.
 */
module Session {

  import opened Basics
  import opened Text
  import opened Catalogue
  import opened Window
  import opened Styles
  import opened Export

  /** The page the widget styles: inline styles by element, and `querySelectorAll` as an oracle. */
  class Page {
    var styles: map<ElementId, InlineStyle>
    /** The elements a selector matches in document order, or none when the selector is malformed. */
    const select: string -> Option<seq<ElementId>>

    constructor (styles: map<ElementId, InlineStyle>, select: string -> Option<seq<ElementId>>)
      ensures this.styles == styles && this.select == select
    {
      this.styles := styles;
      this.select := select;
    }
  }

  /** The keys the list handles; every other key is ignored. */
  datatype Key = ArrowDown | ArrowUp | Enter | OtherKey

  class FontTester {
    /** The catalogue, and whether it is the built-in fallback list. */
    const fonts: seq<FontDescriptor>
    const usingFallback: bool
    /** The list container's height in pixels. */
    const clientHeight: nat
    /** The page's own font, named by the status line until a font is applied. */
    const page: Page

    // The form controls.
    var query: string
    var category: string
    var selectorText: string
    var weight: string
    var sizeText: string
    var lineHeight: string
    var important: bool

    // The widget state.
    var loadedFonts: set<string>
    /** The families whose stylesheet request has been issued, in order. */
    var requests: seq<string>
    var originalFonts: map<ElementId, Snapshot>
    var currentFont: Option<string>
    var currentFiltered: seq<FontDescriptor>
    var selectedIndex: int

    // The list as the browser holds it.
    var scrollTop: nat
    var rows: seq<Row>
    /** Indices of rendered rows whose preview has been triggered since they were rendered. */
    var previewed: set<nat>
    var status: StatusLine

    /** The scroll offset the rendered rows were computed for. */
    ghost var renderedTop: nat
    /** The page as it was when the snapshot map was last empty. */
    ghost var baseline: map<ElementId, InlineStyle>

    /** The view is the filter's output, the index points into it, and the offset is one the browser allows. */
    ghost predicate ViewValid()
      reads this`currentFiltered, this`query, this`category, this`selectedIndex, this`scrollTop
    {
      && currentFiltered == FilteredFonts(fonts, query, category)
      && -1 <= selectedIndex
      && (|currentFiltered| > 0 ==> selectedIndex < |currentFiltered|)
      && scrollTop <= MaxScroll(|currentFiltered|, clientHeight)
    }

    /** The rendered rows are the view's window at the offset they were rendered for. */
    ghost predicate RowsValid()
      reads this`currentFiltered, this`selectedIndex, this`renderedTop, this`rows
    {
      && renderedTop <= InnerHeight(|currentFiltered|)
      && rows == RenderRows(currentFiltered, WindowAt(|currentFiltered|, renderedTop, clientHeight), selectedIndex)
    }

    /** Every loaded family has had its stylesheet requested. */
    ghost predicate LoaderValid()
      reads this`loadedFonts, this`requests
    {
      forall f :: f in loadedFonts ==> f in requests
    }

    /** The snapshot map holds, for each touched element, its values from before the first apply. */
    ghost predicate StylesValid()
      reads this`originalFonts, this`baseline, page`styles
    {
      SnapshotsAgree(PageState(page.styles, originalFonts), baseline)
    }

    ghost predicate Valid()
      reads this, page
    {
      ViewValid() && RowsValid() && LoaderValid() && StylesValid() && currentFont != Some("")
    }

    /**
     * The widget once its panel has first opened: the catalogue is in, every
     * control is at its default, and the full list is rendered from the top.
     */
    constructor (fonts: seq<FontDescriptor>, usingFallback: bool, clientHeight: nat, page: Page)
      ensures Valid()
      ensures this.fonts == fonts && this.usingFallback == usingFallback && this.page == page
      ensures this.clientHeight == clientHeight
      ensures query == "" && category == ALL_CATEGORIES && currentFiltered == fonts
      ensures weight == DEFAULT_WEIGHT && lineHeight == DEFAULT_LINE_HEIGHT && sizeText == "" && !important
      ensures loadedFonts == {} && requests == [] && originalFonts == map[] && currentFont == None
      ensures selectorText == "" && selectedIndex == -1 && scrollTop == 0
      ensures renderedTop == 0 && rows == RenderRows(fonts, WindowAt(|fonts|, 0, clientHeight), -1) && previewed == {}
      ensures status == ShowCount(|fonts|, |fonts|, usingFallback)
    {
      this.fonts := fonts;
      this.usingFallback := usingFallback;
      this.clientHeight := clientHeight;
      this.page := page;
      query := "";
      category := ALL_CATEGORIES;
      selectorText := "";
      weight := DEFAULT_WEIGHT;
      sizeText := "";
      lineHeight := DEFAULT_LINE_HEIGHT;
      important := false;
      loadedFonts := {};
      requests := [];
      originalFonts := map[];
      currentFont := None;
      FilterEverything(fonts);
      currentFiltered := fonts;
      selectedIndex := -1;
      scrollTop := 0;
      renderedTop := 0;
      rows := RenderRows(fonts, WindowAt(|fonts|, 0, clientHeight), -1);
      previewed := {};
      status := ShowCount(|fonts|, |fonts|, usingFallback);
      baseline := page.styles;
    }

    /**
     * `loadFont`: a family not yet loaded is added to the set and its stylesheet
     * requested; a family already in the set issues no new request.
     */
    method LoadFont(family: string)
      requires Valid()
      modifies this`loadedFonts, this`requests
      ensures Valid()
      ensures loadedFonts == old(loadedFonts) + {family}
      ensures requests == if family in old(loadedFonts) then old(requests) else old(requests) + [family]
    {
      if family in loadedFonts {
        return;
      }
      loadedFonts := loadedFonts + {family};
      requests := requests + [family];
    }

    /** The stylesheet request for `family` failed: the family leaves the set so it can be loaded again. */
    method FontLoadFailed(family: string)
      requires Valid() && family in requests
      modifies this`loadedFonts
      ensures Valid()
      ensures loadedFonts == old(loadedFonts) - {family}
    {
      loadedFonts := loadedFonts - {family};
    }

    /**
     * The inner list content is present exactly when the filter matches some
     * catalogue entry; without it no row is rendered.
     */
    function HasInner(): bool
      reads this
    {
      |currentFiltered| > 0
    }

    /** `renderVisibleItems`: rebuild the rendered rows for the current scroll offset. */
    method RenderVisibleItems()
      requires ViewValid() && LoaderValid() && StylesValid() && currentFont != Some("")
      requires !HasInner() ==> RowsValid()
      modifies this`rows, this`previewed, this`renderedTop
      ensures Valid()
      ensures HasInner() ==>
        && rows == RenderRows(currentFiltered, WindowAt(|currentFiltered|, scrollTop, clientHeight), selectedIndex)
        && previewed == {} && renderedTop == scrollTop
      ensures !HasInner() ==> rows == old(rows) && previewed == old(previewed) && renderedTop == old(renderedTop)
    {
      if !HasInner() {
        return;
      }
      renderedTop := scrollTop;
      rows := RenderRows(currentFiltered, WindowAt(|currentFiltered|, scrollTop, clientHeight), selectedIndex);
      previewed := {};
    }

    /**
     * `renderFonts`: recompute the view, show the count unless a font is current,
     * re-locate the current font in the new view (or clear the selection when no
     * font is current), and render the window; an empty view shows a placeholder
     * and keeps the old index.
     */
    method RenderFonts()
      requires LoaderValid() && StylesValid() && currentFont != Some("") && -1 <= selectedIndex
      modifies this`currentFiltered, this`status, this`selectedIndex, this`scrollTop
      modifies this`rows, this`previewed, this`renderedTop
      ensures Valid()
      ensures currentFiltered == FilteredFonts(fonts, query, category)
      ensures status == if currentFont.None? then ShowCount(|currentFiltered|, |fonts|, usingFallback) else old(status)
      ensures |currentFiltered| == 0 ==> selectedIndex == old(selectedIndex) && rows == [] && scrollTop == 0
      ensures |currentFiltered| > 0 ==>
        selectedIndex == if currentFont.Some? then FindFamily(currentFiltered, currentFont.value) else -1
      ensures |currentFiltered| > 0 ==>
        && scrollTop == ClampScroll(old(scrollTop), |currentFiltered|, clientHeight)
        && rows == RenderRows(currentFiltered, WindowAt(|currentFiltered|, scrollTop, clientHeight), selectedIndex)
      ensures previewed == {}
    {
      currentFiltered := FilteredFonts(fonts, query, category);
      if currentFont.None? {
        status := ShowCount(|currentFiltered|, |fonts|, usingFallback);
      }
      if |currentFiltered| == 0 {
        ShowPlaceholder();
      } else {
        RenderMatches();
      }
    }

    /** The placeholder replaces the list content of an empty view; the browser clamps the offset to zero. */
    method ShowPlaceholder()
      requires LoaderValid() && StylesValid() && currentFont != Some("") && -1 <= selectedIndex
      requires currentFiltered == FilteredFonts(fonts, query, category) && currentFiltered == []
      modifies this`scrollTop, this`rows, this`previewed, this`renderedTop
      ensures Valid()
      ensures rows == [] && scrollTop == 0 && previewed == {}
    {
      rows := [];
      previewed := {};
      renderedTop := 0;
      scrollTop := ClampScroll(scrollTop, 0, clientHeight);
    }

    /**
     * A non-empty view: the highlight follows the current font (or clears when
     * none is current), the browser clamps the offset to the new list height,
     * and the window is rendered.
     */
    method RenderMatches()
      requires LoaderValid() && StylesValid() && currentFont != Some("")
      requires currentFiltered == FilteredFonts(fonts, query, category) && currentFiltered != []
      modifies this`selectedIndex, this`scrollTop, this`rows, this`previewed, this`renderedTop
      ensures Valid()
      ensures selectedIndex == if currentFont.Some? then FindFamily(currentFiltered, currentFont.value) else -1
      ensures scrollTop == ClampScroll(old(scrollTop), |currentFiltered|, clientHeight)
      ensures rows == RenderRows(currentFiltered, WindowAt(|currentFiltered|, scrollTop, clientHeight), selectedIndex)
      ensures previewed == {}
    {
      if currentFont.Some? {
        selectedIndex := FindFamily(currentFiltered, currentFont.value);
      } else {
        selectedIndex := -1;
      }
      scrollTop := ClampScroll(scrollTop, |currentFiltered|, clientHeight);
      RenderVisibleItems();
    }

    /**
     * `updateSelection`: move the highlight among the rendered rows without
     * re-rendering; with no list content it does nothing at all.
     */
    method UpdateSelection(k: int)
      requires Valid()
      requires HasInner() ==> -1 <= k < |currentFiltered|
      modifies this`rows, this`selectedIndex
      ensures Valid()
      ensures HasInner() ==> selectedIndex == k
      ensures !HasInner() ==> selectedIndex == old(selectedIndex)
      ensures rows == RenderRows(currentFiltered, WindowAt(|currentFiltered|, renderedTop, clientHeight), selectedIndex)
      ensures HighlightOnly(rows, selectedIndex)
    {
      if HasInner() {
        PatchHighlight(k);
      }
      RenderedHighlight(currentFiltered, WindowAt(|currentFiltered|, renderedTop, clientHeight), selectedIndex);
    }

    /** The highlight patch itself: the old highlighted row off, row `k` on, nothing re-rendered. */
    method PatchHighlight(k: int)
      requires Valid() && HasInner() && -1 <= k < |currentFiltered|
      modifies this`rows, this`selectedIndex
      ensures Valid() && selectedIndex == k
      ensures rows == MoveHighlight(old(rows), k)
    {
      MoveHighlightRerenders(currentFiltered, WindowAt(|currentFiltered|, renderedTop, clientHeight), selectedIndex, k);
      rows := MoveHighlight(rows, k);
      selectedIndex := k;
    }

    /** The `applyFont` values the controls currently give for `fontName`. */
    function CurrentStyling(fontName: string): Styling
      reads this`weight, this`sizeText, this`lineHeight, this`important
    {
      Styling(fontName, weight, ParseSize(sizeText), lineHeight, Priority(important))
    }

    /**
     * `applyFont`: nothing for no font; otherwise load the font and make it
     * current, then style every element the selector matches (snapshotting each
     * on first touch) and name the font in the status line, or, for a malformed
     * selector, report it and touch no element.
     */
    method ApplyFont(fontName: Option<string>)
      requires Valid()
      modifies this`loadedFonts, this`requests, this`currentFont, this`originalFonts, this`status, page`styles
      ensures Valid()
      ensures baseline == old(baseline)
      ensures fontName.None? || fontName == Some("") ==>
        && currentFont == old(currentFont) && loadedFonts == old(loadedFonts) && requests == old(requests)
        && page.styles == old(page.styles) && originalFonts == old(originalFonts) && status == old(status)
      ensures fontName.Some? && fontName != Some("") ==>
        && currentFont == fontName
        && loadedFonts == old(loadedFonts) + {fontName.value}
        && requests == if fontName.value in old(loadedFonts) then old(requests) else old(requests) + [fontName.value]
      ensures fontName.Some? && fontName != Some("") && Targets().None? ==>
        && status == ShowInvalidSelector
        && page.styles == old(page.styles) && originalFonts == old(originalFonts)
      ensures fontName.Some? && fontName != Some("") && Targets().Some? ==>
        && PageState(page.styles, originalFonts) == ApplyEach(PageState(old(page.styles), old(originalFonts)), Targets().value, CurrentStyling(fontName.value))
        && status == ShowCurrent(fontName.value)
    {
      if fontName.None? || fontName.value == "" {
        return;
      }
      var name := fontName.value;
      LoadAndSelect(name);
      StyleTargets(name);
    }

    /** The first half of an apply: the font is loaded and becomes current. */
    method LoadAndSelect(name: string)
      requires Valid() && name != ""
      modifies this`loadedFonts, this`requests, this`currentFont
      ensures Valid() && currentFont == Some(name)
      ensures loadedFonts == old(loadedFonts) + {name}
      ensures requests == if name in old(loadedFonts) then old(requests) else old(requests) + [name]
    {
      LoadFont(name);
      currentFont := Some(name);
    }

    /** The elements the selector field currently matches, or none when it is malformed. */
    function Targets(): Option<seq<ElementId>>
      reads this`selectorText
    {
      page.select(SelectorText(selectorText))
    }

    /** The styling half of an apply: the matched elements are styled and the status names the font. */
    method StyleTargets(name: string)
      requires StylesValid()
      modifies this`originalFonts, this`status, page`styles
      ensures StylesValid()
      ensures Targets().None? ==>
        && status == ShowInvalidSelector
        && page.styles == old(page.styles) && originalFonts == old(originalFonts)
      ensures Targets().Some? ==>
        && PageState(page.styles, originalFonts) == ApplyEach(PageState(old(page.styles), old(originalFonts)), Targets().value, CurrentStyling(name))
        && status == ShowCurrent(name)
    {
      var matched := Targets();
      if matched.None? {
        status := ShowInvalidSelector;
        return;
      }
      status := ShowCurrent(name);
      ghost var before := PageState(page.styles, originalFonts);
      var d := CurrentStyling(name);
      StyleMatches(matched.value, d);
      assert Targets() == matched && CurrentStyling(name) == d;
      assert before == PageState(old(page.styles), old(originalFonts));
    }

    /**
     * The `forEach` over the matched elements: each is snapshotted unless it
     * already has a snapshot, then styled.
     */
    method StyleMatches(els: seq<ElementId>, d: Styling)
      requires StylesValid()
      modifies this`originalFonts, page`styles
      ensures StylesValid()
      ensures PageState(page.styles, originalFonts) == ApplyEach(PageState(old(page.styles), old(originalFonts)), els, d)
    {
      ghost var start := PageState(page.styles, originalFonts);
      var i := 0;
      while i < |els|
        invariant 0 <= i <= |els|
        invariant PageState(page.styles, originalFonts) == ApplyEach(start, els[..i], d)
      {
        var el := els[i];
        if el !in originalFonts {
          originalFonts := originalFonts[el := TakeSnapshot(StyleOf(page.styles, el))];
        }
        page.styles := page.styles[el := StyleElement(StyleOf(page.styles, el), d)];
        ApplyEachStep(start, els, i, d);
        i := i + 1;
      }
      assert els[..|els|] == els;
      ApplyKeepsSnapshotsAgree(start, els, d, baseline);
    }

    /**
     * The reset button: every snapshotted element gets its four stored values
     * back, the snapshot map empties, no font is current, the highlight clears
     * and the status shows the count.
     */
    method Reset()
      requires Valid()
      modifies this`originalFonts, this`currentFont, this`rows, this`selectedIndex, this`status, this`baseline, page`styles
      ensures Valid()
      ensures page.styles == RestoreAll(old(page.styles), old(originalFonts))
      ensures forall e :: TakeSnapshot(StyleOf(page.styles, e)) == TakeSnapshot(StyleOf(old(baseline), e))
      ensures originalFonts == map[] && currentFont == None
      ensures HasInner() ==> selectedIndex == -1
      ensures !HasInner() ==> selectedIndex == old(selectedIndex)
      ensures status == ShowCount(|currentFiltered|, |fonts|, usingFallback)
    {
      RestoreStyles();
      UpdateSelection(-1);
      status := ShowCount(|currentFiltered|, |fonts|, usingFallback);
    }

    /** The styling half of a reset: the page gets its stored values back, the map empties, no font is current. */
    method RestoreStyles()
      requires Valid()
      modifies this`originalFonts, this`currentFont, this`baseline, page`styles
      ensures Valid()
      ensures page.styles == RestoreAll(old(page.styles), old(originalFonts))
      ensures forall e :: TakeSnapshot(StyleOf(page.styles, e)) == TakeSnapshot(StyleOf(old(baseline), e))
      ensures originalFonts == map[] && currentFont == None
    {
      RestoreAllRecoversBaseline(PageState(page.styles, originalFonts), baseline);
      RestoreOriginals();
      originalFonts := map[];
      baseline := page.styles;
      currentFont := None;
    }

    /** An element's style once every snapshotted element outside `pending` has been restored. */
    static function RestoredUpTo(before: map<ElementId, InlineStyle>, originals: map<ElementId, Snapshot>, pending: set<ElementId>, e: ElementId): InlineStyle
    {
      if e in originals && e !in pending then Restore(StyleOf(before, e), originals[e]) else StyleOf(before, e)
    }

    /** The reset handler's `forEach` over the snapshot map: each element gets its four values back. */
    method RestoreOriginals()
      modifies page`styles
      ensures page.styles == RestoreAll(old(page.styles), originalFonts)
    {
      ghost var before := page.styles;
      var pending := originalFonts.Keys;
      while pending != {}
        invariant pending <= originalFonts.Keys
        invariant page.styles.Keys == before.Keys + (originalFonts.Keys - pending)
        invariant forall e :: StyleOf(page.styles, e) == RestoredUpTo(before, originalFonts, pending, e)
        decreases pending
      {
        var el :| el in pending;
        ghost var prev := page.styles;
        assert StyleOf(prev, el) == StyleOf(before, el);
        page.styles := page.styles[el := Restore(StyleOf(page.styles, el), originalFonts[el])];
        pending := pending - {el};
        forall e
          ensures StyleOf(page.styles, e) == RestoredUpTo(before, originalFonts, pending, e)
        {
          if e != el {
            assert StyleOf(page.styles, e) == StyleOf(prev, e);
          }
        }
      }
      RestoreAllIsPointwise(before, originalFonts, page.styles);
    }

    /** The search box settles on `text`: the view is recomputed for it. */
    method Search(text: string)
      requires Valid()
      modifies this`query, this`currentFiltered, this`status, this`selectedIndex, this`scrollTop
      modifies this`rows, this`previewed, this`renderedTop
      ensures Valid()
      ensures query == text && currentFiltered == FilteredFonts(fonts, text, category)
      ensures currentFont == old(currentFont)
      ensures status == if currentFont.None? then ShowCount(|currentFiltered|, |fonts|, usingFallback) else old(status)
      ensures |currentFiltered| == 0 ==> selectedIndex == old(selectedIndex) && rows == [] && scrollTop == 0
      ensures |currentFiltered| > 0 ==>
        selectedIndex == if currentFont.Some? then FindFamily(currentFiltered, currentFont.value) else -1
      ensures |currentFiltered| > 0 ==>
        && scrollTop == ClampScroll(old(scrollTop), |currentFiltered|, clientHeight)
        && rows == RenderRows(currentFiltered, WindowAt(|currentFiltered|, scrollTop, clientHeight), selectedIndex)
      ensures previewed == {}
    {
      query := text;
      RenderFonts();
    }

    /** A category button: the view is recomputed for that category. */
    method SelectCategory(c: string)
      requires Valid()
      modifies this`category, this`currentFiltered, this`status, this`selectedIndex, this`scrollTop
      modifies this`rows, this`previewed, this`renderedTop
      ensures Valid()
      ensures category == c && currentFiltered == FilteredFonts(fonts, query, c)
      ensures currentFont == old(currentFont)
      ensures status == if currentFont.None? then ShowCount(|currentFiltered|, |fonts|, usingFallback) else old(status)
      ensures |currentFiltered| == 0 ==> selectedIndex == old(selectedIndex) && rows == [] && scrollTop == 0
      ensures |currentFiltered| > 0 ==>
        selectedIndex == if currentFont.Some? then FindFamily(currentFiltered, currentFont.value) else -1
      ensures |currentFiltered| > 0 ==>
        && scrollTop == ClampScroll(old(scrollTop), |currentFiltered|, clientHeight)
        && rows == RenderRows(currentFiltered, WindowAt(|currentFiltered|, scrollTop, clientHeight), selectedIndex)
      ensures previewed == {}
    {
      category := c;
      RenderFonts();
    }

    /** The list scrolls to `top`, an offset the browser allows: the window is re-rendered there. */
    method Scroll(top: nat)
      requires Valid() && top <= MaxScroll(|currentFiltered|, clientHeight)
      modifies this`scrollTop, this`rows, this`previewed, this`renderedTop
      ensures Valid() && scrollTop == top
      ensures HasInner() ==> rows == RenderRows(currentFiltered, WindowAt(|currentFiltered|, top, clientHeight), selectedIndex) && previewed == {}
      ensures !HasInner() ==> rows == old(rows) && previewed == old(previewed)
    {
      scrollTop := top;
      RenderVisibleItems();
    }

    /**
     * The visibility signal for the rendered row at position `j`: the first time
     * it fires for that row, the row's family is loaded and its preview drawn.
     */
    method RowBecameVisible(j: nat)
      requires Valid() && j < |rows|
      modifies this`loadedFonts, this`requests, this`previewed
      ensures Valid()
      ensures rows[j].index !in old(previewed) ==>
        && loadedFonts == old(loadedFonts) + {rows[j].family}
        && requests == if rows[j].family in old(loadedFonts) then old(requests) else old(requests) + [rows[j].family]
      ensures previewed == old(previewed) + {rows[j].index}
      ensures rows[j].index in old(previewed) ==> loadedFonts == old(loadedFonts) && requests == old(requests)
    {
      if rows[j].index in previewed {
        return;
      }
      LoadFont(rows[j].family);
      previewed := previewed + {rows[j].index};
    }

    /** A click on the rendered row at position `j`: select it and apply its font in one step. */
    method ClickRow(j: nat)
      requires Valid() && j < |rows|
      modifies this`rows, this`selectedIndex, this`loadedFonts, this`requests, this`currentFont
      modifies this`originalFonts, this`status, page`styles
      ensures Valid()
      ensures selectedIndex == old(rows[j].index)
      ensures currentFont == Some(old(rows[j].family)) || old(rows[j].family) == ""
      ensures old(rows[j].family) in loadedFonts || old(rows[j].family) == ""
    {
      var w := WindowAt(|currentFiltered|, renderedTop, clientHeight);
      RenderedRowsShape(currentFiltered, w, selectedIndex);
      var row := rows[j];
      UpdateSelection(row.index);
      ApplyFont(Some(row.family));
    }

    /** `scrollToSelected`: scroll just enough to show the selected row fully; nothing without a selection. */
    method ScrollToSelected()
      requires Valid() && HasInner()
      modifies this`scrollTop
      ensures Valid()
      ensures selectedIndex < 0 ==> scrollTop == old(scrollTop)
      ensures selectedIndex >= 0 ==> scrollTop == RevealTop(selectedIndex, old(scrollTop), clientHeight)
      ensures 0 <= selectedIndex && ITEM_HEIGHT <= clientHeight ==> FullyVisible(selectedIndex, scrollTop, clientHeight)
      ensures 0 <= selectedIndex && FullyVisible(selectedIndex, old(scrollTop), clientHeight) ==> scrollTop == old(scrollTop)
    {
      if selectedIndex < 0 {
        return;
      }
      RevealWithinScrollRange(|currentFiltered|, selectedIndex, scrollTop, clientHeight);
      scrollTop := ClampScroll(RevealTop(selectedIndex, scrollTop, clientHeight), |currentFiltered|, clientHeight);
    }

    /**
     * The list's keydown handler: nothing on an empty view; the arrows move the
     * highlight one row, clamped to the view, and reveal it without applying;
     * Enter applies the highlighted entry's font when there is one.
     */
    method KeyDown(key: Key)
      requires Valid()
      modifies this`rows, this`selectedIndex, this`scrollTop, this`loadedFonts, this`requests, this`currentFont
      modifies this`originalFonts, this`status, page`styles
      ensures Valid()
      ensures |currentFiltered| == 0 || key == OtherKey || (key == Enter && old(selectedIndex) < 0) ==>
        && selectedIndex == old(selectedIndex) && scrollTop == old(scrollTop) && rows == old(rows)
        && currentFont == old(currentFont) && page.styles == old(page.styles) && originalFonts == old(originalFonts)
        && status == old(status) && loadedFonts == old(loadedFonts) && requests == old(requests)
      ensures |currentFiltered| > 0 && key == ArrowDown ==>
        selectedIndex == (if old(selectedIndex) + 1 < |currentFiltered| then old(selectedIndex) + 1 else |currentFiltered| - 1)
      ensures |currentFiltered| > 0 && key == ArrowUp ==>
        selectedIndex == (if old(selectedIndex) - 1 > 0 then old(selectedIndex) - 1 else 0)
      ensures |currentFiltered| > 0 && (key == ArrowDown || key == ArrowUp) ==>
        && 0 <= selectedIndex < |currentFiltered|
        && currentFont == old(currentFont) && page.styles == old(page.styles) && originalFonts == old(originalFonts)
        && status == old(status) && loadedFonts == old(loadedFonts) && requests == old(requests)
        && scrollTop == RevealTop(selectedIndex, old(scrollTop), clientHeight)
      ensures |currentFiltered| > 0 && key == Enter && old(selectedIndex) >= 0 ==>
        && selectedIndex == old(selectedIndex)
        && (currentFont == Some(currentFiltered[selectedIndex].family) || currentFiltered[selectedIndex].family == "")
    {
      if |currentFiltered| == 0 {
        return;
      }
      if key == ArrowDown {
        MoveSelection(if selectedIndex + 1 < |currentFiltered| then selectedIndex + 1 else |currentFiltered| - 1);
      } else if key == ArrowUp {
        MoveSelection(if selectedIndex - 1 > 0 then selectedIndex - 1 else 0);
      } else if key == Enter && selectedIndex >= 0 {
        ApplyFont(Some(currentFiltered[selectedIndex].family));
      }
    }

    /** An arrow key's step: highlight row `k` and scroll it into view, applying nothing. */
    method MoveSelection(k: int)
      requires Valid() && HasInner() && 0 <= k < |currentFiltered|
      modifies this`rows, this`selectedIndex, this`scrollTop
      ensures Valid() && selectedIndex == k
      ensures scrollTop == RevealTop(k, old(scrollTop), clientHeight)
    {
      UpdateSelection(k);
      ScrollToSelected();
    }

    /**
     * The controls that re-apply the current font on change (weight, size, line
     * height, priority): the new value is stored, and with a current font the
     * matched elements are styled again with every control's value.
     */
    method SetWeight(w: string)
      requires Valid()
      modifies this`weight, this`loadedFonts, this`requests, this`currentFont, this`originalFonts, this`status, page`styles
      ensures Valid() && weight == w && currentFont == old(currentFont)
      ensures currentFont.None? ==>
        && page.styles == old(page.styles) && originalFonts == old(originalFonts) && status == old(status)
        && loadedFonts == old(loadedFonts) && requests == old(requests)
      ensures currentFont.Some? ==>
        && loadedFonts == old(loadedFonts) + {currentFont.value}
        && requests == if currentFont.value in old(loadedFonts) then old(requests) else old(requests) + [currentFont.value]
      ensures currentFont.Some? && Targets().Some? ==>
        && PageState(page.styles, originalFonts) == ApplyEach(PageState(old(page.styles), old(originalFonts)), Targets().value, CurrentStyling(currentFont.value))
        && status == ShowCurrent(currentFont.value)
      ensures currentFont.Some? && Targets().None? ==>
        page.styles == old(page.styles) && originalFonts == old(originalFonts) && status == ShowInvalidSelector
    {
      weight := w;
      ApplyFont(currentFont);
    }

    method SetSize(text: string)
      requires Valid()
      modifies this`sizeText, this`loadedFonts, this`requests, this`currentFont, this`originalFonts, this`status, page`styles
      ensures Valid() && sizeText == text && currentFont == old(currentFont)
      ensures currentFont.None? ==>
        && page.styles == old(page.styles) && originalFonts == old(originalFonts) && status == old(status)
        && loadedFonts == old(loadedFonts) && requests == old(requests)
      ensures currentFont.Some? ==>
        && loadedFonts == old(loadedFonts) + {currentFont.value}
        && requests == if currentFont.value in old(loadedFonts) then old(requests) else old(requests) + [currentFont.value]
      ensures currentFont.Some? && Targets().Some? ==>
        && PageState(page.styles, originalFonts) == ApplyEach(PageState(old(page.styles), old(originalFonts)), Targets().value, CurrentStyling(currentFont.value))
        && status == ShowCurrent(currentFont.value)
      ensures currentFont.Some? && Targets().None? ==>
        page.styles == old(page.styles) && originalFonts == old(originalFonts) && status == ShowInvalidSelector
    {
      sizeText := text;
      ApplyFont(currentFont);
    }

    method SetLineHeight(value: string)
      requires Valid()
      modifies this`lineHeight, this`loadedFonts, this`requests, this`currentFont, this`originalFonts, this`status, page`styles
      ensures Valid() && lineHeight == value && currentFont == old(currentFont)
      ensures currentFont.None? ==>
        && page.styles == old(page.styles) && originalFonts == old(originalFonts) && status == old(status)
        && loadedFonts == old(loadedFonts) && requests == old(requests)
      ensures currentFont.Some? ==>
        && loadedFonts == old(loadedFonts) + {currentFont.value}
        && requests == if currentFont.value in old(loadedFonts) then old(requests) else old(requests) + [currentFont.value]
      ensures currentFont.Some? && Targets().Some? ==>
        && PageState(page.styles, originalFonts) == ApplyEach(PageState(old(page.styles), old(originalFonts)), Targets().value, CurrentStyling(currentFont.value))
        && status == ShowCurrent(currentFont.value)
      ensures currentFont.Some? && Targets().None? ==>
        page.styles == old(page.styles) && originalFonts == old(originalFonts) && status == ShowInvalidSelector
    {
      lineHeight := value;
      ApplyFont(currentFont);
    }

    method SetImportant(checked: bool)
      requires Valid()
      modifies this`important, this`loadedFonts, this`requests, this`currentFont, this`originalFonts, this`status, page`styles
      ensures Valid() && important == checked && currentFont == old(currentFont)
      ensures currentFont.None? ==>
        && page.styles == old(page.styles) && originalFonts == old(originalFonts) && status == old(status)
        && loadedFonts == old(loadedFonts) && requests == old(requests)
      ensures currentFont.Some? ==>
        && loadedFonts == old(loadedFonts) + {currentFont.value}
        && requests == if currentFont.value in old(loadedFonts) then old(requests) else old(requests) + [currentFont.value]
      ensures currentFont.Some? && Targets().Some? ==>
        && PageState(page.styles, originalFonts) == ApplyEach(PageState(old(page.styles), old(originalFonts)), Targets().value, CurrentStyling(currentFont.value))
        && status == ShowCurrent(currentFont.value)
      ensures currentFont.Some? && Targets().None? ==>
        page.styles == old(page.styles) && originalFonts == old(originalFonts) && status == ShowInvalidSelector
    {
      important := checked;
      ApplyFont(currentFont);
    }

    /** The selector field: read by the next apply, no handler of its own. */
    method SetSelector(text: string)
      requires Valid()
      modifies this`selectorText
      ensures Valid() && selectorText == text
    {
      selectorText := text;
    }

    /** The copy button: the CSS text for the clipboard, or "Nothing to copy" in the status line. */
    method CopyCss() returns (css: Option<string>)
      requires Valid()
      modifies this`status
      ensures Valid()
      ensures css == CopyText(currentFont, weight, sizeText, lineHeight)
      ensures css.None? ==> status == ShowNothingToCopy
      ensures css.Some? ==> status == old(status)
    {
      css := CopyText(currentFont, weight, sizeText, lineHeight);
      if css.None? {
        status := ShowNothingToCopy;
      }
    }
  }
}
