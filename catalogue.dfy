/**
 * The font catalogue and the filter engine: the view the list shows is the
 * catalogue, in its own order, restricted by the search text and the category.
 */
module Catalogue {

  import opened Basics
  import opened Text

  /** One catalogue entry; `category` is the provider's category name. */
  datatype FontDescriptor = FontDescriptor(family: string, category: string)

  /** The category button that disables category filtering. */
  const ALL_CATEGORIES: string := "all"

  /** The per-entry test of the filter, with the search text already lower-cased. */
  predicate Matches(font: FontDescriptor, queryLower: string, category: string)
  {
    Contains(LowerCase(font.family), queryLower)
    && (category == ALL_CATEGORIES || font.category == category)
  }

  /** `fonts.filter(...)` with the per-entry test `Matches`. */
  function FilterBy(fonts: seq<FontDescriptor>, queryLower: string, category: string): (r: seq<FontDescriptor>)
    ensures |r| <= |fonts|
    ensures forall x :: x in r ==> x in fonts && Matches(x, queryLower, category)
  {
    if fonts == [] then []
    else
      (if Matches(fonts[0], queryLower, category) then [fonts[0]] else [])
      + FilterBy(fonts[1..], queryLower, category)
  }

  /** The filtered view for the raw search-box text `query` (lower-cased first, as the widget does). */
  function FilteredFonts(fonts: seq<FontDescriptor>, query: string, category: string): seq<FontDescriptor>
  {
    FilterBy(fonts, LowerCase(query), category)
  }

  /**
   * The view for the raw search-box text holds exactly the catalogue entries
   * whose lower-cased family includes the lower-cased text and whose category
   * fits, in catalogue order.
   */
  lemma FilteredFontsExactly(fonts: seq<FontDescriptor>, query: string, category: string)
    ensures var view := FilteredFonts(fonts, query, category);
      && (forall x :: x in view <==> x in fonts && Matches(x, LowerCase(query), category))
      && IsSubsequence(view, fonts)
  {
    var q := LowerCase(query);
    FilterIsSubsequence(fonts, q, category);
    forall x | x in fonts && Matches(x, q, category) ensures x in FilterBy(fonts, q, category) {
      FilterComplete(fonts, q, category, x);
    }
  }

  /** Every matching catalogue entry is kept. */
  lemma {:induction false} FilterComplete(fonts: seq<FontDescriptor>, queryLower: string, category: string, x: FontDescriptor)
    requires x in fonts && Matches(x, queryLower, category)
    ensures x in FilterBy(fonts, queryLower, category)
  {
    if fonts[0] != x {
      FilterComplete(fonts[1..], queryLower, category, x);
    }
  }

  /** The view is the catalogue with entries deleted: original relative order is kept. */
  lemma {:induction false} FilterIsSubsequence(fonts: seq<FontDescriptor>, queryLower: string, category: string)
    ensures IsSubsequence(FilterBy(fonts, queryLower, category), fonts)
  {
    if fonts != [] {
      var rest := FilterBy(fonts[1..], queryLower, category);
      FilterIsSubsequence(fonts[1..], queryLower, category);
      if Matches(fonts[0], queryLower, category) {
        assert FilterBy(fonts, queryLower, category) == [fonts[0]] + rest;
        assert ([fonts[0]] + rest)[1..] == rest;
      } else {
        assert FilterBy(fonts, queryLower, category) == rest;
        assert rest != [] ==> rest[0] in rest;
      }
    }
  }

  /** Filtering a concatenation filters each part: the filter is stable. */
  lemma {:induction false} FilterConcat(a: seq<FontDescriptor>, b: seq<FontDescriptor>, queryLower: string, category: string)
    ensures FilterBy(a + b, queryLower, category) == FilterBy(a, queryLower, category) + FilterBy(b, queryLower, category)
  {
    if a == [] {
      assert a + b == b;
    } else {
      assert (a + b)[0] == a[0];
      assert (a + b)[1..] == a[1..] + b;
      FilterConcat(a[1..], b, queryLower, category);
    }
  }

  /** An empty search in the "all" category shows the whole catalogue. */
  lemma {:induction false} FilterEverything(fonts: seq<FontDescriptor>)
    ensures FilteredFonts(fonts, "", ALL_CATEGORIES) == fonts
  {
    assert LowerCase("") == "";
    if fonts != [] {
      ContainsEmpty(LowerCase(fonts[0].family));
      FilterEverything(fonts[1..]);
      assert fonts == [fonts[0]] + fonts[1..];
    }
  }

  /** A sequence whose every entry matches passes through the filter unchanged. */
  lemma {:induction false} FilterKeepsMatching(fonts: seq<FontDescriptor>, queryLower: string, category: string)
    requires forall k :: 0 <= k < |fonts| ==> Matches(fonts[k], queryLower, category)
    ensures FilterBy(fonts, queryLower, category) == fonts
  {
    if fonts != [] {
      assert Matches(fonts[0], queryLower, category);
      FilterKeepsMatching(fonts[1..], queryLower, category);
      assert fonts == [fonts[0]] + fonts[1..];
    }
  }

  /** Re-running the filter on its own output changes nothing. */
  lemma FilterIdempotent(fonts: seq<FontDescriptor>, queryLower: string, category: string)
    ensures FilterBy(FilterBy(fonts, queryLower, category), queryLower, category) == FilterBy(fonts, queryLower, category)
  {
    var r := FilterBy(fonts, queryLower, category);
    forall k | 0 <= k < |r| ensures Matches(r[k], queryLower, category) {
      assert r[k] in r;
    }
    FilterKeepsMatching(r, queryLower, category);
  }

  /** `currentFiltered.findIndex(f => f.family === family)`. */
  function FindFamily(view: seq<FontDescriptor>, family: string): (r: int)
    ensures -1 <= r < |view|
    ensures r >= 0 ==> view[r].family == family && forall j :: 0 <= j < r ==> view[j].family != family
    ensures r == -1 <==> forall j :: 0 <= j < |view| ==> view[j].family != family
  {
    IndexWhere(view, (d: FontDescriptor) => d.family == family)
  }

  /**
   * Selection persistence across a filter change: when the new view still holds an
   * entry of the selected family, re-resolution finds that family's first position.
   */
  lemma ReselectAfterFilter(fonts: seq<FontDescriptor>, query: string, category: string, x: FontDescriptor)
    requires x in fonts && Matches(x, LowerCase(query), category)
    ensures var view := FilteredFonts(fonts, query, category);
      var k := FindFamily(view, x.family);
      0 <= k < |view| && view[k].family == x.family
  {
    FilterComplete(fonts, LowerCase(query), category, x);
  }
}
