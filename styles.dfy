/**
 * The style applier: inline styles of page elements, the four font properties
 * the widget writes, the per-element snapshot taken on first touch, and the
 * restore that undoes every apply.
 */
module Styles {

  import opened Basics
  import opened Text

  /** A page element, by identity. */
  type ElementId = nat

  /** One inline declaration: its value and its priority (`""` or `"important"`). */
  datatype Decl = Decl(value: string, priority: string)

  /** An element's inline style: property name to declaration; a missing property reads as `""`. */
  type InlineStyle = map<string, Decl>

  const FONT_FAMILY: string := "font-family"
  const FONT_WEIGHT: string := "font-weight"
  const FONT_SIZE: string := "font-size"
  const LINE_HEIGHT: string := "line-height"

  /** The properties the widget writes and restores. */
  const FONT_PROPERTIES: set<string> := {FONT_FAMILY, FONT_WEIGHT, FONT_SIZE, LINE_HEIGHT}

  /** Reading `el.style[prop]`. */
  function Get(s: InlineStyle, prop: string): string
  {
    if prop in s then s[prop].value else ""
  }

  /** The two styles hold the same declaration for `prop`, or both lack it. */
  predicate SameDecl(s: InlineStyle, t: InlineStyle, prop: string)
  {
    (prop in s <==> prop in t) && (prop in s ==> s[prop] == t[prop])
  }

  /**
   * `el.style.setProperty(prop, value, priority)`: an empty value removes the
   * declaration; any other value replaces it, priority included.
   */
  function SetProperty(s: InlineStyle, prop: string, value: string, priority: string): (r: InlineStyle)
    ensures Get(r, prop) == value
    ensures prop in r ==> r[prop].priority == priority
    ensures forall p :: p != prop ==> SameDecl(r, s, p)
  {
    if value == "" then s - {prop} else s[prop := Decl(value, priority)]
  }

  /** Plain assignment `el.style.fontFamily = value`: `setProperty` with no priority. */
  function Assign(s: InlineStyle, prop: string, value: string): (r: InlineStyle)
    ensures Get(r, prop) == value
    ensures prop in r ==> r[prop].priority == ""
    ensures forall p :: p != prop ==> SameDecl(r, s, p)
  {
    SetProperty(s, prop, value, "")
  }

  /** The four inline values stored for an element before the widget first touches it. */
  datatype Snapshot = Snapshot(fontFamily: string, fontWeight: string, fontSize: string, lineHeight: string)

  /** Reading the four values off an inline style. */
  function TakeSnapshot(s: InlineStyle): Snapshot
  {
    Snapshot(Get(s, FONT_FAMILY), Get(s, FONT_WEIGHT), Get(s, FONT_SIZE), Get(s, LINE_HEIGHT))
  }

  /**
   * The reset handler's four assignments: every font property reads back as its
   * stored value (a stored `""` clears the property), nothing else changes.
   */
  function Restore(s: InlineStyle, snap: Snapshot): (r: InlineStyle)
    ensures TakeSnapshot(r) == snap
    ensures forall p :: p !in FONT_PROPERTIES ==> SameDecl(r, s, p)
  {
    var s1 := Assign(s, FONT_FAMILY, snap.fontFamily);
    var s2 := Assign(s1, FONT_WEIGHT, snap.fontWeight);
    var s3 := Assign(s2, FONT_SIZE, snap.fontSize);
    Assign(s3, LINE_HEIGHT, snap.lineHeight)
  }

  /** The selector `applyFont` queries: the trimmed selector text, or `body` when it is blank. */
  function SelectorText(raw: string): (r: string)
    ensures r != []
    ensures Trim(raw) != [] ==> r == Trim(raw)
    ensures Trim(raw) == [] ==> r == "body"
  {
    if Trim(raw) == [] then "body" else Trim(raw)
  }

  /** Text matching `^\d+(\.\d+)?$`: digits, optionally followed by a point and more digits. */
  predicate IsDecimal(t: string)
  {
    (t != [] && AllDigits(t))
    || exists i :: 0 < i < |t| - 1 && t[i] == '.' && AllDigits(t[..i]) && AllDigits(t[i + 1..])
  }

  /** The two runs of digits around the point, as the regular expression's groups. */
  predicate DigitsPointDigits(t: string, a: string, b: string)
  {
    a != [] && b != [] && AllDigits(a) && AllDigits(b) && t == a + "." + b
  }

  /** A point at `i` with digits on both sides splits the text into the two groups. */
  lemma PointSplits(t: string, i: int)
    requires 0 < i < |t| - 1 && t[i] == '.' && AllDigits(t[..i]) && AllDigits(t[i + 1..])
    ensures DigitsPointDigits(t, t[..i], t[i + 1..])
  {
    assert t == t[..i] + "." + t[i + 1..];
  }

  /** Two groups joined by a point put the point right after the first group. */
  lemma GroupsJoin(t: string, a: string, b: string)
    requires DigitsPointDigits(t, a, b)
    ensures 0 < |a| < |t| - 1 && t[|a|] == '.' && t[..|a|] == a && t[|a| + 1..] == b
  {
  }

  /**
   * `IsDecimal` is the grammar `^\d+(\.\d+)?$`: a non-empty run of digits, or
   * two non-empty runs of digits joined by one point.
   */
  lemma IsDecimalGrammar(t: string)
    ensures IsDecimal(t) <==> (t != [] && AllDigits(t)) || exists a, b :: DigitsPointDigits(t, a, b)
  {
    if exists i :: 0 < i < |t| - 1 && t[i] == '.' && AllDigits(t[..i]) && AllDigits(t[i + 1..]) {
      var i :| 0 < i < |t| - 1 && t[i] == '.' && AllDigits(t[..i]) && AllDigits(t[i + 1..]);
      PointSplits(t, i);
    }
    if exists a, b :: DigitsPointDigits(t, a, b) {
      var a, b :| DigitsPointDigits(t, a, b);
      GroupsJoin(t, a, b);
    }
  }

  /** The edge cases of the grammar: no empty text, no dangling or leading point, at most one point. */
  lemma IsDecimalExamples()
    ensures !IsDecimal("") && !IsDecimal("1.") && !IsDecimal(".5") && !IsDecimal("1.2.3")
    ensures IsDecimal("007") && IsDecimal("1.25")
  {
    assert !AllDigits("1.") by { assert !IsDigit("1."[1]); }
    assert !AllDigits(".5") by { assert !IsDigit(".5"[0]); }
    var t := "1.2.3";
    assert !AllDigits(t) by { assert !IsDigit(t[1]); }
    forall i | 0 < i < |t| - 1 && t[i] == '.'
      ensures !(AllDigits(t[..i]) && AllDigits(t[i + 1..]))
    {
      if i == 1 {
        assert !IsDigit(t[i + 1..][1]);
      } else {
        assert i == 3;
        assert !IsDigit(t[..i][1]);
      }
    }
    assert AllDigits("007");
    var u := "1.25";
    assert u[1] == '.' && AllDigits(u[..1]) && AllDigits(u[2..]);
  }

  /** A bare number is taken as pixels; anything else (`1.2rem`, `50%`) is kept verbatim. */
  function SizeValue(t: string): (r: string)
    ensures IsDecimal(t) ==> r == t + "px"
    ensures !IsDecimal(t) ==> r == t
  {
    if IsDecimal(t) then t + "px" else t
  }

  /** The size `applyFont` writes: none for blank text, otherwise the trimmed text as a size value. */
  function ParseSize(sizeText: string): (r: Option<string>)
    ensures r.None? <==> Trim(sizeText) == []
    ensures r.Some? ==> r.value == SizeValue(Trim(sizeText)) && r.value != []
  {
    if Trim(sizeText) == [] then None else Some(SizeValue(Trim(sizeText)))
  }

  /** A value that already carries `px` is not a bare number, so it is never suffixed twice. */
  lemma SizeValueIdempotent(t: string)
    ensures SizeValue(SizeValue(t)) == SizeValue(t)
  {
    if IsDecimal(t) {
      var u := t + "px";
      assert u[|u| - 1] == 'x' && !IsDigit('x');
      assert !AllDigits(u);
      forall i | 0 < i < |u| - 1 && u[i] == '.'
        ensures !AllDigits(u[i + 1..])
      {
        assert u[i + 1..][|u| - i - 2] == 'x';
      }
    }
  }

  /** Sizes `16` and `1.2rem` are written as `16px` and `1.2rem`. */
  lemma SizeValueExamples()
    ensures SizeValue("16") == "16px"
    ensures SizeValue("1.2rem") == "1.2rem"
  {
    assert AllDigits("16");
    var t := "1.2rem";
    assert !AllDigits(t) by { assert !IsDigit(t[1]); }
    forall i | 0 < i < |t| - 1 && t[i] == '.'
      ensures !AllDigits(t[i + 1..])
    {
      assert i == 1;
      assert !IsDigit(t[i + 1..][1]);
    }
  }

  /** The declared `font-family` for a picked family: the quoted name with a `sans-serif` fallback. */
  function FamilyValue(fontName: string): string
  {
    "\"" + fontName + "\", sans-serif"
  }

  /** One `applyFont` call's values: family, weight, optional size, line height and shared priority. */
  datatype Styling = Styling(fontName: string, weight: string, size: Option<string>, lineHeight: string, priority: string)

  /** The checkbox's priority: `important` when forced, else none. */
  function Priority(important: bool): string
  {
    if important then "important" else ""
  }

  /** The properties one apply writes: size only when a size is given. */
  function WrittenProperties(d: Styling): (ps: set<string>)
    ensures ps <= FONT_PROPERTIES
  {
    {FONT_FAMILY, FONT_WEIGHT, LINE_HEIGHT} + (if d.size.Some? then {FONT_SIZE} else {})
  }

  /** The four `setProperty` calls `applyFont` makes on one element. */
  function StyleElement(s: InlineStyle, d: Styling): InlineStyle
  {
    var s1 := SetProperty(s, FONT_FAMILY, FamilyValue(d.fontName), d.priority);
    var s2 := SetProperty(s1, FONT_WEIGHT, d.weight, d.priority);
    var s3 := if d.size.Some? then SetProperty(s2, FONT_SIZE, d.size.value, d.priority) else s2;
    SetProperty(s3, LINE_HEIGHT, d.lineHeight, d.priority)
  }

  /**
   * Styling an element writes family, weight and line height always and size
   * only when given, every written declaration with the same priority, and
   * leaves every other property as it was.
   */
  lemma StyleElementWrites(s: InlineStyle, d: Styling)
    ensures var r := StyleElement(s, d);
      && Get(r, FONT_FAMILY) == FamilyValue(d.fontName)
      && Get(r, FONT_WEIGHT) == d.weight
      && Get(r, FONT_SIZE) == (if d.size.Some? then d.size.value else Get(s, FONT_SIZE))
      && Get(r, LINE_HEIGHT) == d.lineHeight
      && (forall p :: p in r && p in WrittenProperties(d) ==> r[p].priority == d.priority)
      && (forall p :: p !in WrittenProperties(d) ==> SameDecl(r, s, p))
  {
  }

  /**
   * The size text as an apply writes it: blank text leaves an element's
   * `font-size` declaration exactly as it was; any other text is written,
   * trimmed and as a size value, with the apply's priority.
   */
  lemma ParseSizeOnPage(s: InlineStyle, fontName: string, weight: string, sizeText: string, lineHeight: string, priority: string)
    ensures var r := StyleElement(s, Styling(fontName, weight, ParseSize(sizeText), lineHeight, priority));
      && (Trim(sizeText) == [] ==> SameDecl(r, s, FONT_SIZE))
      && (Trim(sizeText) != [] ==> FONT_SIZE in r && r[FONT_SIZE] == Decl(SizeValue(Trim(sizeText)), priority))
  {
    var d := Styling(fontName, weight, ParseSize(sizeText), lineHeight, priority);
    var r := StyleElement(s, d);
    StyleElementWrites(s, d);
    if Trim(sizeText) != [] {
      assert FONT_SIZE in WrittenProperties(d);
      assert Get(r, FONT_SIZE) == SizeValue(Trim(sizeText)) != "";
    }
  }

  /** Styling an element twice with the same values gives the same inline style as styling it once. */
  lemma StyleElementIdempotent(s: InlineStyle, d: Styling)
    ensures StyleElement(StyleElement(s, d), d) == StyleElement(s, d)
  {
    var r := StyleElement(s, d);
    var rr := StyleElement(r, d);
    StyleElementWrites(s, d);
    StyleElementWrites(r, d);
    forall p | p in WrittenProperties(d)
      ensures SameDecl(rr, r, p)
    {
      assert Get(rr, p) == Get(r, p);
    }
    assert rr.Keys == r.Keys;
  }

  /** An element's inline style on the page; an element never styled has an empty one. */
  function StyleOf(styles: map<ElementId, InlineStyle>, e: ElementId): InlineStyle
  {
    if e in styles then styles[e] else map[]
  }

  /** The page's inline styles together with the widget's snapshot map (`originalFonts`). */
  datatype PageState = PageState(styles: map<ElementId, InlineStyle>, originals: map<ElementId, Snapshot>)

  /** One iteration of `applyFont`'s `forEach`: snapshot on first touch, then style the element. */
  function ApplyToElement(st: PageState, e: ElementId, d: Styling): PageState
  {
    var originals := if e in st.originals then st.originals else st.originals[e := TakeSnapshot(StyleOf(st.styles, e))];
    PageState(st.styles[e := StyleElement(StyleOf(st.styles, e), d)], originals)
  }

  /** The whole `forEach` over the matched elements, in document order. */
  function ApplyEach(st: PageState, els: seq<ElementId>, d: Styling): PageState
    decreases |els|
  {
    if els == [] then st
    else ApplyToElement(ApplyEach(st, els[..|els| - 1], d), els[|els| - 1], d)
  }

  /** An apply styles element `e` (once, however often it is matched) when it is matched, else leaves it. */
  lemma {:induction false} ApplyEachStyleOf(st: PageState, els: seq<ElementId>, d: Styling, e: ElementId)
    ensures StyleOf(ApplyEach(st, els, d).styles, e) ==
      if e in els then StyleElement(StyleOf(st.styles, e), d) else StyleOf(st.styles, e)
    decreases |els|
  {
    if els != [] {
      var init := els[..|els| - 1];
      var x := els[|els| - 1];
      ApplyEachStyleOf(st, init, d, e);
      assert els == init + [x];
      if e == x && x in init {
        StyleElementIdempotent(StyleOf(st.styles, x), d);
      }
    }
  }

  /**
   * An apply adds a snapshot for `e` only when it is matched and had none, holding
   * its style from before the apply; an existing snapshot is never overwritten.
   */
  lemma {:induction false} ApplyEachSnapshotOf(st: PageState, els: seq<ElementId>, d: Styling, e: ElementId)
    ensures var r := ApplyEach(st, els, d);
      && (e in r.originals <==> e in st.originals || e in els)
      && (e in r.originals ==> r.originals[e] == if e in st.originals then st.originals[e] else TakeSnapshot(StyleOf(st.styles, e)))
    decreases |els|
  {
    if els != [] {
      var init := els[..|els| - 1];
      var x := els[|els| - 1];
      ApplyEachSnapshotOf(st, init, d, e);
      assert els == init + [x];
      if e == x && e !in init {
        ApplyEachStyleOf(st, init, d, e);
      }
    }
  }

  /** The elements with an inline style after an apply: those before plus the matched ones. */
  lemma {:induction false} ApplyEachStyleKeys(st: PageState, els: seq<ElementId>, d: Styling)
    ensures ApplyEach(st, els, d).styles.Keys == st.styles.Keys + (set e | e in els)
    decreases |els|
  {
    if els != [] {
      var init := els[..|els| - 1];
      var x := els[|els| - 1];
      ApplyEachStyleKeys(st, init, d);
      assert els == init + [x];
      assert (set e | e in els) == (set e | e in init) + {x};
    }
  }

  /** The elements with a snapshot after an apply: those before plus the matched ones. */
  lemma ApplyEachSnapshotKeys(st: PageState, els: seq<ElementId>, d: Styling)
    ensures ApplyEach(st, els, d).originals.Keys == st.originals.Keys + (set e | e in els)
  {
    var r := ApplyEach(st, els, d);
    forall e ensures e in r.originals <==> e in st.originals || e in els {
      ApplyEachSnapshotOf(st, els, d, e);
    }
  }

  /** A second identical apply leaves every element's style as the first left it. */
  lemma ApplyEachTwiceStyleOf(st: PageState, els: seq<ElementId>, d: Styling, e: ElementId)
    ensures StyleOf(ApplyEach(ApplyEach(st, els, d), els, d).styles, e) == StyleOf(ApplyEach(st, els, d).styles, e)
  {
    ApplyEachStyleOf(st, els, d, e);
    ApplyEachStyleOf(ApplyEach(st, els, d), els, d, e);
    if e in els {
      StyleElementIdempotent(StyleOf(st.styles, e), d);
    }
  }

  /** Applying the same styling to the same matches twice leaves the page and the snapshots as once. */
  lemma ApplyEachIdempotent(st: PageState, els: seq<ElementId>, d: Styling)
    ensures ApplyEach(ApplyEach(st, els, d), els, d) == ApplyEach(st, els, d)
  {
    var once := ApplyEach(st, els, d);
    var twice := ApplyEach(once, els, d);
    ApplyEachStyleKeys(st, els, d);
    ApplyEachStyleKeys(once, els, d);
    ApplyEachSnapshotKeys(st, els, d);
    ApplyEachSnapshotKeys(once, els, d);
    forall e | e in twice.styles
      ensures twice.styles[e] == once.styles[e]
    {
      ApplyEachTwiceStyleOf(st, els, d, e);
    }
    forall e | e in twice.originals
      ensures twice.originals[e] == once.originals[e]
    {
      ApplyEachSnapshotOf(once, els, d, e);
    }
    assert twice.styles == once.styles;
  }

  /** One more element of the `forEach`. */
  lemma ApplyEachStep(st: PageState, els: seq<ElementId>, i: nat, d: Styling)
    requires i < |els|
    ensures ApplyEach(st, els[..i + 1], d) == ApplyToElement(ApplyEach(st, els[..i], d), els[i], d)
  {
    assert els[..i + 1][..i] == els[..i];
  }

  /** One element after reset: restored when it has a snapshot, else as it was. */
  function RestoreOne(styles: map<ElementId, InlineStyle>, originals: map<ElementId, Snapshot>, e: ElementId): InlineStyle
  {
    if e in originals then Restore(StyleOf(styles, e), originals[e]) else StyleOf(styles, e)
  }

  /**
   * The reset handler's loop over the snapshot map: every snapshotted element
   * reads back its four stored values with its other properties kept, and every
   * other element is left as it was.
   */
  function RestoreAll(styles: map<ElementId, InlineStyle>, originals: map<ElementId, Snapshot>): (r: map<ElementId, InlineStyle>)
    ensures r.Keys == styles.Keys + originals.Keys
    ensures forall e :: e in originals ==> TakeSnapshot(StyleOf(r, e)) == originals[e]
    ensures forall e :: e !in originals ==> StyleOf(r, e) == StyleOf(styles, e)
    ensures forall e, p :: e in originals && p !in FONT_PROPERTIES ==> SameDecl(StyleOf(r, e), StyleOf(styles, e), p)
  {
    map e | e in styles.Keys + originals.Keys :: RestoreOne(styles, originals, e)
  }

  /** A page that restores each snapshotted element and keeps every other one is `RestoreAll`'s result. */
  lemma RestoreAllIsPointwise(styles: map<ElementId, InlineStyle>, originals: map<ElementId, Snapshot>, r: map<ElementId, InlineStyle>)
    requires r.Keys == styles.Keys + originals.Keys
    requires forall e :: StyleOf(r, e) == if e in originals then Restore(StyleOf(styles, e), originals[e]) else StyleOf(styles, e)
    ensures r == RestoreAll(styles, originals)
  {
    var q := RestoreAll(styles, originals);
    forall e | e in r ensures r[e] == q[e] {
      assert StyleOf(r, e) == StyleOf(q, e);
    }
  }

  /**
   * The snapshot map is faithful to a baseline page: elements without a snapshot
   * still have their baseline style, and each snapshot holds the baseline values.
   */
  ghost predicate SnapshotsAgree(st: PageState, baseline: map<ElementId, InlineStyle>)
  {
    && (forall e :: e !in st.originals ==> StyleOf(st.styles, e) == StyleOf(baseline, e))
    && (forall e :: e in st.originals ==> st.originals[e] == TakeSnapshot(StyleOf(baseline, e)))
  }

  /** Applies keep the snapshots faithful to the page as it was before the first apply. */
  lemma ApplyKeepsSnapshotsAgree(st: PageState, els: seq<ElementId>, d: Styling, baseline: map<ElementId, InlineStyle>)
    requires SnapshotsAgree(st, baseline)
    ensures SnapshotsAgree(ApplyEach(st, els, d), baseline)
  {
    var r := ApplyEach(st, els, d);
    forall e | e !in r.originals
      ensures StyleOf(r.styles, e) == StyleOf(baseline, e)
    {
      ApplyEachSnapshotOf(st, els, d, e);
      ApplyEachStyleOf(st, els, d, e);
    }
    forall e | e in r.originals
      ensures r.originals[e] == TakeSnapshot(StyleOf(baseline, e))
    {
      ApplyEachSnapshotOf(st, els, d, e);
    }
  }

  /**
   * Reset round-trip: with faithful snapshots, restoring gives every element its
   * baseline font-family, font-weight, font-size and line-height, and leaves
   * elements never touched exactly as they were.
   */
  lemma RestoreAllRecoversBaseline(st: PageState, baseline: map<ElementId, InlineStyle>)
    requires SnapshotsAgree(st, baseline)
    ensures forall e :: TakeSnapshot(StyleOf(RestoreAll(st.styles, st.originals), e)) == TakeSnapshot(StyleOf(baseline, e))
    ensures forall e :: e !in st.originals ==> StyleOf(RestoreAll(st.styles, st.originals), e) == StyleOf(baseline, e)
  {
    var r := RestoreAll(st.styles, st.originals);
    forall e
      ensures TakeSnapshot(StyleOf(r, e)) == TakeSnapshot(StyleOf(baseline, e))
    {
      if e in st.originals {
        assert StyleOf(r, e) == Restore(StyleOf(st.styles, e), st.originals[e]);
      } else {
        assert StyleOf(r, e) == StyleOf(st.styles, e);
      }
    }
  }

  /** One `applyFont` that reached its `forEach`: the matched elements and the styling used. */
  datatype ApplyCall = ApplyCall(targets: seq<ElementId>, styling: Styling)

  /** A sequence of applies, first to last. */
  function ApplyCalls(st: PageState, calls: seq<ApplyCall>): PageState
    decreases |calls|
  {
    if calls == [] then st
    else ApplyCalls(ApplyEach(st, calls[0].targets, calls[0].styling), calls[1..])
  }

  /**
   * Any number of applies, starting with no snapshots, followed by reset: every
   * element reads back the four font properties it had before the first apply.
   */
  lemma {:induction false} ApplyCallsThenRestore(st: PageState, calls: seq<ApplyCall>)
    requires st.originals == map[]
    ensures var r := ApplyCalls(st, calls);
      forall e :: TakeSnapshot(StyleOf(RestoreAll(r.styles, r.originals), e)) == TakeSnapshot(StyleOf(st.styles, e))
  {
    ApplyCallsKeepAgree(st, calls, st.styles);
    RestoreAllRecoversBaseline(ApplyCalls(st, calls), st.styles);
  }

  /** Every apply in a sequence keeps the snapshot map faithful, so the whole sequence does. */
  lemma {:induction false} ApplyCallsKeepAgree(st: PageState, calls: seq<ApplyCall>, baseline: map<ElementId, InlineStyle>)
    requires SnapshotsAgree(st, baseline)
    ensures SnapshotsAgree(ApplyCalls(st, calls), baseline)
    decreases |calls|
  {
    if calls != [] {
      ApplyKeepsSnapshotsAgree(st, calls[0].targets, calls[0].styling, baseline);
      ApplyCallsKeepAgree(ApplyEach(st, calls[0].targets, calls[0].styling), calls[1..], baseline);
    }
  }
}
