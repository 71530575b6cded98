/**
 * The status-line count text and the copy-CSS export: which declarations the
 * copy button produces, in which order, and how they relate to what an apply
 * writes on the page.
 */
module Export {

  import opened Basics
  import opened Text
  import opened Styles

  /**
   * The status line's count: the whole catalogue (with the fallback wording when
   * the provider was unavailable), or how many of the catalogue are shown. Apart
   * from the fallback wording, the text starts with the number of fonts shown,
   * and it names the catalogue size after it only when part of the catalogue is shown.
   */
  function CountText(shown: nat, total: nat, usingFallback: bool): (r: string)
    ensures usingFallback && shown == total ==> r == "API unavailable \U{B7} " + NatToString(total) + " popular fonts"
    ensures !usingFallback && shown == total ==> r == NatToString(total) + " fonts"
    ensures shown != total ==> r == NatToString(shown) + " of " + NatToString(total) + " fonts"
    ensures !(usingFallback && shown == total) ==> LeadingNumber(r) == Some(shown)
  {
    if shown == total then
      if usingFallback then "API unavailable \U{B7} " + NatToString(total) + " popular fonts"
      else
        LeadingNumberOfNat(total, " fonts");
        NatToString(total) + " fonts"
    else
      var rest := " of " + NatToString(total) + " fonts";
      LeadingNumberOfNat(shown, rest);
      NatToString(shown) + rest
  }

  /** What the status line shows; `StatusText` gives its text. */
  datatype StatusLine =
    | ShowCount(shown: nat, total: nat, usingFallback: bool)
    | ShowCurrent(font: string)
    | ShowInvalidSelector
    | ShowNothingToCopy

  /** The text of the status line; it names a font (`Current: ...`) exactly for `ShowCurrent`. */
  function StatusText(s: StatusLine): (r: string)
    ensures StartsWith(r, "Current: ") <==> s.ShowCurrent?
    ensures s.ShowCurrent? ==> r == "Current: " + s.font && r[|"Current: "|..] == s.font
    ensures s.ShowCount? ==> r == CountText(s.shown, s.total, s.usingFallback)
    ensures s.ShowInvalidSelector? ==> r == "Invalid selector"
    ensures s.ShowNothingToCopy? ==> r == "Nothing to copy"
  {
    assert s.ShowCount? && !(s.usingFallback && s.shown == s.total) ==> IsDigit(CountText(s.shown, s.total, s.usingFallback)[0]);
    match s
    case ShowCount(shown, total, usingFallback) => CountText(shown, total, usingFallback)
    case ShowCurrent(font) => "Current: " + font
    case ShowInvalidSelector =>
      var t := "Invalid selector";
      assert t[..9][0] != 'C';
      t
    case ShowNothingToCopy =>
      var t := "Nothing to copy";
      assert t[..9][0] != 'C';
      t
  }

  /** The fallback wording is used exactly when the whole fallback catalogue is shown. */
  lemma CountTextFallbackWording(shown: nat, total: nat, usingFallback: bool)
    ensures StartsWith(CountText(shown, total, usingFallback), "API") <==> usingFallback && shown == total
  {
    var t := CountText(shown, total, usingFallback);
    if !(usingFallback && shown == total) {
      assert IsDigit(t[0]);
    }
  }

  /** The four font properties, in export order. */
  datatype FontProperty = FontFamily | FontWeight | FontSize | LineHeight

  /** The CSS name of each property. */
  function PropertyName(p: FontProperty): (name: string)
    ensures name in FONT_PROPERTIES
  {
    match p
    case FontFamily => FONT_FAMILY
    case FontWeight => FONT_WEIGHT
    case FontSize => FONT_SIZE
    case LineHeight => LINE_HEIGHT
  }

  /** The position of each property in the export order. */
  function ExportRank(p: FontProperty): nat
  {
    match p
    case FontFamily => 0
    case FontWeight => 1
    case FontSize => 2
    case LineHeight => 3
  }

  /** One exported declaration. */
  datatype CssDecl = CssDecl(property: FontProperty, value: string)

  /** The weight and line height the controls start with; the copy button leaves them out. */
  const DEFAULT_WEIGHT: string := "400"
  const DEFAULT_LINE_HEIGHT: string := "1.5"

  /**
   * The declarations the copy button exports: family when a font is current,
   * weight when not 400, size when the size text is not blank, line height when
   * not 1.5. They come in that order, each property at most once, and there are
   * none exactly when no font is current and every control is at its default.
   */
  function CopyDecls(currentFont: Option<string>, weight: string, sizeText: string, lineHeight: string): (r: seq<CssDecl>)
    ensures InExportOrder(r)
    ensures r == [] <==>
      (currentFont.None? || currentFont.value == "") && weight == DEFAULT_WEIGHT
      && Trim(sizeText) == [] && lineHeight == DEFAULT_LINE_HEIGHT
  {
    var fam := Optional(currentFont.Some? && currentFont.value != "", FontFamily, if currentFont.Some? then FamilyValue(currentFont.value) else "");
    var wt := Optional(weight != DEFAULT_WEIGHT, FontWeight, weight);
    var sz := Optional(Trim(sizeText) != [], FontSize, SizeValue(Trim(sizeText)));
    var lh := Optional(lineHeight != DEFAULT_LINE_HEIGHT, LineHeight, lineHeight);
    PartsInExportOrder(fam, wt, sz, lh);
    fam + wt + sz + lh
  }

  /** One optional declaration: present exactly when its control is set. */
  function Optional(present: bool, p: FontProperty, value: string): (r: seq<CssDecl>)
    ensures AtMostOneOf(r, p)
    ensures r == [] <==> !present
  {
    if present then [CssDecl(p, value)] else []
  }

  /**
   * The copy button's rule for one property, stated on its own: the value it
   * exports for `p`, or none when that control is left out.
   */
  function ExportedValue(p: FontProperty, currentFont: Option<string>, weight: string, sizeText: string, lineHeight: string): Option<string>
  {
    match p
    case FontFamily => if currentFont.Some? && currentFont.value != "" then Some(FamilyValue(currentFont.value)) else None
    case FontWeight => if weight != DEFAULT_WEIGHT then Some(weight) else None
    case FontSize => if Trim(sizeText) != [] then Some(SizeValue(Trim(sizeText))) else None
    case LineHeight => if lineHeight != DEFAULT_LINE_HEIGHT then Some(lineHeight) else None
  }

  /** An optional declaration, when present, is `p` with the given value. */
  lemma OptionalHolds(present: bool, p: FontProperty, value: string, c: CssDecl)
    requires c in Optional(present, p, value)
    ensures present && c == CssDecl(p, value)
  {
  }

  /**
   * The export holds exactly the declarations the per-property rule asks for:
   * every listed declaration carries its property's exported value, and every
   * property with an exported value is listed. With the export order this fixes
   * the list completely.
   */
  lemma CopyDeclsExactly(currentFont: Option<string>, weight: string, sizeText: string, lineHeight: string)
    ensures var r := CopyDecls(currentFont, weight, sizeText, lineHeight);
      && (forall c :: c in r ==> ExportedValue(c.property, currentFont, weight, sizeText, lineHeight) == Some(c.value))
      && (forall p :: ExportedValue(p, currentFont, weight, sizeText, lineHeight).Some? ==>
            CssDecl(p, ExportedValue(p, currentFont, weight, sizeText, lineHeight).value) in r)
  {
    CopyDeclsSound(currentFont, weight, sizeText, lineHeight);
    CopyDeclsComplete(currentFont, weight, sizeText, lineHeight);
  }

  /** Every exported declaration carries the value the rule gives its property. */
  lemma CopyDeclsSound(currentFont: Option<string>, weight: string, sizeText: string, lineHeight: string)
    ensures forall c :: c in CopyDecls(currentFont, weight, sizeText, lineHeight) ==>
      ExportedValue(c.property, currentFont, weight, sizeText, lineHeight) == Some(c.value)
  {
    var famValue := if currentFont.Some? then FamilyValue(currentFont.value) else "";
    var fam := Optional(currentFont.Some? && currentFont.value != "", FontFamily, famValue);
    var wt := Optional(weight != DEFAULT_WEIGHT, FontWeight, weight);
    var sz := Optional(Trim(sizeText) != [], FontSize, SizeValue(Trim(sizeText)));
    var lh := Optional(lineHeight != DEFAULT_LINE_HEIGHT, LineHeight, lineHeight);
    assert CopyDecls(currentFont, weight, sizeText, lineHeight) == fam + wt + sz + lh;
    forall c: CssDecl | c in fam + wt + sz + lh ensures ExportedValue(c.property, currentFont, weight, sizeText, lineHeight) == Some(c.value) {
      if c in fam {
        OptionalHolds(currentFont.Some? && currentFont.value != "", FontFamily, famValue, c);
      } else if c in wt {
        OptionalHolds(weight != DEFAULT_WEIGHT, FontWeight, weight, c);
      } else if c in sz {
        OptionalHolds(Trim(sizeText) != [], FontSize, SizeValue(Trim(sizeText)), c);
      } else {
        OptionalHolds(lineHeight != DEFAULT_LINE_HEIGHT, LineHeight, lineHeight, c);
      }
    }
  }

  /** Every property the rule exports is in the export, with its value. */
  lemma CopyDeclsComplete(currentFont: Option<string>, weight: string, sizeText: string, lineHeight: string)
    ensures forall p :: ExportedValue(p, currentFont, weight, sizeText, lineHeight).Some? ==>
      CssDecl(p, ExportedValue(p, currentFont, weight, sizeText, lineHeight).value) in CopyDecls(currentFont, weight, sizeText, lineHeight)
  {
    var famValue := if currentFont.Some? then FamilyValue(currentFont.value) else "";
    var fam := Optional(currentFont.Some? && currentFont.value != "", FontFamily, famValue);
    var wt := Optional(weight != DEFAULT_WEIGHT, FontWeight, weight);
    var sz := Optional(Trim(sizeText) != [], FontSize, SizeValue(Trim(sizeText)));
    var lh := Optional(lineHeight != DEFAULT_LINE_HEIGHT, LineHeight, lineHeight);
    var r := fam + wt + sz + lh;
    assert CopyDecls(currentFont, weight, sizeText, lineHeight) == r;
    forall p | ExportedValue(p, currentFont, weight, sizeText, lineHeight).Some?
      ensures CssDecl(p, ExportedValue(p, currentFont, weight, sizeText, lineHeight).value) in r
    {
      var c := CssDecl(p, ExportedValue(p, currentFont, weight, sizeText, lineHeight).value);
      match p
      case FontFamily => assert c in fam;
      case FontWeight => assert c in wt;
      case FontSize => assert c in sz;
      case LineHeight => assert c in lh;
    }
  }

  /** Declarations listed in export order, so each property at most once. */
  predicate InExportOrder(ds: seq<CssDecl>)
  {
    forall i, j :: 0 <= i < j < |ds| ==> ExportRank(ds[i].property) < ExportRank(ds[j].property)
  }

  /** Two ordered lists, every rank of the first below every rank of the second, concatenate in order. */
  lemma ExportOrderConcat(a: seq<CssDecl>, b: seq<CssDecl>, bound: nat)
    requires InExportOrder(a) && InExportOrder(b)
    requires forall i :: 0 <= i < |a| ==> ExportRank(a[i].property) < bound
    requires forall j :: 0 <= j < |b| ==> bound <= ExportRank(b[j].property)
    ensures InExportOrder(a + b)
  {
    var ab := a + b;
    forall i, j | 0 <= i < j < |ab| ensures ExportRank(ab[i].property) < ExportRank(ab[j].property) {
      if j < |a| {
        assert ab[i] == a[i] && ab[j] == a[j];
      } else if i >= |a| {
        assert ab[i] == b[i - |a|] && ab[j] == b[j - |a|];
      } else {
        assert ab[i] == a[i] && ab[j] == b[j - |a|];
      }
    }
  }

  /** At most one declaration, of property `p`. */
  predicate AtMostOneOf(ds: seq<CssDecl>, p: FontProperty)
  {
    |ds| <= 1 && forall i :: 0 <= i < |ds| ==> ds[i].property == p
  }

  /** Four optional parts, one per property in export order, concatenate in export order. */
  lemma PartsInExportOrder(fam: seq<CssDecl>, wt: seq<CssDecl>, sz: seq<CssDecl>, lh: seq<CssDecl>)
    requires AtMostOneOf(fam, FontFamily) && AtMostOneOf(wt, FontWeight)
    requires AtMostOneOf(sz, FontSize) && AtMostOneOf(lh, LineHeight)
    ensures InExportOrder(fam + wt + sz + lh)
  {
    ExportOrderConcat(sz, lh, 3);
    ExportOrderConcat(wt, sz + lh, 2);
    ExportOrderConcat(fam, wt + (sz + lh), 1);
    assert fam + wt + sz + lh == fam + (wt + (sz + lh));
  }

  /**
   * What is exported is what an apply writes: for the current font, each exported
   * declaration's value is exactly the value an apply with the same controls
   * writes for that property.
   */
  lemma CopyDeclsMatchApplied(s: InlineStyle, fontName: string, weight: string, sizeText: string, lineHeight: string, priority: string)
    requires fontName != ""
    ensures var styled := StyleElement(s, Styling(fontName, weight, ParseSize(sizeText), lineHeight, priority));
      forall c :: c in CopyDecls(Some(fontName), weight, sizeText, lineHeight) ==> Get(styled, PropertyName(c.property)) == c.value
  {
    var d := Styling(fontName, weight, ParseSize(sizeText), lineHeight, priority);
    var styled := StyleElement(s, d);
    StyleElementWrites(s, d);
    var fam := Optional(true, FontFamily, FamilyValue(fontName));
    var wt := Optional(weight != DEFAULT_WEIGHT, FontWeight, weight);
    var sz := Optional(Trim(sizeText) != [], FontSize, SizeValue(Trim(sizeText)));
    var lh := Optional(lineHeight != DEFAULT_LINE_HEIGHT, LineHeight, lineHeight);
    assert CopyDecls(Some(fontName), weight, sizeText, lineHeight) == fam + wt + sz + lh;
    forall c: CssDecl | c in fam + wt + sz + lh
      ensures Get(styled, PropertyName(c.property)) == c.value
    {
      assert c in fam || c in wt || c in sz || c in lh;
    }
  }

  /** The copied text: one `property: value;` line per declaration. */
  function CssLine(c: CssDecl): string
  {
    PropertyName(c.property) + ": " + c.value + ";"
  }

  /** The lines joined with newlines (`Array.prototype.join('\n')`). */
  function JoinLines(lines: seq<string>): string
  {
    if lines == [] then ""
    else if |lines| == 1 then lines[0]
    else lines[0] + "\n" + JoinLines(lines[1..])
  }

  /** Joining puts exactly one newline between consecutive lines: appending a line appends a newline and that line. */
  lemma {:induction false} JoinLinesSnoc(lines: seq<string>, last: string)
    requires lines != []
    ensures JoinLines(lines + [last]) == JoinLines(lines) + "\n" + last
    decreases |lines|
  {
    if |lines| == 1 {
      assert lines + [last] == [lines[0], last];
    } else {
      assert (lines + [last])[1..] == lines[1..] + [last];
      JoinLinesSnoc(lines[1..], last);
    }
  }

  /** The text of the declarations, one `property: value;` line each, in order. */
  function CssLines(ds: seq<CssDecl>): seq<string>
  {
    seq(|ds|, i requires 0 <= i < |ds| => CssLine(ds[i]))
  }

  /** The joined text starts with the first line. */
  lemma JoinLinesStartsWithFirst(lines: seq<string>)
    requires lines != []
    ensures StartsWith(JoinLines(lines), lines[0])
  {
  }

  /** With a font current, the family declaration comes first. */
  lemma FamilyExportedFirst(fontName: string, weight: string, sizeText: string, lineHeight: string)
    requires fontName != ""
    ensures var ds := CopyDecls(Some(fontName), weight, sizeText, lineHeight);
      ds != [] && ds[0] == CssDecl(FontFamily, FamilyValue(fontName))
  {
    var fam := Optional(true, FontFamily, FamilyValue(fontName));
    var wt := Optional(weight != DEFAULT_WEIGHT, FontWeight, weight);
    var sz := Optional(Trim(sizeText) != [], FontSize, SizeValue(Trim(sizeText)));
    var lh := Optional(lineHeight != DEFAULT_LINE_HEIGHT, LineHeight, lineHeight);
    assert fam == [CssDecl(FontFamily, FamilyValue(fontName))];
    assert CopyDecls(Some(fontName), weight, sizeText, lineHeight) == fam + wt + sz + lh;
  }

  /** The family line as it is written to the clipboard. */
  lemma FamilyLine(fontName: string)
    ensures PropertyName(FontFamily) + ": " + FamilyValue(fontName) + ";" == "font-family: \"" + fontName + "\", sans-serif;"
  {
  }

  /**
   * With a font current, the clipboard text opens with its `font-family` line,
   * the quoted family with the `sans-serif` fallback.
   */
  lemma CopyTextStartsWithFamily(fontName: string, weight: string, sizeText: string, lineHeight: string)
    requires fontName != ""
    ensures var t := CopyText(Some(fontName), weight, sizeText, lineHeight);
      t.Some? && StartsWith(t.value, "font-family: \"" + fontName + "\", sans-serif;")
  {
    var ds := CopyDecls(Some(fontName), weight, sizeText, lineHeight);
    FamilyExportedFirst(fontName, weight, sizeText, lineHeight);
    FamilyLine(fontName);
    JoinLinesStartsWithFirst(CssLines(ds));
  }

  /** The clipboard text, or none when there is nothing to copy. */
  function CopyText(currentFont: Option<string>, weight: string, sizeText: string, lineHeight: string): (r: Option<string>)
    ensures r.None? <==> CopyDecls(currentFont, weight, sizeText, lineHeight) == []
    ensures r.Some? ==> r.value == JoinLines(CssLines(CopyDecls(currentFont, weight, sizeText, lineHeight)))
  {
    var ds := CopyDecls(currentFont, weight, sizeText, lineHeight);
    if ds == [] then None
    else Some(JoinLines(CssLines(ds)))
  }
}
