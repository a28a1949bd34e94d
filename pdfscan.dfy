/** The PDF path of the extractor: every page's text is searched, left to right,
    for non-overlapping matches of the label pattern
    `(Grc\.[\w\.]+)\s+(\d+)\s+(\d+)\s+(\d+)\s+(\d+)` (the semantics of
    `re.findall`), and each match becomes one record with its four numbers
    parsed by `int()`. */
module PdfScan {
  import opened Text

  /** The character classes the pattern uses. */
  datatype CharClass = WordOrDot | Space | Digit

  predicate InClass(c: char, cls: CharClass) {
    match cls
    case WordOrDot => IsWordChar(c) || c == '.'
    case Space => IsSpace(c)
    case Digit => IsDigit(c)
  }

  /** Every character of `text[i..e]` is in `cls`. */
  predicate AllIn(text: string, i: nat, e: nat, cls: CharClass)
    requires i <= e <= |text|
  {
    forall k :: i <= k < e ==> InClass(text[k], cls)
  }

  /** End of the longest run of `cls` characters starting at `i` (a greedy `cls*`). */
  function RunEnd(text: string, i: nat, cls: CharClass): (e: nat)
    requires i <= |text|
    ensures i <= e <= |text|
    decreases |text| - i
  {
    if i < |text| && InClass(text[i], cls) then RunEnd(text, i + 1, cls) else i
  }

  /** The greedy run holds only `cls` characters and stops at the end of the
      text or at a character outside `cls`. */
  lemma {:induction false} RunEndSound(text: string, i: nat, cls: CharClass)
    requires i <= |text|
    ensures var e := RunEnd(text, i, cls);
      AllIn(text, i, e, cls) && (e == |text| || !InClass(text[e], cls))
    decreases |text| - i
  {
    if i < |text| && InClass(text[i], cls) {
      RunEndSound(text, i + 1, cls);
    }
  }

  /** A digit group `text[start..end]` of the match. */
  datatype Group = Group(start: nat, end: nat)

  /** Where the pieces of one match lie: the type label ends at `typeEnd`, and
      the four digit groups follow. */
  datatype Span = Span(typeEnd: nat, count: Group, height: Group, width: Group, depth: Group)

  /** `text[from..g.end]` is `\s+` followed by the group `\d+`. */
  predicate SpacedDigits(text: string, from: nat, g: Group) {
    from < g.start < g.end <= |text|
    && AllIn(text, from, g.start, Space) && AllIn(text, g.start, g.end, Digit)
  }

  /** The pattern matches `text[p..sp.depth.end]`, split as `sp` says. This is
      the regex's own meaning: any split that fits, greedy or not. */
  predicate Spans(text: string, p: nat, sp: Span) {
    p + 4 < sp.typeEnd <= |text| && text[p..p + 4] == "Grc."
    && AllIn(text, p + 4, sp.typeEnd, WordOrDot)
    && SpacedDigits(text, sp.typeEnd, sp.count)
    && SpacedDigits(text, sp.count.end, sp.height)
    && SpacedDigits(text, sp.height.end, sp.width)
    && SpacedDigits(text, sp.width.end, sp.depth)
  }

  /** `\s+(\d+)` tried at `from`, each run taken greedily. */
  function SpacedGroup(text: string, from: nat): (r: Option<Group>)
    requires from <= |text|
    ensures r.Some? ==> from < r.value.start < r.value.end <= |text|
  {
    var s := RunEnd(text, from, Space);
    var e := RunEnd(text, s, Digit);
    if s == from || e == s then None else Some(Group(s, e))
  }

  /** What `SpacedGroup` finds is whitespace then digits, and the digit run cannot be extended. */
  lemma SpacedGroupSound(text: string, from: nat)
    requires from <= |text|
    ensures var r := SpacedGroup(text, from);
      r.Some? ==> SpacedDigits(text, from, r.value) && (r.value.end == |text| || !IsDigit(text[r.value.end]))
  {
    var s := RunEnd(text, from, Space);
    RunEndSound(text, from, Space);
    RunEndSound(text, s, Digit);
  }

  /** The pattern tried at position `p`. Each `+` takes the longest run; the
      lemma `MatchAtComplete` shows no other split could succeed instead. */
  function MatchAt(text: string, p: nat): (r: Option<Span>)
    requires p <= |text|
    ensures r.Some? ==> Ordered(text, p, r.value)
  {
    if p + 4 <= |text| && text[p..p + 4] == "Grc." then
      var te := RunEnd(text, p + 4, WordOrDot);
      if te == p + 4 then None
      else match SpacedGroup(text, te)
        case None => None
        case Some(c) => match SpacedGroup(text, c.end)
          case None => None
          case Some(h) => match SpacedGroup(text, h.end)
            case None => None
            case Some(w) => match SpacedGroup(text, w.end)
              case None => None
              case Some(d) => Some(Span(te, c, h, w, d))
    else None
  }

  /** The pieces of `sp` lie in order inside `text`, after `p`. */
  predicate Ordered(text: string, p: nat, sp: Span) {
    p + 4 < sp.typeEnd < sp.count.start < sp.count.end < sp.height.start < sp.height.end
      < sp.width.start < sp.width.end < sp.depth.start < sp.depth.end <= |text|
  }

  /** What `MatchAt` finds is a match of the pattern, and its last digit run
      cannot be extended. */
  lemma MatchAtSound(text: string, p: nat)
    requires p <= |text|
    ensures MatchAt(text, p).Some? ==> Spans(text, p, MatchAt(text, p).value)
    ensures MatchAt(text, p).Some? ==> var e := MatchAt(text, p).value.depth.end; e == |text| || !IsDigit(text[e])
  {
    if MatchAt(text, p).Some? {
      var sp := MatchAt(text, p).value;
      RunEndSound(text, p + 4, WordOrDot);
      SpacedGroupSound(text, sp.typeEnd);
      SpacedGroupSound(text, sp.count.end);
      SpacedGroupSound(text, sp.height.end);
      SpacedGroupSound(text, sp.width.end);
    }
  }

  /** The five captured groups of one match, as strings. */
  datatype Captures = Captures(unitType: string, count: string, height: string, width: string, depth: string)

  function CapturesOf(text: string, p: nat, sp: Span): Captures
    requires Ordered(text, p, sp)
  {
    Captures(text[p..sp.typeEnd],
             text[sp.count.start..sp.count.end], text[sp.height.start..sp.height.end],
             text[sp.width.start..sp.width.end], text[sp.depth.start..sp.depth.end])
  }

  /** A type label: `Grc.` followed by one or more word or dot characters. */
  predicate IsTypeLabel(s: string) {
    |s| > 4 && s[..4] == "Grc." && forall k :: 4 <= k < |s| ==> IsWordChar(s[k]) || s[k] == '.'
  }

  /** What every match captures: a type label and four non-empty digit runs. */
  predicate WellFormed(c: Captures) {
    IsTypeLabel(c.unitType)
    && c.count != [] && AllDigits(c.count) && c.height != [] && AllDigits(c.height)
    && c.width != [] && AllDigits(c.width) && c.depth != [] && AllDigits(c.depth)
  }

  /** A type label holds no whitespace. */
  lemma TypeLabelHasNoSpace(s: string)
    requires IsTypeLabel(s)
    ensures forall k :: 0 <= k < |s| ==> !IsSpace(s[k])
  {
    forall k | 0 <= k < |s| ensures !IsSpace(s[k]) {
      if k < 4 {
        assert s[k] == s[..4][k];
      }
    }
  }

  lemma CapturesWellFormed(text: string, p: nat, sp: Span)
    requires Spans(text, p, sp)
    ensures WellFormed(CapturesOf(text, p, sp))
  {
  }

  /** `re.findall` from position `p`: leftmost match, then continue after it. */
  function FindAll(text: string, p: nat): seq<Captures>
    requires p <= |text|
    decreases |text| - p
  {
    if p == |text| then []
    else match MatchAt(text, p)
      case Some(sp) => [CapturesOf(text, p, sp)] + FindAll(text, sp.depth.end)
      case None => FindAll(text, p + 1)
  }

  /** `re.findall` from a position where the pattern matches: that match, then the rest. */
  lemma FindAllAtMatch(text: string, p: nat)
    requires p < |text| && MatchAt(text, p).Some?
    ensures FindAll(text, p) == [CapturesOf(text, p, MatchAt(text, p).value)] + FindAll(text, MatchAt(text, p).value.depth.end)
  {
  }

  /** `re.findall` from a position where the pattern does not match: the search moves on. */
  lemma FindAllAtNoMatch(text: string, p: nat)
    requires p < |text| && MatchAt(text, p).None?
    ensures FindAll(text, p) == FindAll(text, p + 1)
  {
  }

  /** Every match `re.findall` reports has the shape the pattern describes. */
  lemma {:induction false} FindAllWellFormed(text: string, p: nat)
    requires p <= |text|
    ensures forall c :: c in FindAll(text, p) ==> WellFormed(c)
    decreases |text| - p
  {
    if p < |text| {
      var m := MatchAt(text, p);
      if m.Some? {
        var sp := m.value;
        MatchAtSound(text, p);
        CapturesWellFormed(text, p, sp);
        FindAllWellFormed(text, sp.depth.end);
        FindAllAtMatch(text, p);
      } else {
        FindAllWellFormed(text, p + 1);
        FindAllAtNoMatch(text, p);
      }
    }
  }

  /** `re.findall(pattern, text)`, scanning the text position by position. */
  method ScanText(text: string) returns (matches: seq<Captures>)
    ensures matches == FindAll(text, 0)
  {
    matches := [];
    var p := 0;
    while p < |text|
      invariant p <= |text|
      invariant matches + FindAll(text, p) == FindAll(text, 0)
      decreases |text| - p
    {
      var m := MatchAt(text, p);
      if m.Some? {
        FindAllAtMatch(text, p);
        matches := matches + [CapturesOf(text, p, m.value)];
        p := m.value.depth.end;
      } else {
        FindAllAtNoMatch(text, p);
        p := p + 1;
      }
    }
    assert matches == matches + FindAll(text, p);
  }

  /** One output record of the PDF path. */
  datatype PanelRecord = PanelRecord(unitType: string, count: nat, height: nat, width: nat, depth: nat)

  /** The dictionary built from one match: the type string and `int()` of each group. */
  function ToRecord(c: Captures): PanelRecord
    requires WellFormed(c)
  {
    PanelRecord(c.unitType, DigitsValue(c.count), DigitsValue(c.height), DigitsValue(c.width), DigitsValue(c.depth))
  }

  function ToRecords(cs: seq<Captures>): (r: seq<PanelRecord>)
    requires forall c :: c in cs ==> WellFormed(c)
    ensures |r| == |cs|
    ensures forall j :: 0 <= j < |cs| ==> r[j] == ToRecord(cs[j])
  {
    seq(|cs|, j requires 0 <= j < |cs| => ToRecord(cs[j]))
  }

  /** The records one page contributes; a page with no text contributes none. */
  function PageRecords(page: Option<string>): seq<PanelRecord> {
    match page
    case None => []
    case Some(text) =>
      if text == "" then []
      else
        FindAllWellFormed(text, 0);
        ToRecords(FindAll(text, 0))
  }

  /** The records of all pages, in page order. */
  function PagesRecords(pages: seq<Option<string>>): seq<PanelRecord> {
    Flatten(MapSeq(pages, PageRecords))
  }

  /** `f` applied to each element of `xs`. */
  function MapSeq<A, B>(xs: seq<A>, f: A -> B): (r: seq<B>)
    ensures |r| == |xs|
    ensures forall i :: 0 <= i < |xs| ==> r[i] == f(xs[i])
  {
    seq(|xs|, i requires 0 <= i < |xs| => f(xs[i]))
  }


  /** The concatenation of a sequence of sequences. */
  function Flatten<T>(xss: seq<seq<T>>): seq<T>
    decreases |xss|
  {
    if xss == [] then [] else Flatten(xss[..|xss| - 1]) + xss[|xss| - 1]
  }

  lemma {:induction false} FlattenAppend<T>(a: seq<seq<T>>, b: seq<seq<T>>)
    ensures Flatten(a + b) == Flatten(a) + Flatten(b)
    decreases |b|
  {
    if b == [] {
      assert a + b == a;
    } else {
      var n := |b| - 1;
      assert (a + b)[..|a + b| - 1] == a + b[..n];
      FlattenAppend(a, b[..n]);
    }
  }

  /** Mapping then flattening distributes over concatenation. */
  lemma FlattenMapAppend<A, B>(a: seq<A>, b: seq<A>, f: A -> seq<B>)
    ensures Flatten(MapSeq(a + b, f)) == Flatten(MapSeq(a, f)) + Flatten(MapSeq(b, f))
  {
    assert MapSeq(a + b, f) == MapSeq(a, f) + MapSeq(b, f);
    FlattenAppend(MapSeq(a, f), MapSeq(b, f));
  }

  lemma FlattenMapSnoc<A, B>(a: seq<A>, x: A, f: A -> seq<B>)
    ensures Flatten(MapSeq(a + [x], f)) == Flatten(MapSeq(a, f)) + f(x)
  {
    FlattenMapAppend(a, [x], f);
    var one := MapSeq([x], f);
    assert one[..0] == [];
    assert Flatten(one) == Flatten(one[..0]) + one[0];
  }

  /** Adding one page adds that page's records at the end. */
  lemma PagesRecordsSnoc(pages: seq<Option<string>>, page: Option<string>)
    ensures PagesRecords(pages + [page]) == PagesRecords(pages) + PageRecords(page)
  {
    FlattenMapSnoc(pages, page, PageRecords);
  }

  /** The inner loop of `extract_from_pdf`: one record appended per match. */
  method AppendRecords(data: seq<PanelRecord>, matches: seq<Captures>) returns (out: seq<PanelRecord>)
    requires forall c :: c in matches ==> WellFormed(c)
    ensures out == data + ToRecords(matches)
  {
    out := data;
    for j := 0 to |matches|
      invariant out == data + ToRecords(matches[..j])
    {
      assert ToRecords(matches[..j + 1]) == ToRecords(matches[..j]) + [ToRecord(matches[j])];
      out := out + [ToRecord(matches[j])];
    }
    assert matches[..|matches|] == matches;
  }

  /** `extract_from_pdf` over the text of each page (`None` for a page without text). */
  method ExtractFromPdf(pages: seq<Option<string>>) returns (data: seq<PanelRecord>)
    ensures data == PagesRecords(pages)
  {
    data := [];
    for i := 0 to |pages|
      invariant data == PagesRecords(pages[..i])
    {
      PagesRecordsSnoc(pages[..i], pages[i]);
      assert pages[..i] + [pages[i]] == pages[..i + 1];
      var text := pages[i];
      if text.None? || text.value == "" {
        continue;
      }
      var matches := ScanText(text.value);
      FindAllWellFormed(text.value, 0);
      data := AppendRecords(data, matches);
    }
    assert pages[..|pages|] == pages;
  }

  // ---------------------------------------------------------------------------
  // the greedy scanner agrees with the pattern

  /** A greedy run reaches at least as far as any run of the same class. */
  lemma {:induction false} RunEndCovers(text: string, i: nat, e: nat, cls: CharClass)
    requires i <= e <= |text| && AllIn(text, i, e, cls)
    ensures RunEnd(text, i, cls) >= e
    decreases e - i
  {
    if i < e {
      RunEndCovers(text, i + 1, e, cls);
    }
  }

  /** A run that stops at a character outside its class is exactly the greedy run. */
  lemma RunEndStops(text: string, i: nat, e: nat, cls: CharClass)
    requires i <= e < |text| && AllIn(text, i, e, cls) && !InClass(text[e], cls)
    ensures RunEnd(text, i, cls) == e
  {
    RunEndCovers(text, i, e, cls);
    RunEndSound(text, i, cls);
  }

  /** Whatever `\s+\d+` split fits at `from`, the greedy one finds the same
      groups, and the same end whenever whitespace follows the digits. */
  lemma SpacedGroupFinds(text: string, from: nat, g: Group)
    requires SpacedDigits(text, from, g)
    ensures SpacedGroup(text, from).Some?
    ensures SpacedGroup(text, from).value.start == g.start
    ensures SpacedGroup(text, from).value.end >= g.end
    ensures g.end < |text| && IsSpace(text[g.end]) ==> SpacedGroup(text, from).value.end == g.end
  {
    RunEndStops(text, from, g.start, Space);
    RunEndCovers(text, g.start, g.end, Digit);
    if g.end < |text| && IsSpace(text[g.end]) {
      RunEndStops(text, g.start, g.end, Digit);
    }
  }

  /** No backtracking is needed: whenever the pattern matches at `p` under some
      split, `MatchAt` succeeds with the same type label and groups, its last
      group extended to the longest digit run. */
  lemma MatchAtComplete(text: string, p: nat, sp: Span)
    requires p <= |text| && Spans(text, p, sp)
    ensures MatchAt(text, p).Some?
    ensures var r := MatchAt(text, p).value;
      && r.typeEnd == sp.typeEnd && r.count == sp.count && r.height == sp.height
      && r.width == sp.width && r.depth.start == sp.depth.start && r.depth.end >= sp.depth.end
  {
    RunEndStops(text, p + 4, sp.typeEnd, WordOrDot);
    SpacedGroupFinds(text, sp.typeEnd, sp.count);
    SpacedGroupFinds(text, sp.count.end, sp.height);
    SpacedGroupFinds(text, sp.height.end, sp.width);
    SpacedGroupFinds(text, sp.width.end, sp.depth);
  }

  /** `MatchAt` succeeds exactly where the pattern matches. */
  lemma MatchAtIff(text: string, p: nat)
    requires p <= |text|
    ensures MatchAt(text, p).Some? <==> exists sp :: Spans(text, p, sp)
  {
    if exists sp :: Spans(text, p, sp) {
      var sp :| Spans(text, p, sp);
      MatchAtComplete(text, p, sp);
    }
    MatchAtSound(text, p);
  }

  // ---------------------------------------------------------------------------
  // findall

  /** When the pattern matches nowhere from `p` on, nothing is found. */
  lemma {:induction false} NoMatchNothingFound(text: string, p: nat)
    requires p <= |text|
    requires forall q :: p <= q < |text| ==> MatchAt(text, q).None?
    ensures FindAll(text, p) == []
    decreases |text| - p
  {
    if p < |text| {
      FindAllAtNoMatch(text, p);
      NoMatchNothingFound(text, p + 1);
    }
  }

  /** When nothing is found from `p` on, the pattern matches at no position `q >= p`. */
  lemma {:induction false} NothingFoundNoMatch(text: string, p: nat, q: nat)
    requires p <= q < |text| && FindAll(text, p) == []
    ensures MatchAt(text, q).None?
    decreases q - p
  {
    if MatchAt(text, p).Some? {
      FindAllAtMatch(text, p);
      assert false;
    }
    FindAllAtNoMatch(text, p);
    if p < q {
      NothingFoundNoMatch(text, p + 1, q);
    }
  }

  /** No matches are found exactly when the pattern matches nowhere from `p` on. */
  lemma FindAllEmpty(text: string, p: nat)
    requires p <= |text|
    ensures FindAll(text, p) == [] <==> forall q :: p <= q < |text| ==> MatchAt(text, q).None?
  {
    if forall q :: p <= q < |text| ==> MatchAt(text, q).None? {
      NoMatchNothingFound(text, p);
    }
    if FindAll(text, p) == [] {
      forall q | p <= q < |text| ensures MatchAt(text, q).None? {
        NothingFoundNoMatch(text, p, q);
      }
    }
  }

  /** The first match reported is the leftmost one, and the search resumes
      where it ends, so matches never overlap. */
  lemma {:induction false} FindAllLeftmost(text: string, p: nat, q: nat, sp: Span)
    requires p <= q < |text| && MatchAt(text, q) == Some(sp)
    requires forall q' :: p <= q' < q ==> MatchAt(text, q').None?
    ensures FindAll(text, p) == [CapturesOf(text, q, sp)] + FindAll(text, sp.depth.end)
  {
    FindAllSkips(text, p, q);
    FindAllAtMatch(text, q);
  }

  /** Positions where the pattern does not match are skipped. */
  lemma {:induction false} FindAllSkips(text: string, p: nat, q: nat)
    requires p <= q <= |text|
    requires forall q' :: p <= q' < q ==> MatchAt(text, q').None?
    ensures FindAll(text, p) == FindAll(text, q)
    decreases q - p
  {
    if p < q {
      FindAllAtNoMatch(text, p);
      FindAllSkips(text, p + 1, q);
    }
  }

  /** Every reported match is a match found at some position from `p` on. */
  lemma {:induction false} FindAllSound(text: string, p: nat, c: Captures)
    requires p <= |text| && c in FindAll(text, p)
    ensures exists q :: p <= q < |text| && MatchAt(text, q).Some? && c == CapturesOf(text, q, MatchAt(text, q).value)
    decreases |text| - p
  {
    match MatchAt(text, p)
    case Some(sp) =>
      if c != CapturesOf(text, p, sp) {
        FindAllSound(text, sp.depth.end, c);
      }
    case None =>
      FindAllSound(text, p + 1, c);
  }

  // ---------------------------------------------------------------------------
  // pages

  /** Records follow page order: the pages of `a + b` give the records of `a`, then those of `b`. */
  lemma PagesRecordsAppend(a: seq<Option<string>>, b: seq<Option<string>>)
    ensures PagesRecords(a + b) == PagesRecords(a) + PagesRecords(b)
  {
    FlattenMapAppend(a, b, PageRecords);
  }

  /** A page without text, or with empty text, adds no records. */
  lemma PageWithoutText(a: seq<Option<string>>, page: Option<string>, b: seq<Option<string>>)
    requires page.None? || page == Some("")
    ensures PagesRecords(a + [page] + b) == PagesRecords(a + b)
  {
    PagesRecordsAppend(a + [page], b);
    PagesRecordsSnoc(a, page);
    PagesRecordsAppend(a, b);
  }

  /** Every record of one page has a type label of the pattern's shape. */
  lemma PageRecordsLabelled(page: Option<string>)
    ensures forall r :: r in PageRecords(page) ==> IsTypeLabel(r.unitType)
  {
    if page.Some? && page.value != "" {
      var cs := FindAll(page.value, 0);
      FindAllWellFormed(page.value, 0);
      forall r | r in PageRecords(page) ensures IsTypeLabel(r.unitType) {
        var j :| 0 <= j < |cs| && ToRecords(cs)[j] == r;
        assert cs[j] in cs;
      }
    }
  }

  /** Every record of the PDF path has a type label of the pattern's shape. */
  lemma {:induction false} PagesRecordsLabelled(pages: seq<Option<string>>)
    ensures forall r :: r in PagesRecords(pages) ==> IsTypeLabel(r.unitType)
    decreases |pages|
  {
    if pages == [] {
      assert MapSeq(pages, PageRecords) == [];
    } else {
      var n := |pages| - 1;
      assert pages[..n] + [pages[n]] == pages;
      PagesRecordsSnoc(pages[..n], pages[n]);
      PagesRecordsLabelled(pages[..n]);
      PageRecordsLabelled(pages[n]);
    }
  }

  const LabelLine := "Grc.L 1 175 3235 525"

  /** Where the pieces of the label line lie. */
  const LabelSpan := Span(5, Group(6, 7), Group(8, 11), Group(12, 16), Group(17, 20))

  lemma LabelLineSpans(text: string)
    requires text == LabelLine
    ensures Spans(text, 0, LabelSpan)
  {
    assert text[0..4] == "Grc.";
    assert text[4] == 'L' && text[5] == ' ' && text[6] == '1' && text[7] == ' ';
    assert text[8] == '1' && text[9] == '7' && text[10] == '5' && text[11] == ' ';
    assert text[12] == '3' && text[13] == '2' && text[14] == '3' && text[15] == '5' && text[16] == ' ';
    assert text[17] == '5' && text[18] == '2' && text[19] == '5';
  }

  lemma LabelLineMatch(text: string)
    requires text == LabelLine
    ensures MatchAt(text, 0) == Some(LabelSpan)
  {
    LabelLineSpans(text);
    MatchAtComplete(text, 0, LabelSpan);
  }

  lemma LabelLineCaptures(text: string)
    requires text == LabelLine && Ordered(text, 0, LabelSpan)
    ensures CapturesOf(text, 0, LabelSpan) == Captures("Grc.L", "1", "175", "3235", "525")
  {
    assert text[0..5] == "Grc.L";
    assert text[6..7] == "1";
    assert text[8..11] == "175";
    assert text[12..16] == "3235";
    assert text[17..20] == "525";
  }

  lemma LabelLineFindAll(text: string)
    requires text == LabelLine
    ensures FindAll(text, 0) == [Captures("Grc.L", "1", "175", "3235", "525")]
  {
    LabelLineMatch(text);
    LabelLineCaptures(text);
    FindAllAtMatch(text, 0);
    assert |text| == 20 && FindAll(text, 20) == [];
  }

  lemma LabelLineNumbers()
    ensures DigitsValue("1") == 1 && DigitsValue("175") == 175
    ensures DigitsValue("3235") == 3235 && DigitsValue("525") == 525
  {
    assert "1"[..0] == "";
    assert "175"[..2] == "17" && "17"[..1] == "1";
    assert "3235"[..3] == "323" && "323"[..2] == "32" && "32"[..1] == "3" && "3"[..0] == "";
    assert "525"[..2] == "52" && "52"[..1] == "5" && "5"[..0] == "";
  }

  lemma LabelLineRecords(cs: seq<Captures>)
    requires cs == [Captures("Grc.L", "1", "175", "3235", "525")]
    ensures ToRecords(cs) == [PanelRecord("Grc.L", 1, 175, 3235, 525)]
  {
    LabelLineNumbers();
    assert ToRecords(cs)[0] == ToRecord(cs[0]);
  }

  lemma LabelLinePage(text: string)
    requires text == LabelLine
    ensures PageRecords(Some(text)) == [PanelRecord("Grc.L", 1, 175, 3235, 525)]
  {
    var cs := FindAll(text, 0);
    LabelLineFindAll(text);
    LabelLineRecords(cs);
    assert text != "";
  }

  /** The label line `Grc.L 1 175 3235 525` yields exactly one record. */
  lemma SingleLabelLine()
    ensures PagesRecords([Some(LabelLine)]) == [PanelRecord("Grc.L", 1, 175, 3235, 525)]
  {
    LabelLinePage(LabelLine);
    PagesRecordsSnoc([], Some(LabelLine));
    assert [] + [Some(LabelLine)] == [Some(LabelLine)];
    assert PagesRecords([]) == [];
  }
}
