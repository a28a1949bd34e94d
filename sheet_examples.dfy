/** Worked examples of the spreadsheet path on concrete headers.

    Several lemmas below take a string parameter with `requires s == "..."`
    instead of mentioning the literal directly: that keeps the verifier from
    evaluating every function applied to the literal eagerly, which makes
    these proofs far cheaper. */
module SheetExamples {
  import opened Text
  import opened Sheet

  /** A keyword cannot occur in a string that lacks one of its characters. */
  lemma MissingChar(s: string, k: string, c: char)
    requires c in k && c !in s
    ensures !Contains(s, k)
  {
  }

  lemma ColumnMapSnoc(cols: seq<string>, col: string)
    ensures ColumnMap(cols + [col]) == Assign(ColumnMap(cols), col)
  {
    assert (cols + [col])[..|cols|] == cols;
  }

  /** A column naming both a type and a count is claimed by Type alone. */
  lemma TypeBeatsCount()
    ensures Classify("type count") == Some(Type)
    ensures Mentions("type count", Count)
  {
    assert "type" <= "type count"[0..];
    assert "count" <= "type count"[5..];
    MentionsChain("type count");
  }

  /** Of two columns that both name a type, the later one is mapped. */
  lemma LaterColumnWins()
    ensures ColumnMap(["type a", "type b"]) == map[Type := "type b"]
  {
    assert "type" <= "type a"[0..];
    assert "type" <= "type b"[0..];
    ColumnMapSnoc([], "type a");
    ColumnMapSnoc(["type a"], "type b");
    assert [] + ["type a"] == ["type a"];
    assert ["type a"] + ["type b"] == ["type a", "type b"];
  }

  /** `n` holds the normalised labels of a Latvian panel list, label by label:
      type, count, weight, an unnamed column, height, width and depth. */
  predicate LatvianLabels(n: seq<string>) {
    |n| == 7 && n[0] == "tips" && n[1] == "skaits" && n[2] == "svars" && n[3] == Unnamed
    && n[4] == "augstums" && n[5] == "platums" && n[6] == "dzi\U{13C}ums"
  }

  lemma ClassifiedTips()
    ensures Classify("tips") == Some(Type)
  {
    assert "tips" <= "tips"[0..];
  }

  lemma ClassifiedSkaits()
    ensures Classify("skaits") == Some(Count)
  {
    MissingChar("skaits", "type", 'y'); MissingChar("skaits", "tips", 'p');
    assert "skaits" <= "skaits"[0..];
  }

  /** A label without the letters t, c, k and h contains none of the keywords
      `type`, `tips`, `count`, `skaits` and `height`. */
  lemma NoFirstKeywords(s: string)
    requires 't' !in s && 'c' !in s && 'k' !in s && 'h' !in s
    ensures !Contains(s, "type") && !Contains(s, "tips") && !Contains(s, "count")
    ensures !Contains(s, "skaits") && !Contains(s, "height")
  {
    MissingChar(s, "type", 't'); MissingChar(s, "tips", 't');
    MissingChar(s, "count", 'c'); MissingChar(s, "skaits", 'k');
    MissingChar(s, "height", 'h');
  }

  lemma SvarsLastKeywords(s: string)
    requires s == "svars"
    ensures !Contains(s, "augstums") && !Contains(s, "width") && !Contains(s, "platums")
    ensures !Contains(s, "garums") && !Contains(s, "depth") && !Contains(s, "dzi\U{13C}ums")
  {
    MissingChar(s, "augstums", 'u'); MissingChar(s, "width", 'w');
    MissingChar(s, "platums", 'p'); MissingChar(s, "garums", 'g');
    MissingChar(s, "depth", 'd'); MissingChar(s, "dzi\U{13C}ums", 'd');
  }

  /** The weight column matches no field. */
  lemma ClassifiedSvars()
    ensures Classify("svars") == None
  {
    NoFirstKeywords("svars");
    SvarsLastKeywords("svars");
  }

  const Unnamed := "unnamed: 3"

  lemma UnnamedLastKeywords()
    ensures !Contains(Unnamed, "augstums") && !Contains(Unnamed, "width") && !Contains(Unnamed, "platums")
    ensures !Contains(Unnamed, "garums") && !Contains(Unnamed, "depth") && !Contains(Unnamed, "dzi\U{13C}ums")
  {
    MissingChar(Unnamed, "augstums", 'g'); MissingChar(Unnamed, "width", 'w');
    MissingChar(Unnamed, "platums", 'p'); MissingChar(Unnamed, "garums", 'g');
    MissingChar(Unnamed, "depth", 'p'); MissingChar(Unnamed, "dzi\U{13C}ums", 'z');
  }

  /** The label pandas gives an empty header cell matches no field. */
  lemma ClassifiedUnnamed()
    ensures Classify(Unnamed) == None
  {
    NoFirstKeywords(Unnamed);
    UnnamedLastKeywords();
  }

  lemma ClassifiedAugstums()
    ensures Classify("augstums") == Some(Height)
  {
    var a := "augstums";
    MissingChar(a, "type", 'y'); MissingChar(a, "tips", 'i');
    MissingChar(a, "count", 'c'); MissingChar(a, "skaits", 'k');
    assert a <= a[0..];
  }

  lemma PlatumsKeywords(p: string)
    requires p == "platums"
    ensures !Contains(p, "type") && !Contains(p, "tips") && !Contains(p, "count")
    ensures !Contains(p, "skaits") && !Contains(p, "height") && !Contains(p, "augstums")
    ensures !Contains(p, "width")
  {
    MissingChar(p, "type", 'y'); MissingChar(p, "tips", 'i');
    MissingChar(p, "count", 'c'); MissingChar(p, "skaits", 'k');
    MissingChar(p, "height", 'h'); MissingChar(p, "augstums", 'g');
    MissingChar(p, "width", 'w');
  }

  lemma ClassifiedPlatums()
    ensures Classify("platums") == Some(Width)
  {
    PlatumsKeywords("platums");
    assert "platums" <= "platums"[0..];
  }

  lemma DzilumsLastKeywords(d: string)
    requires d == "dzi\U{13C}ums"
    ensures !Contains(d, "augstums") && !Contains(d, "width") && !Contains(d, "platums")
    ensures !Contains(d, "garums")
  {
    MissingChar(d, "augstums", 'a'); MissingChar(d, "width", 'w');
    MissingChar(d, "platums", 'p'); MissingChar(d, "garums", 'g');
  }

  lemma ClassifiedDzilums(d: string)
    requires d == "dzi\U{13C}ums"
    ensures Classify(d) == Some(Depth)
  {
    NoFirstKeywords(d);
    DzilumsLastKeywords(d);
    assert d <= d[0..];
  }

  /** One more column, classified into `after`. */
  lemma ColumnMapThen(cols: seq<string>, col: string, before: map<Field, string>, after: map<Field, string>)
    requires ColumnMap(cols) == before && Assign(before, col) == after
    ensures ColumnMap(cols + [col]) == after
  {
    ColumnMapSnoc(cols, col);
  }

  lemma LatvianFirstColumns(n: seq<string>)
    requires LatvianLabels(n)
    ensures ColumnMap(n[..4]) == map[Type := "tips", Count := "skaits"]
  {
    ClassifiedTips(); ClassifiedSkaits(); ClassifiedSvars(); ClassifiedUnnamed();
    var m := map[Type := "tips"];
    ColumnMapThen([], n[0], map[], m);
    assert [] + [n[0]] == n[..1];
    ColumnMapThen(n[..1], n[1], m, m[Count := "skaits"]);
    assert n[..1] + [n[1]] == n[..2];
    ColumnMapThen(n[..2], n[2], m[Count := "skaits"], m[Count := "skaits"]);
    assert n[..2] + [n[2]] == n[..3];
    ColumnMapThen(n[..3], n[3], m[Count := "skaits"], m[Count := "skaits"]);
    assert n[..3] + [n[3]] == n[..4];
  }

  /** The Latvian header row maps every field to its own column; the weight
      column `svars` and the unnamed column are ignored. */
  lemma LatvianColumnMap(n: seq<string>)
    requires LatvianLabels(n)
    ensures ColumnMap(n) == LatvianMap
  {
    LatvianFirstColumns(n);
    ClassifiedAugstums(); ClassifiedPlatums(); ClassifiedDzilums(n[6]);
    var m := map[Type := "tips", Count := "skaits"];
    ColumnMapThen(n[..4], n[4], m, m[Height := "augstums"]);
    assert n[..4] + [n[4]] == n[..5];
    m := m[Height := "augstums"];
    ColumnMapThen(n[..5], n[5], m, m[Width := "platums"]);
    assert n[..5] + [n[5]] == n[..6];
    m := m[Width := "platums"];
    ColumnMapThen(n[..6], n[6], m, LatvianMap);
    assert n[..6] + [n[6]] == n[..7];
    assert n[..7] == n;
  }

  /** A Latvian header as it appears in the uploaded table, before normalisation. */
  predicate LatvianHeader(h: seq<string>) {
    |h| == 7 && h[0] == "Tips" && h[1] == "Skaits" && h[2] == "Svars" && h[3] == "Unnamed: 3"
    && h[4] == "Augstums" && h[5] == "Platums" && h[6] == "Dzi\U{13C}ums"
  }

  /** Normalising a name with no surrounding whitespace only lower-cases it. */
  lemma NormalizesTo(s: string, t: string)
    requires s != [] && !IsSpace(s[0]) && !IsSpace(s[|s| - 1]) && Lower(s) == t
    ensures Normalize(s) == t
  {
  }

  lemma NormalizedTips(s: string)
    requires s == "Tips"
    ensures Normalize(s) == "tips"
  {
    assert Lower(s) == "tips";
    NormalizesTo(s, "tips");
  }

  lemma NormalizedSkaits(s: string)
    requires s == "Skaits"
    ensures Normalize(s) == "skaits"
  {
    assert Lower(s) == "skaits";
    NormalizesTo(s, "skaits");
  }

  lemma NormalizedSvars(s: string)
    requires s == "Svars"
    ensures Normalize(s) == "svars"
  {
    assert Lower(s) == "svars";
    NormalizesTo(s, "svars");
  }

  lemma NormalizedUnnamed(s: string)
    requires s == "Unnamed: 3"
    ensures Normalize(s) == Unnamed
  {
    assert Lower(s) == Unnamed;
    NormalizesTo(s, Unnamed);
  }

  lemma NormalizedAugstums(s: string)
    requires s == "Augstums"
    ensures Normalize(s) == "augstums"
  {
    assert Lower(s) == "augstums";
    NormalizesTo(s, "augstums");
  }

  lemma NormalizedPlatums(s: string)
    requires s == "Platums"
    ensures Normalize(s) == "platums"
  {
    assert Lower(s) == "platums";
    NormalizesTo(s, "platums");
  }

  lemma NormalizedDzilums(s: string)
    requires s == "Dzi\U{13C}ums"
    ensures Normalize(s) == "dzi\U{13C}ums"
  {
    assert Lower(s) == "dzi\U{13C}ums";
    NormalizesTo(s, "dzi\U{13C}ums");
  }

  /** The header, with its mixed letter case, normalises to the labels above. */
  lemma LatvianNormalizedFront(h: seq<string>)
    requires LatvianHeader(h)
    ensures NormalizeAll(h)[0] == "tips" && NormalizeAll(h)[1] == "skaits"
    ensures NormalizeAll(h)[2] == "svars" && NormalizeAll(h)[3] == Unnamed
  {
    NormalizedTips(h[0]);
    NormalizedSkaits(h[1]);
    NormalizedSvars(h[2]);
    NormalizedUnnamed(h[3]);
  }

  lemma LatvianNormalizedBack(h: seq<string>)
    requires LatvianHeader(h)
    ensures NormalizeAll(h)[4] == "augstums" && NormalizeAll(h)[5] == "platums"
    ensures NormalizeAll(h)[6] == "dzi\U{13C}ums"
  {
    NormalizedAugstums(h[4]);
    NormalizedPlatums(h[5]);
    NormalizedDzilums(h[6]);
  }

  lemma LatvianNormalized(h: seq<string>)
    requires LatvianHeader(h)
    ensures LatvianLabels(NormalizeAll(h))
  {
    LatvianNormalizedFront(h);
    LatvianNormalizedBack(h);
  }

  /** One complete row, and one row whose height is missing. */
  const LatvianRows: seq<Row> := [
    [TextCell("Grc.L"), Number(5), Number(2), Absent, Number(175), Number(3235), Number(525)],
    [TextCell("Grc.M"), Number(1), Absent, Absent, Absent, Number(100), Number(50)]
  ]

  const LatvianMap: map<Field, string> :=
    map[Type := "tips", Count := "skaits", Height := "augstums", Width := "platums", Depth := "dzi\U{13C}ums"]

  lemma LatvianComplete(n: seq<string>, m: map<Field, string>)
    requires LatvianLabels(n) && m == LatvianMap
    ensures Complete(n, m)
  {
    assert n[0] == "tips" && n[1] == "skaits" && n[4] == "augstums";
    assert n[5] == "platums" && n[6] == "dzi\U{13C}ums";
    forall f ensures f in m && m[f] in n {
      match f
      case Type => assert m[f] == n[0];
      case Count => assert m[f] == n[1];
      case Height => assert m[f] == n[4];
      case Width => assert m[f] == n[5];
      case Depth => assert m[f] == n[6];
    }
  }

  /** The first occurrence of `name` is at `i` when no earlier label is `name`. */
  lemma IndexOfAt(cols: seq<string>, i: nat, name: string)
    requires i < |cols| && cols[i] == name
    requires forall j :: 0 <= j < i ==> cols[j] != name
    ensures IndexOf(cols, name) == i
  {
  }

  /** Where each mapped label sits among the normalised Latvian labels. */
  lemma LatvianIndices(n: seq<string>, m: map<Field, string>)
    requires LatvianLabels(n) && m == LatvianMap
    ensures Complete(n, m)
    ensures IndexOf(n, m[Type]) == 0 && IndexOf(n, m[Count]) == 1 && IndexOf(n, m[Height]) == 4
    ensures IndexOf(n, m[Width]) == 5 && IndexOf(n, m[Depth]) == 6
  {
    LatvianComplete(n, m);
    IndexOfAt(n, 0, m[Type]);
    assert n[0] != m[Count];
    IndexOfAt(n, 1, m[Count]);
    assert n[0] != m[Height] && n[1] != m[Height] && n[2] != m[Height] && n[3] != m[Height];
    IndexOfAt(n, 4, m[Height]);
    assert n[0] != m[Width] && n[1] != m[Width] && n[2] != m[Width] && n[3] != m[Width] && n[4] != m[Width];
    IndexOfAt(n, 5, m[Width]);
    assert n[0] != m[Depth] && n[1] != m[Depth] && n[2] != m[Depth] && n[3] != m[Depth];
    assert n[4] != m[Depth] && n[5] != m[Depth];
    IndexOfAt(n, 6, m[Depth]);
  }

  /** With the Latvian positions, a row's projection picks cells 0, 1, 4, 5 and 6. */
  lemma LatvianProjectRow(n: seq<string>, m: map<Field, string>, row: Row)
    requires LatvianLabels(n) && m == LatvianMap && |row| == 7
    ensures Complete(n, m)
    ensures ProjectRow(n, m, row) == [row[0], row[1], row[4], row[5], row[6]]
  {
    LatvianIndices(n, m);
    var r := ProjectRow(n, m, row);
    assert Fields[0] == Type && Fields[1] == Count && Fields[2] == Height;
    assert Fields[3] == Width && Fields[4] == Depth;
    assert r[0] == row[0] && r[1] == row[1] && r[2] == row[4] && r[3] == row[5] && r[4] == row[6];
  }

  /** Of two rows, the one with a missing cell is dropped. */
  lemma DropAbsentPair(kept: Row, dropped: Row)
    requires Absent !in kept && Absent in dropped
    ensures DropAbsent([kept, dropped]) == [kept]
  {
    assert [kept, dropped][1..] == [dropped] && [dropped][1..] == [];
  }

  lemma LatvianProjected(n: seq<string>, m: map<Field, string>, rows: seq<Row>)
    requires LatvianLabels(n) && m == LatvianMap && rows == LatvianRows
    ensures Complete(n, m) && Rectangular(n, rows)
    ensures Project(n, m, rows) == [[TextCell("Grc.L"), Number(5), Number(175), Number(3235), Number(525)],
                                    [TextCell("Grc.M"), Number(1), Absent, Number(100), Number(50)]]
  {
    LatvianProjectRow(n, m, rows[0]);
    LatvianProjectRow(n, m, rows[1]);
    var p := Project(n, m, rows);
    assert p == [p[0], p[1]];
  }

  lemma LatvianTable(n: seq<string>, m: map<Field, string>, rows: seq<Row>)
    requires LatvianLabels(n) && m == LatvianMap && rows == LatvianRows
    ensures Complete(n, m) && Rectangular(n, rows)
    ensures DropAbsent(Project(n, m, rows)) == [[TextCell("Grc.L"), Number(5), Number(175), Number(3235), Number(525)]]
  {
    LatvianProjected(n, m, rows);
    DropAbsentPair([TextCell("Grc.L"), Number(5), Number(175), Number(3235), Number(525)],
                   [TextCell("Grc.M"), Number(1), Absent, Number(100), Number(50)]);
  }

  /** The whole spreadsheet path on the Latvian header: the complete row is kept
      with its five mapped cells in canonical order, the weight column is not
      part of the output, and the row with a missing height is dropped. */
  lemma LatvianSheet(header: seq<string>, rows: seq<Row>)
    requires LatvianHeader(header) && rows == LatvianRows
    ensures Rectangular(header, rows)
    ensures SheetResult(header, rows)
      == Table(CanonicalNames, [[TextCell("Grc.L"), Number(5), Number(175), Number(3235), Number(525)]])
  {
    var n := NormalizeAll(header);
    LatvianNormalized(header);
    LatvianColumnMap(n);
    GateComplete(LatvianMap);
    LatvianTable(n, LatvianMap, rows);
  }
}
