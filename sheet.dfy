/** The spreadsheet path of the extractor: normalise the column names, map each
    canonical field to a column by bilingual keyword, give up unless all five
    fields were found, project and rename the five columns, and drop every row
    with a missing cell. */
module Sheet {
  import opened Text

  /** A spreadsheet cell as pandas holds it: text, a number, or missing (NaN/None). */
  datatype Cell = TextCell(text: string) | Number(value: int) | Absent

  type Row = seq<Cell>

  /** A data frame: its column labels and its rows. */
  datatype Table = Table(columns: seq<string>, rows: seq<Row>)

  /** `pd.DataFrame()`: no columns, no rows. */
  const EmptyTable := Table([], [])

  /** pandas' `df.empty`: no rows or no columns. */
  predicate IsEmpty(t: Table) {
    t.columns == [] || t.rows == []
  }

  /** The five canonical fields, in the order the mapper tries them. */
  datatype Field = Type | Count | Height | Width | Depth

  const Fields: seq<Field> := [Type, Count, Height, Width, Depth]

  const CanonicalNames: seq<string> := ["Type", "Count", "Height", "Width", "Depth"]

  /** Position of a field in the priority order and in the output columns. */
  function Rank(f: Field): (k: nat)
    ensures k < 5 && Fields[k] == f
  {
    match f
    case Type => 0
    case Count => 1
    case Height => 2
    case Width => 3
    case Depth => 4
  }

  /** The English and Latvian keywords that identify each field. */
  function Keywords(f: Field): seq<string> {
    match f
    case Type => ["type", "tips"]
    case Count => ["count", "skaits"]
    case Height => ["height", "augstums"]
    case Width => ["width", "platums", "garums"]
    case Depth => ["depth", "dzi\U{13C}ums"]
  }

  /** A column name mentions a field when it contains one of the field's keywords. */
  predicate Mentions(col: string, f: Field) {
    exists k :: k in Keywords(f) && Contains(col, k)
  }

  /** The `if`/`elif` chain tried on one normalised column name. */
  function Classify(col: string): Option<Field> {
    if Contains(col, "type") || Contains(col, "tips") then Some(Type)
    else if Contains(col, "count") || Contains(col, "skaits") then Some(Count)
    else if Contains(col, "height") || Contains(col, "augstums") then Some(Height)
    else if Contains(col, "width") || Contains(col, "platums") || Contains(col, "garums") then Some(Width)
    else if Contains(col, "depth") || Contains(col, "dzi\U{13C}ums") then Some(Depth)
    else None
  }

  /** A column is claimed by the field of highest priority whose keywords it
      contains, and by no field when it contains none. */
  lemma ClassifyPriority(col: string)
    ensures Classify(col).None? <==> forall f :: !Mentions(col, f)
    ensures Classify(col).Some? ==> Mentions(col, Classify(col).value)
    ensures Classify(col).Some? ==> forall g :: Rank(g) < Rank(Classify(col).value) ==> !Mentions(col, g)
  {
    MentionsChain(col);
    var r := Classify(col);
    if r.None? {
      forall f ensures !Mentions(col, f) {
        match f
        case Type =>
        case Count =>
        case Height =>
        case Width =>
        case Depth =>
      }
    } else {
      forall g | Rank(g) < Rank(r.value) ensures !Mentions(col, g) {
        match g
        case Type =>
        case Count =>
        case Height =>
        case Width =>
        case Depth =>
      }
    }
  }

  /** `Mentions` spelled out as the disjunctions of the `if`/`elif` chain. */
  lemma MentionsChain(col: string)
    ensures Mentions(col, Type) <==> Contains(col, "type") || Contains(col, "tips")
    ensures Mentions(col, Count) <==> Contains(col, "count") || Contains(col, "skaits")
    ensures Mentions(col, Height) <==> Contains(col, "height") || Contains(col, "augstums")
    ensures Mentions(col, Width) <==> Contains(col, "width") || Contains(col, "platums") || Contains(col, "garums")
    ensures Mentions(col, Depth) <==> Contains(col, "depth") || Contains(col, "dzi\U{13C}ums")
  {
    assert Keywords(Type)[0] == "type" && Keywords(Type)[1] == "tips";
    assert Keywords(Count)[0] == "count" && Keywords(Count)[1] == "skaits";
    assert Keywords(Height)[0] == "height" && Keywords(Height)[1] == "augstums";
    assert Keywords(Width)[0] == "width" && Keywords(Width)[1] == "platums" && Keywords(Width)[2] == "garums";
    assert Keywords(Depth)[0] == "depth" && Keywords(Depth)[1] == "dzi\U{13C}ums";
  }

  /** Some column of `cols` is classified as `f`. */
  predicate Detected(cols: seq<string>, f: Field) {
    exists j :: 0 <= j < |cols| && Classify(cols[j]) == Some(f)
  }

  /** `cols[j]` is the last column classified as `f`. */
  predicate LastFor(cols: seq<string>, f: Field, j: int) {
    0 <= j < |cols| && Classify(cols[j]) == Some(f)
    && forall j' :: j < j' < |cols| ==> Classify(cols[j']) != Some(f)
  }

  /** The dictionary `col_map` once the loop over `cols` has finished. A field is
      a key exactly when some column is classified as it, and its value is the
      last such column, because later assignments overwrite earlier ones. */
  function ColumnMap(cols: seq<string>): (m: map<Field, string>)
    ensures forall f :: f in m <==> Detected(cols, f)
    ensures forall f :: f in m ==> exists j :: LastFor(cols, f, j) && m[f] == cols[j]
    ensures forall f :: f in m ==> m[f] in cols
    decreases |cols|
  {
    if cols == [] then map[]
    else
      var n := |cols| - 1;
      var prev := ColumnMap(cols[..n]);
      ColumnMapStep(cols, prev);
      Assign(prev, cols[n])
  }

  /** One iteration of the mapping loop: the assignment the `if`/`elif` chain makes. */
  function Assign(m: map<Field, string>, col: string): map<Field, string> {
    match Classify(col)
    case Some(f) => m[f := col]
    case None => m
  }

  /** Some element of `init + [last]` satisfies `p` exactly when one of `init` does or `last` does. */
  lemma SomeSatisfiesSnoc<T>(init: seq<T>, last: T, p: T -> bool)
    ensures (exists j :: 0 <= j < |init| + 1 && p((init + [last])[j]))
        <==> (exists j :: 0 <= j < |init| && p(init[j])) || p(last)
  {
    var s := init + [last];
    if exists j :: 0 <= j < |init| + 1 && p(s[j]) {
      var j :| 0 <= j < |init| + 1 && p(s[j]);
      if j < |init| {
        assert s[j] == init[j];
      }
    }
    if exists j :: 0 <= j < |init| && p(init[j]) {
      var j :| 0 <= j < |init| && p(init[j]);
      assert s[j] == init[j];
    }
    assert s[|init|] == last;
  }

  lemma DetectedExtend(cols: seq<string>, f: Field)
    requires cols != []
    ensures Detected(cols, f) <==> Detected(cols[..|cols| - 1], f) || Classify(cols[|cols| - 1]) == Some(f)
  {
    var n := |cols| - 1;
    assert cols == cols[..n] + [cols[n]];
    SomeSatisfiesSnoc(cols[..n], cols[n], c => Classify(c) == Some(f));
  }

  lemma LastForExtend(cols: seq<string>, f: Field, j: int)
    requires cols != []
    requires LastFor(cols[..|cols| - 1], f, j)
    requires Classify(cols[|cols| - 1]) != Some(f)
    ensures LastFor(cols, f, j)
  {
    var n := |cols| - 1;
    assert cols[..n][j] == cols[j];
    forall j' | j < j' < |cols| ensures Classify(cols[j']) != Some(f) {
      if j' < n {
        assert cols[..n][j'] == cols[j'];
      }
    }
  }

  /** One more column keeps the mapping's two properties. */
  lemma ColumnMapStep(cols: seq<string>, prev: map<Field, string>)
    requires cols != []
    requires forall f :: f in prev <==> Detected(cols[..|cols| - 1], f)
    requires forall f :: f in prev ==> exists j :: LastFor(cols[..|cols| - 1], f, j) && prev[f] == cols[j]
    ensures var m := Assign(prev, cols[|cols| - 1]);
      && (forall f :: f in m <==> Detected(cols, f))
      && (forall f :: f in m ==> exists j :: LastFor(cols, f, j) && m[f] == cols[j])
  {
    var n := |cols| - 1;
    var m := Assign(prev, cols[n]);
    forall f ensures f in m <==> Detected(cols, f) {
      DetectedExtend(cols, f);
    }
    forall f | f in m ensures exists j :: LastFor(cols, f, j) && m[f] == cols[j] {
      if Classify(cols[n]) == Some(f) {
        assert LastFor(cols, f, n);
      } else {
        var j :| LastFor(cols[..n], f, j) && prev[f] == cols[j];
        LastForExtend(cols, f, j);
      }
    }
  }

  /** The loop of the script that fills `col_map` column by column. */
  method BuildColumnMap(cols: seq<string>) returns (colMap: map<Field, string>)
    ensures colMap == ColumnMap(cols)
  {
    colMap := map[];
    for i := 0 to |cols|
      invariant colMap == ColumnMap(cols[..i])
    {
      var col := cols[i];
      assert cols[..i + 1][..i] == cols[..i];
      if Contains(col, "type") || Contains(col, "tips") {
        colMap := colMap[Type := col];
      } else if Contains(col, "count") || Contains(col, "skaits") {
        colMap := colMap[Count := col];
      } else if Contains(col, "height") || Contains(col, "augstums") {
        colMap := colMap[Height := col];
      } else if Contains(col, "width") || Contains(col, "platums") || Contains(col, "garums") {
        colMap := colMap[Width := col];
      } else if Contains(col, "depth") || Contains(col, "dzi\U{13C}ums") {
        colMap := colMap[Depth := col];
      }
    }
    assert cols[..|cols|] == cols;
  }

  const AllFields: set<Field> := {Type, Count, Height, Width, Depth}

  lemma AllFieldsCard()
    ensures |AllFields| == 5
    ensures forall f :: f in AllFields
  {
    forall f ensures f in AllFields {
      match f
      case Type =>
      case Count =>
      case Height =>
      case Width =>
      case Depth =>
    }
  }

  /** `len(col_map) < 5` fails exactly when every field was detected. */
  lemma GateComplete(m: map<Field, string>)
    ensures |m| == 5 <==> forall f :: f in m
    ensures |m| <= 5
  {
    AllFieldsCard();
    assert m.Keys <= AllFields;
    SubsetCard(m.Keys, AllFields);
    assert |m| == |m.Keys|;
    if forall f :: f in m {
      assert m.Keys == AllFields;
    } else {
      var f :| f !in m;
      var rest := AllFields - {f};
      assert |rest| == 4;
      assert m.Keys <= rest;
      SubsetCard(m.Keys, rest);
    }
  }

  lemma {:induction false} SubsetCard<T>(a: set<T>, b: set<T>)
    requires a <= b
    ensures |a| <= |b|
    decreases |b|
  {
    if a != {} {
      var x :| x in a;
      SubsetCard(a - {x}, b - {x});
    }
  }

  // ---------------------------------------------------------------------------
  // projection and dropna

  /** The position of column label `name` (the first, and with distinct labels the only one). */
  function IndexOf(cols: seq<string>, name: string): (i: nat)
    requires name in cols
    ensures i < |cols| && cols[i] == name
    ensures forall j :: 0 <= j < i ==> cols[j] != name
  {
    if cols[0] == name then 0 else 1 + IndexOf(cols[1..], name)
  }

  predicate Distinct(cols: seq<string>) {
    forall i, j :: 0 <= i < j < |cols| ==> cols[i] != cols[j]
  }

  /** The normalised names `[str(c).strip().lower() for c in df.columns]`. */
  function NormalizeAll(cols: seq<string>): (r: seq<string>)
    ensures |r| == |cols|
    ensures forall i :: 0 <= i < |cols| ==> r[i] == Normalize(cols[i])
  {
    seq(|cols|, i requires 0 <= i < |cols| => Normalize(cols[i]))
  }

  /** A complete mapping whose values are all column labels of `cols`. */
  predicate Complete(cols: seq<string>, m: map<Field, string>) {
    (forall f :: f in m) && (forall f :: f in m ==> m[f] in cols)
  }

  /** The columns `Type, Count, Height, Width, Depth` of one row. */
  function ProjectRow(cols: seq<string>, m: map<Field, string>, row: Row): (r: Row)
    requires Complete(cols, m) && |row| == |cols|
    ensures |r| == 5
    ensures forall k :: 0 <= k < 5 ==> r[k] == row[IndexOf(cols, m[Fields[k]])]
  {
    seq(5, k requires 0 <= k < 5 => row[IndexOf(cols, m[Fields[k]])])
  }

  /** `df[[col_map[k] for k in fields]]` with the columns renamed. */
  function Project(cols: seq<string>, m: map<Field, string>, rows: seq<Row>): (r: seq<Row>)
    requires Complete(cols, m)
    requires forall row :: row in rows ==> |row| == |cols|
    ensures |r| == |rows|
    ensures forall i :: 0 <= i < |rows| ==> r[i] == ProjectRow(cols, m, rows[i])
  {
    seq(|rows|, i requires 0 <= i < |rows| => ProjectRow(cols, m, rows[i]))
  }

  /** `dropna()`: the rows with no missing cell, in their original order. */
  function DropAbsent(rows: seq<Row>): (r: seq<Row>)
    ensures forall row :: row in r <==> row in rows && Absent !in row
    ensures |r| <= |rows|
  {
    if rows == [] then []
    else (if Absent in rows[0] then [] else [rows[0]]) + DropAbsent(rows[1..])
  }

  /** Row removal works row by row, so survivors keep their relative order. */
  lemma {:induction false} DropAbsentAppend(a: seq<Row>, b: seq<Row>)
    ensures DropAbsent(a + b) == DropAbsent(a) + DropAbsent(b)
    decreases |a|
  {
    if a == [] {
      assert a + b == b;
    } else {
      assert (a + b)[1..] == a[1..] + b;
      DropAbsentAppend(a[1..], b);
    }
  }

  /** A table without missing cells is left as it is. */
  lemma {:induction false} DropAbsentKeepsComplete(rows: seq<Row>)
    requires forall row :: row in rows ==> Absent !in row
    ensures DropAbsent(rows) == rows
    decreases |rows|
  {
    if rows != [] {
      DropAbsentKeepsComplete(rows[1..]);
    }
  }

  /** Dropping missing rows twice is dropping them once. */
  lemma DropAbsentIdempotent(rows: seq<Row>)
    ensures DropAbsent(DropAbsent(rows)) == DropAbsent(rows)
  {
    DropAbsentKeepsComplete(DropAbsent(rows));
  }

  // ---------------------------------------------------------------------------
  // the whole spreadsheet path

  /** Every row has one cell per column. */
  predicate Rectangular(cols: seq<string>, rows: seq<Row>) {
    forall row :: row in rows ==> |row| == |cols|
  }

  /** `extract_from_excel_or_csv` on a loaded table with labels `cols`. */
  function SheetResult(cols: seq<string>, rows: seq<Row>): (t: Table)
    requires Rectangular(cols, rows)
  {
    var names := NormalizeAll(cols);
    var m := ColumnMap(names);
    if |m| < 5 then EmptyTable
    else
      GateComplete(m);
      Table(CanonicalNames, DropAbsent(Project(names, m, rows)))
  }

  /** The result has the canonical columns exactly when every field was
      detected among the normalised labels, and is the empty table otherwise. */
  lemma SheetShape(cols: seq<string>, rows: seq<Row>)
    requires Rectangular(cols, rows)
    ensures var t := SheetResult(cols, rows);
      && ((forall f :: Detected(NormalizeAll(cols), f)) ==> t.columns == CanonicalNames)
      && (!(forall f :: Detected(NormalizeAll(cols), f)) ==> t == EmptyTable)
  {
    GateComplete(ColumnMap(NormalizeAll(cols)));
  }

  /** With every field detected the mapping is total over the normalised labels. */
  lemma MappingComplete(names: seq<string>)
    requires forall f :: Detected(names, f)
    ensures Complete(names, ColumnMap(names))
    ensures |ColumnMap(names)| == 5
  {
    GateComplete(ColumnMap(names));
  }

  /** A projected row survives `dropna()` exactly when none of its five mapped cells is missing. */
  lemma ProjectedRowSurvives(names: seq<string>, m: map<Field, string>, rows: seq<Row>, i: nat)
    requires Complete(names, m) && Rectangular(names, rows) && i < |rows|
    ensures ProjectRow(names, m, rows[i]) in DropAbsent(Project(names, m, rows))
        <==> forall f :: rows[i][IndexOf(names, m[f])] != Absent
  {
    var out := ProjectRow(names, m, rows[i]);
    var projected := Project(names, m, rows);
    assert projected[i] == out;
    if Absent in out {
      var k :| 0 <= k < 5 && out[k] == Absent;
      assert rows[i][IndexOf(names, m[Fields[k]])] == Absent;
    } else {
      forall f ensures rows[i][IndexOf(names, m[f])] != Absent {
        assert out[Rank(f)] == rows[i][IndexOf(names, m[f])];
      }
    }
  }

  /** On success, a source row survives exactly when none of its five mapped
      cells is missing, and each output cell is that row's cell in the column
      mapped to the output column's field. */
  lemma SheetRows(cols: seq<string>, rows: seq<Row>, i: nat)
    requires Rectangular(cols, rows)
    requires Complete(NormalizeAll(cols), ColumnMap(NormalizeAll(cols)))
    requires i < |rows|
    ensures var names := NormalizeAll(cols);
      var m := ColumnMap(names);
      var out := ProjectRow(names, m, rows[i]);
      && (out in SheetResult(cols, rows).rows <==> forall f :: rows[i][IndexOf(names, m[f])] != Absent)
      && forall k :: 0 <= k < 5 ==> out[k] == rows[i][IndexOf(names, m[Fields[k]])]
  {
    var names := NormalizeAll(cols);
    var m := ColumnMap(names);
    GateComplete(m);
    assert SheetResult(cols, rows).rows == DropAbsent(Project(names, m, rows));
    ProjectedRowSurvives(names, m, rows, i);
  }

  /** On success, every output row comes from some source row through the mapping. */
  lemma SheetRowsFromSource(cols: seq<string>, rows: seq<Row>, out: Row)
    requires Rectangular(cols, rows)
    requires out in SheetResult(cols, rows).rows
    ensures forall f :: Detected(NormalizeAll(cols), f)
    ensures Absent !in out && |out| == 5
    ensures exists i :: 0 <= i < |rows| && out == ProjectRow(NormalizeAll(cols), ColumnMap(NormalizeAll(cols)), rows[i])
  {
    var names := NormalizeAll(cols);
    var m := ColumnMap(names);
    GateComplete(m);
    var projected := Project(names, m, rows);
    var i :| 0 <= i < |projected| && projected[i] == out;
  }

  /** The spreadsheet path of the script, with the mapping loop run step by step.
      The proof does not need distinct labels; the precondition records that
      pandas selects several columns for a duplicated label, which `IndexOf`
      does not model, so the model speaks only for distinct labels. */
  method ExtractFromTable(cols: seq<string>, rows: seq<Row>) returns (t: Table)
    requires Rectangular(cols, rows)
    requires Distinct(NormalizeAll(cols))
    ensures t == SheetResult(cols, rows)
  {
    var names := NormalizeAll(cols);
    var colMap := BuildColumnMap(names);
    if |colMap| < 5 {
      return EmptyTable;
    }
    GateComplete(colMap);
    var extracted := Project(names, colMap, rows);
    t := Table(CanonicalNames, DropAbsent(extracted));
  }
}
