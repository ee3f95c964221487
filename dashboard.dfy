// The dashboard's filter state: the option lists and the day slider that
// `update_filters` derives from the summary table, and the rows
// `apply_filters` keeps for the current selection.
module Dashboard {
  import opened Common
  import opened Text
  import opened Timestamps

  const All: string := "Все"
  const DefaultDaysMax: int := 30

  const CourseColumn: string := "Название курса"
  const TypeColumn: string := "Тип отчета"
  const RunColumn: string := "Запуск курса"
  const DaysColumn: string := "Дней с отчета"
  const FileColumn: string := "Файл"

  /** A table cell: missing (None or NaN), text, or an integer. */
  datatype Cell = Missing | Str(s: string) | Num(n: int)

  /** A table row; a column the row has no entry for reads as missing. */
  type Row = map<string, Cell>

  /** A data frame: its column labels and its rows in order. */
  datatype Table = Table(columns: set<string>, rows: seq<Row>)

  const EmptyTable: Table := Table({}, [])

  function At(r: Row, col: string): Cell {
    if col in r then r[col] else Missing
  }

  /** `DataFrame.empty`: no rows, or no columns. */
  predicate IsEmpty(t: Table) {
    |t.rows| == 0 || |t.columns| == 0
  }

  // ---------------------------------------------------------------------
  // Cells as text and as numbers
  // ---------------------------------------------------------------------

  /** How many decimal digits `n` is written with. */
  function Width(n: nat): (w: nat)
    ensures w >= 1
  {
    if n < 10 then 1 else 1 + Width(n / 10)
  }

  lemma {:induction false} WidthFits(n: nat)
    ensures n < Pow10(Width(n))
  {
    if n >= 10 {
      WidthFits(n / 10);
    }
  }

  /** `str(n)` for an integer. */
  function IntText(n: int): (s: string)
    ensures s != []
  {
    if n < 0 then "-" + Digits(-n, Width(-n)) else Digits(n, Width(n))
  }

  /** The integers `to_numeric` reads from text: an optional minus sign
      followed by decimal digits. Anything else is coerced to missing. */
  function ParseInt(s: string): Option<int> {
    if |s| >= 2 && s[0] == '-' && AllDigits(s[1..]) then Some(0 - Number(s[1..]))
    else if s != [] && AllDigits(s) then Some(Number(s))
    else None
  }

  /** Reading back the text of an integer gives the integer. */
  lemma IntTextRead(n: int)
    ensures ParseInt(IntText(n)) == Some(n)
  {
    var m := if n < 0 then -n else n;
    WidthFits(m);
    NumberOfDigits(m, Width(m));
    var d := Digits(m, Width(m));
    if n < 0 {
      assert IntText(n)[1..] == d;
    } else {
      assert IsDigit(d[0]);
    }
  }

  /** `astype(str)` of a present cell, None for a missing one (`dropna`). */
  function TextOf(c: Cell): (r: Option<string>)
    ensures r.None? <==> c.Missing?
  {
    match c
    case Missing => None
    case Str(s) => Some(s)
    case Num(n) => Some(IntText(n))
  }

  /** `pd.to_numeric(..., errors="coerce")` of a cell, None for NaN. */
  function Numeric(c: Cell): (r: Option<int>)
    ensures c.Num? ==> r == Some(c.n)
    ensures c.Missing? ==> r.None?
  {
    match c
    case Missing => None
    case Str(s) => ParseInt(s)
    case Num(n) => Some(n)
  }

  /** A number read from text is read back from that number as a cell. */
  lemma NumericOfText(n: int)
    ensures Numeric(Str(IntText(n))) == Some(n) && TextOf(Num(n)) == Some(IntText(n))
  {
    IntTextRead(n);
  }

  // ---------------------------------------------------------------------
  // Option lists: "Все" followed by the sorted distinct values
  // ---------------------------------------------------------------------

  /** Strictly ascending in Python's string order (hence no duplicates). */
  predicate Ascending(xs: seq<string>)
    decreases |xs|
  {
    |xs| <= 1 || (StrLt(xs[0], xs[1]) && Ascending(xs[1..]))
  }

  /** `x` put into its place in an ascending list, unless already there. */
  function Insert(x: string, xs: seq<string>): (r: seq<string>)
    ensures r != []
    decreases |xs|
  {
    if xs == [] then [x]
    else if x == xs[0] then xs
    else if StrLt(x, xs[0]) then [x] + xs
    else [xs[0]] + Insert(x, xs[1..])
  }

  /** `sorted(set(xs))`. */
  function SortedDistinct(xs: seq<string>): seq<string>
    decreases |xs|
  {
    if xs == [] then [] else Insert(xs[0], SortedDistinct(xs[1..]))
  }

  lemma {:induction false} InsertMembers(x: string, xs: seq<string>, y: string)
    ensures y in Insert(x, xs) <==> y == x || y in xs
    decreases |xs|
  {
    if xs != [] && x != xs[0] && !StrLt(x, xs[0]) {
      InsertMembers(x, xs[1..], y);
      assert xs == [xs[0]] + xs[1..];
    }
  }

  lemma InsertHead(x: string, xs: seq<string>)
    ensures Insert(x, xs)[0] == x || (xs != [] && Insert(x, xs)[0] == xs[0])
  {
  }

  lemma {:induction false} InsertAscending(x: string, xs: seq<string>)
    requires Ascending(xs)
    ensures Ascending(Insert(x, xs))
    decreases |xs|
  {
    if xs != [] && x != xs[0] {
      if StrLt(x, xs[0]) {
        assert ([x] + xs)[1..] == xs;
      } else {
        StrLtTotal(x, xs[0]);
        var r := Insert(x, xs[1..]);
        InsertAscending(x, xs[1..]);
        InsertHead(x, xs[1..]);
        assert ([xs[0]] + r)[1..] == r;
      }
    }
  }

  /** The sorted distinct list is ascending and holds exactly the values. */
  lemma {:induction false} SortedDistinctSpec(xs: seq<string>)
    ensures Ascending(SortedDistinct(xs))
    ensures forall y :: y in SortedDistinct(xs) <==> y in xs
    decreases |xs|
  {
    if xs != [] {
      SortedDistinctSpec(xs[1..]);
      InsertAscending(xs[0], SortedDistinct(xs[1..]));
      forall y ensures y in SortedDistinct(xs) <==> y in xs {
        InsertMembers(xs[0], SortedDistinct(xs[1..]), y);
        assert xs == [xs[0]] + xs[1..];
      }
    }
  }

  /** The texts of a column's present cells, in row order. */
  function Texts(rows: seq<Row>, col: string): seq<string>
    decreases |rows|
  {
    if rows == [] then []
    else
      var c := At(rows[0], col);
      (if c.Missing? then [] else [TextOf(c).value]) + Texts(rows[1..], col)
  }

  /** Row `i` holds, in column `col`, a present cell whose text is `x`. */
  predicate TextAt(rows: seq<Row>, col: string, i: int, x: string) {
    0 <= i < |rows| && TextOf(At(rows[i], col)) == Some(x)
  }

  lemma {:induction false} TextsMembers(rows: seq<Row>, col: string, x: string)
    ensures x in Texts(rows, col) <==> exists i :: TextAt(rows, col, i, x)
    decreases |rows|
  {
    if rows != [] {
      TextsMembers(rows[1..], col, x);
      if exists i :: TextAt(rows[1..], col, i, x) {
        var i :| TextAt(rows[1..], col, i, x);
        assert TextAt(rows, col, i + 1, x);
      }
      var c := At(rows[0], col);
      var head := if c.Missing? then [] else [TextOf(c).value];
      assert Texts(rows, col) == head + Texts(rows[1..], col);
      if exists i :: TextAt(rows, col, i, x) {
        var i :| TextAt(rows, col, i, x);
        if i > 0 {
          assert TextAt(rows[1..], col, i - 1, x);
        } else {
          assert x in head;
        }
      }
      if x in head {
        assert TextAt(rows, col, 0, x);
      }
    }
  }

  /** `safe_options(column)`. */
  function Options(t: Table, col: string): (opts: seq<string>)
    ensures |opts| >= 1 && opts[0] == All
  {
    [All] + (if col in t.columns then SortedDistinct(Texts(t.rows, col)) else [])
  }

  /** After "Все" the options ascend strictly, and a text is offered exactly
      when the column exists and some row holds it. */
  lemma OptionsSpec(t: Table, col: string, x: string)
    ensures Ascending(Options(t, col)[1..])
    ensures x in Options(t, col)[1..] <==> col in t.columns && exists i :: TextAt(t.rows, col, i, x)
  {
    var rest := if col in t.columns then SortedDistinct(Texts(t.rows, col)) else [];
    assert Options(t, col)[1..] == rest;
    SortedDistinctSpec(Texts(t.rows, col));
    TextsMembers(t.rows, col, x);
  }

  // ---------------------------------------------------------------------
  // The day slider
  // ---------------------------------------------------------------------

  function DayOf(r: Row): Option<int> {
    Numeric(At(r, DaysColumn))
  }

  /** The numeric days of the rows, in order. */
  function Days(rows: seq<Row>): seq<int>
    decreases |rows|
  {
    if rows == [] then []
    else (if DayOf(rows[0]).Some? then [DayOf(rows[0]).value] else []) + Days(rows[1..])
  }

  lemma {:induction false} DaysMembers(rows: seq<Row>, d: int)
    ensures d in Days(rows) <==> exists i :: 0 <= i < |rows| && DayOf(rows[i]) == Some(d)
    decreases |rows|
  {
    if rows != [] {
      DaysMembers(rows[1..], d);
      if exists i :: 0 <= i < |rows[1..]| && DayOf(rows[1..][i]) == Some(d) {
        var i :| 0 <= i < |rows[1..]| && DayOf(rows[1..][i]) == Some(d);
        assert DayOf(rows[i + 1]) == Some(d);
      }
      if exists i :: 0 <= i < |rows| && DayOf(rows[i]) == Some(d) {
        var i :| 0 <= i < |rows| && DayOf(rows[i]) == Some(d);
        if i > 0 {
          assert DayOf(rows[1..][i - 1]) == Some(d);
        }
      }
    }
  }

  /** The largest value, or 0 when there is none. */
  function MaxOr0(xs: seq<int>): (m: int)
    ensures xs == [] ==> m == 0
    ensures xs != [] ==> m in xs
    ensures forall k :: 0 <= k < |xs| ==> xs[k] <= m
    decreases |xs|
  {
    if xs == [] then 0
    else if |xs| == 1 then xs[0]
    else
      var m := MaxOr0(xs[1..]);
      if xs[0] >= m then xs[0] else m
  }

  /** `new_max`: the largest day in the data, but at least 30. */
  function SliderMax(t: Table): (m: int)
    ensures m >= DefaultDaysMax
  {
    var d := MaxOr0(Days(t.rows));
    if d > DefaultDaysMax then d else DefaultDaysMax
  }

  /** Every numeric day of the data fits under the slider maximum. */
  lemma DayBelowSlider(t: Table, i: int)
    requires 0 <= i < |t.rows| && DayOf(t.rows[i]).Some?
    ensures DayOf(t.rows[i]).value <= SliderMax(t)
  {
    var ds := Days(t.rows);
    DaysMembers(t.rows, DayOf(t.rows[i]).value);
    var k :| 0 <= k < |ds| && ds[k] == DayOf(t.rows[i]).value;
  }

  /** The slider maximum is 30 or the number of days of some row. */
  lemma SliderMaxAttained(t: Table)
    ensures SliderMax(t) == DefaultDaysMax || exists i :: 0 <= i < |t.rows| && DayOf(t.rows[i]) == Some(SliderMax(t))
  {
    var ds := Days(t.rows);
    if SliderMax(t) != DefaultDaysMax {
      DaysMembers(t.rows, MaxOr0(ds));
    }
  }

  /** `min(max(v, 0), hi)`. */
  function Clamp(v: int, hi: int): (r: int)
    requires hi >= 0
    ensures 0 <= r <= hi
    ensures 0 <= v <= hi ==> r == v
    ensures v < 0 ==> r == 0
    ensures v > hi ==> r == hi
  {
    var lo := if v > 0 then v else 0;
    if lo < hi then lo else hi
  }

  // ---------------------------------------------------------------------
  // Row filters
  // ---------------------------------------------------------------------

  /** One boolean mask `apply_filters` indexes the frame with. */
  datatype Filter = Equals(col: string, value: string) | DaysAtMost(limit: int) | HasFile

  predicate Keeps(f: Filter, r: Row) {
    match f
    case Equals(col, v) => At(r, col) == Str(v)
    case DaysAtMost(limit) => DayOf(r).None? || DayOf(r).value <= limit
    case HasFile => At(r, FileColumn) != Missing && At(r, FileColumn) != Str("")
  }

  /** `df[mask]`: the rows the mask keeps, in order. */
  function Where(rows: seq<Row>, f: Filter): seq<Row>
    decreases |rows|
  {
    if rows == [] then []
    else (if Keeps(f, rows[0]) then [rows[0]] else []) + Where(rows[1..], f)
  }

  function Narrow(t: Table, f: Filter): Table {
    Table(t.columns, Where(t.rows, f))
  }

  /** The dashboard's current selection. */
  datatype Selection = Selection(course: string, kind: string, run: string, days: int)

  /** A text selection filters only when it is non-empty, not "Все", and
      the column exists. */
  predicate TextActive(cols: set<string>, col: string, v: string) {
    v != "" && v != All && col in cols
  }

  /** What a row must satisfy to be shown: each active text selection
      equals its column, the days are missing or at most the selected
      number, and there is a non-empty file. */
  predicate Shown(r: Row, cols: set<string>, sel: Selection) {
    && (TextActive(cols, CourseColumn, sel.course) ==> At(r, CourseColumn) == Str(sel.course))
    && (TextActive(cols, TypeColumn, sel.kind) ==> At(r, TypeColumn) == Str(sel.kind))
    && (TextActive(cols, RunColumn, sel.run) ==> At(r, RunColumn) == Str(sel.run))
    && (DaysColumn in cols ==> DayOf(r).None? || DayOf(r).value <= sel.days)
    && (FileColumn in cols ==> At(r, FileColumn) != Missing && At(r, FileColumn) != Str(""))
  }

  /** The shown rows, in order: the reference for `apply_filters`. */
  function Select(rows: seq<Row>, cols: set<string>, sel: Selection): seq<Row>
    decreases |rows|
  {
    if rows == [] then []
    else (if Shown(rows[0], cols, sel) then [rows[0]] else []) + Select(rows[1..], cols, sel)
  }

  function Filtered(t: Table, sel: Selection): Table {
    if IsEmpty(t) then EmptyTable else Table(t.columns, Select(t.rows, t.columns, sel))
  }

  /** The masks `apply_filters` applies, in its order. */
  function Stages(cols: set<string>, sel: Selection): seq<Filter> {
    Opt(TextActive(cols, CourseColumn, sel.course), Equals(CourseColumn, sel.course))
    + Opt(TextActive(cols, TypeColumn, sel.kind), Equals(TypeColumn, sel.kind))
    + Opt(TextActive(cols, RunColumn, sel.run), Equals(RunColumn, sel.run))
    + Opt(DaysColumn in cols, DaysAtMost(sel.days))
    + Opt(FileColumn in cols, HasFile)
  }

  /** The masks applied one after another. */
  function WhereAll(rows: seq<Row>, fs: seq<Filter>): seq<Row>
    decreases |fs|
  {
    if fs == [] then rows else Where(WhereAll(rows, fs[..|fs| - 1]), fs[|fs| - 1])
  }

  /** A mask applied only when `active`. */
  function Opt(active: bool, f: Filter): seq<Filter> {
    if active then [f] else []
  }

  lemma MaybeStep(rows: seq<Row>, fs: seq<Filter>, active: bool, f: Filter)
    ensures WhereAll(rows, fs + Opt(active, f)) == if active then Where(WhereAll(rows, fs), f) else WhereAll(rows, fs)
  {
    if active {
      assert (fs + [f])[..|fs|] == fs;
    } else {
      assert fs + [] == fs;
    }
  }

  lemma FirstStep(rows: seq<Row>, active: bool, f: Filter)
    ensures WhereAll(rows, Opt(active, f)) == if active then Where(rows, f) else rows
  {
    if active {
      assert [f][..0] == [];
    }
  }

  predicate KeepsAll(fs: seq<Filter>, r: Row)
    decreases |fs|
  {
    fs == [] || (Keeps(fs[0], r) && KeepsAll(fs[1..], r))
  }

  lemma {:induction false} KeepsBoth(a: seq<Filter>, b: seq<Filter>, r: Row)
    ensures KeepsAll(a + b, r) <==> KeepsAll(a, r) && KeepsAll(b, r)
    decreases |a|
  {
    if a != [] {
      assert (a + b)[0] == a[0] && (a + b)[1..] == a[1..] + b;
      KeepsBoth(a[1..], b, r);
    } else {
      assert a + b == b;
    }
  }

  /** The rows every mask keeps, in order. */
  function KeptByAll(rows: seq<Row>, fs: seq<Filter>): seq<Row>
    decreases |rows|
  {
    if rows == [] then []
    else (if KeepsAll(fs, rows[0]) then [rows[0]] else []) + KeptByAll(rows[1..], fs)
  }

  lemma {:induction false} KeptByOneMore(rows: seq<Row>, fs: seq<Filter>, f: Filter)
    ensures Where(KeptByAll(rows, fs), f) == KeptByAll(rows, fs + [f])
    decreases |rows|
  {
    if rows != [] {
      KeptByOneMore(rows[1..], fs, f);
      var r := rows[0];
      KeepsBoth(fs, [f], r);
      assert KeepsAll([f], r) == Keeps(f, r);
      var head := if KeepsAll(fs, r) then [r] else [];
      WhereSplit(head, KeptByAll(rows[1..], fs), f);
    }
  }

  lemma {:induction false} WhereSplit(a: seq<Row>, b: seq<Row>, f: Filter)
    ensures Where(a + b, f) == Where(a, f) + Where(b, f)
    decreases |a|
  {
    if a != [] {
      assert (a + b)[1..] == a[1..] + b;
      WhereSplit(a[1..], b, f);
    } else {
      assert a + b == b;
    }
  }

  lemma {:induction false} KeptByNone(rows: seq<Row>)
    ensures KeptByAll(rows, []) == rows
    decreases |rows|
  {
    if rows != [] {
      KeptByNone(rows[1..]);
      assert rows == [rows[0]] + rows[1..];
    }
  }

  /** Masks applied in turn keep exactly the rows all of them keep. */
  lemma {:induction false} WhereAllKeeps(rows: seq<Row>, fs: seq<Filter>)
    ensures WhereAll(rows, fs) == KeptByAll(rows, fs)
    decreases |fs|
  {
    if fs == [] {
      KeptByNone(rows);
    } else {
      var init := fs[..|fs| - 1];
      WhereAllKeeps(rows, init);
      KeptByOneMore(rows, init, fs[|fs| - 1]);
      assert init + [fs[|fs| - 1]] == fs;
    }
  }

  lemma ShownByStages(r: Row, cols: set<string>, sel: Selection)
    ensures KeepsAll(Stages(cols, sel), r) <==> Shown(r, cols, sel)
  {
    var a := Opt(TextActive(cols, CourseColumn, sel.course), Equals(CourseColumn, sel.course));
    var b := Opt(TextActive(cols, TypeColumn, sel.kind), Equals(TypeColumn, sel.kind));
    var c := Opt(TextActive(cols, RunColumn, sel.run), Equals(RunColumn, sel.run));
    var d := Opt(DaysColumn in cols, DaysAtMost(sel.days));
    var e := Opt(FileColumn in cols, HasFile);
    KeepsBoth(a + b + c + d, e, r);
    KeepsBoth(a + b + c, d, r);
    KeepsBoth(a + b, c, r);
    KeepsBoth(a, b, r);
  }

  /** The successive masks keep exactly the shown rows. */
  lemma {:induction false} StagesSelect(rows: seq<Row>, cols: set<string>, sel: Selection)
    ensures KeptByAll(rows, Stages(cols, sel)) == Select(rows, cols, sel)
    decreases |rows|
  {
    if rows != [] {
      ShownByStages(rows[0], cols, sel);
      StagesSelect(rows[1..], cols, sel);
    }
  }

  /** Order-preserving sub-sequence. */
  predicate Subsequence<T(==)>(a: seq<T>, b: seq<T>)
    decreases |b|
  {
    if a == [] then true
    else if b == [] then false
    else (a[0] == b[0] && Subsequence(a[1..], b[1..])) || Subsequence(a, b[1..])
  }

  lemma {:induction false} SelectSubsequence(rows: seq<Row>, cols: set<string>, sel: Selection)
    ensures Subsequence(Select(rows, cols, sel), rows)
    decreases |rows|
  {
    if rows != [] {
      SelectSubsequence(rows[1..], cols, sel);
      var s := Select(rows, cols, sel);
      var rest := Select(rows[1..], cols, sel);
      if Shown(rows[0], cols, sel) {
        assert s == [rows[0]] + rest;
        assert s != [] && s[0] == rows[0] && s[1..] == rest;
      } else {
        assert s == rest;
      }
    }
  }

  lemma {:induction false} SelectMembers(rows: seq<Row>, cols: set<string>, sel: Selection, r: Row)
    ensures r in Select(rows, cols, sel) <==> r in rows && Shown(r, cols, sel)
    decreases |rows|
  {
    if rows != [] {
      SelectMembers(rows[1..], cols, sel, r);
      assert rows == [rows[0]] + rows[1..];
    }
  }

  lemma {:induction false} SelectTwice(rows: seq<Row>, cols: set<string>, sel: Selection)
    ensures Select(Select(rows, cols, sel), cols, sel) == Select(rows, cols, sel)
    decreases |rows|
  {
    if rows != [] {
      SelectTwice(rows[1..], cols, sel);
      var s := Select(rows, cols, sel);
      var rest := Select(rows[1..], cols, sel);
      if Shown(rows[0], cols, sel) {
        assert s == [rows[0]] + rest;
        assert s[0] == rows[0] && s[1..] == rest;
      } else {
        assert s == rest;
      }
    }
  }

  /** The filtered rows are rows of the table, in the table's order. */
  lemma FilteredInOrder(t: Table, sel: Selection)
    ensures Subsequence(Filtered(t, sel).rows, t.rows)
  {
    SelectSubsequence(t.rows, t.columns, sel);
  }

  /** A row is shown exactly when the table is not empty, the row is one of
      its rows and it passes every active selection. */
  lemma FilteredMembers(t: Table, sel: Selection, r: Row)
    ensures r in Filtered(t, sel).rows <==> !IsEmpty(t) && r in t.rows && Shown(r, t.columns, sel)
  {
    SelectMembers(t.rows, t.columns, sel, r);
  }

  /** A row with missing days is never dropped for its age. */
  lemma MissingDaysKept(t: Table, sel: Selection, r: Row)
    requires !IsEmpty(t) && r in t.rows && DayOf(r).None?
    requires Shown(r, t.columns, sel.(days := 0))
    ensures r in Filtered(t, sel).rows
  {
    SelectMembers(t.rows, t.columns, sel, r);
  }

  /** Filtering the shown rows again with the same selection changes
      nothing. */
  lemma FilterIdempotent(t: Table, sel: Selection)
    ensures Filtered(Filtered(t, sel), sel).rows == Filtered(t, sel).rows
  {
    if !IsEmpty(t) && !IsEmpty(Filtered(t, sel)) {
      SelectTwice(t.rows, t.columns, sel);
    }
  }

  /** The body of `apply_filters` for a non-empty frame: each mask in turn,
      applied only when its selection is active. */
  method Mask(t: Table, sel: Selection) returns (df: Table)
    ensures df == Table(t.columns, Select(t.rows, t.columns, sel))
  {
    df := t;
    if TextActive(t.columns, CourseColumn, sel.course) {
      df := Narrow(df, Equals(CourseColumn, sel.course));
    }
    FirstStep(t.rows, TextActive(t.columns, CourseColumn, sel.course), Equals(CourseColumn, sel.course));
    ghost var fs := Opt(TextActive(t.columns, CourseColumn, sel.course), Equals(CourseColumn, sel.course));
    assert df == Table(t.columns, WhereAll(t.rows, fs));
    if TextActive(t.columns, TypeColumn, sel.kind) {
      df := Narrow(df, Equals(TypeColumn, sel.kind));
    }
    MaybeStep(t.rows, fs, TextActive(t.columns, TypeColumn, sel.kind), Equals(TypeColumn, sel.kind));
    fs := fs + Opt(TextActive(t.columns, TypeColumn, sel.kind), Equals(TypeColumn, sel.kind));
    assert df == Table(t.columns, WhereAll(t.rows, fs));
    if TextActive(t.columns, RunColumn, sel.run) {
      df := Narrow(df, Equals(RunColumn, sel.run));
    }
    MaybeStep(t.rows, fs, TextActive(t.columns, RunColumn, sel.run), Equals(RunColumn, sel.run));
    fs := fs + Opt(TextActive(t.columns, RunColumn, sel.run), Equals(RunColumn, sel.run));
    assert df == Table(t.columns, WhereAll(t.rows, fs));
    if DaysColumn in t.columns {
      df := Narrow(df, DaysAtMost(sel.days));
    }
    MaybeStep(t.rows, fs, DaysColumn in t.columns, DaysAtMost(sel.days));
    fs := fs + Opt(DaysColumn in t.columns, DaysAtMost(sel.days));
    assert df == Table(t.columns, WhereAll(t.rows, fs));
    if FileColumn in t.columns {
      df := Narrow(df, HasFile);
    }
    MaybeStep(t.rows, fs, FileColumn in t.columns, HasFile);
    fs := fs + Opt(FileColumn in t.columns, HasFile);
    assert df == Table(t.columns, WhereAll(t.rows, fs));
    WhereAllKeeps(t.rows, fs);
    StagesSelect(t.rows, t.columns, sel);
  }

  // ---------------------------------------------------------------------
  // The application object
  // ---------------------------------------------------------------------

  /** `ReportsApp` with the page built: the summary table, the shown rows,
      the selection bound to the widgets, the widgets' option lists and the
      slider's maximum. */
  class ReportsApp {
    var dfAll: Table
    var filtered: Table
    var selectedCourse: string
    var selectedType: string
    var selectedRun: string
    var selectedDays: int
    var courseOptions: seq<string>
    var typeOptions: seq<string>
    var runOptions: seq<string>
    var sliderMax: int

    /** Every list starts with "Все" and the selected days sit on the
        slider, whose maximum is at least 30. */
    predicate Valid()
      reads this
    {
      && |courseOptions| >= 1 && courseOptions[0] == All
      && |typeOptions| >= 1 && typeOptions[0] == All
      && |runOptions| >= 1 && runOptions[0] == All
      && DefaultDaysMax <= sliderMax && 0 <= selectedDays <= sliderMax
    }

    function Current(): Selection
      reads this
    {
      Selection(selectedCourse, selectedType, selectedRun, selectedDays)
    }

    constructor ()
      ensures dfAll == EmptyTable && filtered == EmptyTable
      ensures selectedCourse == All && selectedType == All && selectedRun == All
      ensures selectedDays == DefaultDaysMax
      ensures courseOptions == [All] && typeOptions == [All] && runOptions == [All]
      ensures sliderMax == DefaultDaysMax
      ensures Valid()
    {
      dfAll := EmptyTable;
      filtered := EmptyTable;
      selectedCourse, selectedType, selectedRun := All, All, All;
      selectedDays := DefaultDaysMax;
      courseOptions, typeOptions, runOptions := [All], [All], [All];
      sliderMax := DefaultDaysMax;
    }

    /** `update_filters`. `raised` is the KeyError of a non-empty table
        without the days column, which comes after the three lists are set. */
    method UpdateFilters() returns (raised: bool)
      modifies this
      ensures dfAll == old(dfAll) && filtered == old(filtered)
      ensures selectedCourse == old(selectedCourse) && selectedType == old(selectedType)
      ensures selectedRun == old(selectedRun)
      ensures IsEmpty(dfAll) ==>
        && !raised
        && courseOptions == [All] && typeOptions == [All] && runOptions == [All]
        && sliderMax == DefaultDaysMax && selectedDays == DefaultDaysMax
      ensures !IsEmpty(dfAll) ==>
        && raised == (DaysColumn !in dfAll.columns)
        && courseOptions == Options(dfAll, CourseColumn)
        && typeOptions == Options(dfAll, TypeColumn)
        && runOptions == Options(dfAll, RunColumn)
      ensures !IsEmpty(dfAll) && raised ==>
        sliderMax == old(sliderMax) && selectedDays == old(selectedDays)
      ensures !IsEmpty(dfAll) && !raised ==>
        && sliderMax == SliderMax(dfAll)
        && selectedDays == Clamp(old(selectedDays), sliderMax)
      ensures !raised ==> Valid()
      ensures raised && old(Valid()) ==> Valid()
      ensures !IsEmpty(dfAll) && !raised && 0 <= old(selectedDays) <= sliderMax ==>
        selectedDays == old(selectedDays)
    {
      if IsEmpty(dfAll) {
        courseOptions, typeOptions, runOptions := [All], [All], [All];
        sliderMax := DefaultDaysMax;
        selectedDays := DefaultDaysMax;
        return false;
      }
      courseOptions := Options(dfAll, CourseColumn);
      typeOptions := Options(dfAll, TypeColumn);
      runOptions := Options(dfAll, RunColumn);
      if DaysColumn !in dfAll.columns {
        return true;
      }
      var newMax := SliderMax(dfAll);
      sliderMax := newMax;
      selectedDays := Clamp(selectedDays, newMax);
      return false;
    }

    /** `apply_filters`: the masks in the source's order, each only when its
        selection is active. */
    method ApplyFilters()
      modifies this
      ensures filtered == Filtered(dfAll, Current())
      ensures dfAll == old(dfAll) && Current() == old(Current())
      ensures courseOptions == old(courseOptions) && typeOptions == old(typeOptions)
      ensures runOptions == old(runOptions) && sliderMax == old(sliderMax)
    {
      if IsEmpty(dfAll) {
        filtered := EmptyTable;
        return;
      }
      filtered := Mask(dfAll, Current());
    }
  }
}
