/** The benchmark dataset adapter (`data_loader.py`): the header-based
    detection of the CIC-IDS-2017 and NSL-KDD layouts and the column
    normalisation of each, on a table of header names and rows. Reading the
    CSV file is not modelled: the table as read, or the failure to read it,
    is the input. */
module DataLoader {
  import opened Wrappers
  import opened Text

  /** One cell: text as read, or the number the KDD path writes. */
  datatype Cell = Raw(text: string) | Number(n: int)

  /** A table: its header names and its rows. */
  datatype Frame = Frame(columns: seq<string>, rows: seq<seq<Cell>>)

  /** Every row has one cell per column. */
  predicate WellFormed(f: Frame) {
    forall k :: 0 <= k < |f.rows| ==> |f.rows[k]| == |f.columns|
  }

  const EmptyFrame: Frame := Frame([], [])

  /** The layouts the loader recognises. */
  datatype Schema = CicIds | NslKdd | Internal

  /** The heuristic on the raw headers: CIC-IDS-2017 first (its headers
      carry a leading blank), then NSL-KDD, else the internal layout. */
  function Detect(columns: seq<string>): (r: Schema)
    ensures r == CicIds <==> " Destination Port" in columns || " Flow Duration" in columns
    ensures r == NslKdd <==> !(" Destination Port" in columns || " Flow Duration" in columns) && "dst_bytes" in columns
    ensures r == Internal <==>
              !(" Destination Port" in columns || " Flow Duration" in columns) && "dst_bytes" !in columns
  {
    if " Destination Port" in columns || " Flow Duration" in columns then CicIds
    else if "dst_bytes" in columns then NslKdd
    else Internal
  }

  // ---------------------------------------------------------------------
  // Column selection
  // ---------------------------------------------------------------------

  /** The positions of the columns called `name`, in order. */
  function ColumnsNamed(cols: seq<string>, name: string): (r: seq<nat>)
    ensures forall i :: 0 <= i < |r| ==> r[i] < |cols| && cols[r[i]] == name
    ensures forall p :: 0 <= p < |cols| && cols[p] == name ==> p in r
    ensures forall i, j :: 0 <= i < j < |r| ==> r[i] < r[j]
    decreases |cols|
  {
    if |cols| == 0 then []
    else
      var n := |cols| - 1;
      var prev := ColumnsNamed(cols[..n], name);
      assert forall p :: 0 <= p < n ==> cols[..n][p] == cols[p];
      if cols[n] == name then prev + [n] else prev
  }

  /** The positions `df[names]` selects: for each name in turn, every
      column with that name. */
  function Positions(cols: seq<string>, names: seq<string>): (r: seq<nat>)
    ensures forall i :: 0 <= i < |r| ==> r[i] < |cols| && cols[r[i]] in names
    decreases |names|
  {
    if |names| == 0 then [] else ColumnsNamed(cols, names[0]) + Positions(cols, names[1..])
  }

  /** The entries of `xs` at positions `ps`. */
  function Pick<T>(xs: seq<T>, ps: seq<nat>): (r: seq<T>)
    requires forall i :: 0 <= i < |ps| ==> ps[i] < |xs|
    ensures |r| == |ps| && forall i :: 0 <= i < |ps| ==> r[i] == xs[ps[i]]
  {
    seq(|ps|, i requires 0 <= i < |ps| => xs[ps[i]])
  }

  /** `df[names]`: the selected columns of every row, in selection order. */
  function Select(f: Frame, names: seq<string>): (r: Frame)
    requires WellFormed(f)
    ensures WellFormed(r) && |r.rows| == |f.rows|
    ensures forall c :: c in r.columns ==> c in names && c in f.columns
  {
    var ps := Positions(f.columns, names);
    Frame(Pick(f.columns, ps), seq(|f.rows|, k requires 0 <= k < |f.rows| => Pick(f.rows[k], ps)))
  }

  /** `[c for c in names if c in cols]`. */
  function Present(names: seq<string>, cols: seq<string>): (r: seq<string>)
    ensures forall c :: c in r <==> c in names && c in cols
    decreases |names|
  {
    if |names| == 0 then []
    else (if names[0] in cols then [names[0]] else []) + Present(names[1..], cols)
  }

  /** No two columns share a name. */
  predicate DistinctNames(cols: seq<string>) {
    forall i, j :: 0 <= i < j < |cols| ==> cols[i] != cols[j]
  }

  /** With distinct names a name selects its one column, or none. */
  lemma OneColumn(cols: seq<string>, name: string)
    requires DistinctNames(cols)
    ensures Pick(cols, ColumnsNamed(cols, name)) == if name in cols then [name] else []
  {
    var one := ColumnsNamed(cols, name);
    assert |one| <= 1;
    if name in cols {
      var p :| 0 <= p < |cols| && cols[p] == name;
      assert p in one;
    }
  }

  lemma PickConcat<T>(xs: seq<T>, a: seq<nat>, b: seq<nat>)
    requires forall i :: 0 <= i < |a| ==> a[i] < |xs|
    requires forall i :: 0 <= i < |b| ==> b[i] < |xs|
    ensures Pick(xs, a + b) == Pick(xs, a) + Pick(xs, b)
  {
  }

  /** With distinct names each present name selects exactly one column, so
      the selected headers are the present names in selection order. */
  lemma {:induction false} PickPositions(cols: seq<string>, names: seq<string>)
    requires DistinctNames(cols)
    ensures Pick(cols, Positions(cols, names)) == Present(names, cols)
    decreases |names|
  {
    if |names| > 0 {
      var one := ColumnsNamed(cols, names[0]);
      var rest := Positions(cols, names[1..]);
      assert Pick(cols, rest) == Present(names[1..], cols) by {
        PickPositions(cols, names[1..]);
      }
      assert Pick(cols, one) == (if names[0] in cols then [names[0]] else []) by {
        OneColumn(cols, names[0]);
      }
      assert Pick(cols, one + rest) == Pick(cols, one) + Pick(cols, rest) by {
        PickConcat(cols, one, rest);
      }
    }
  }

  // ---------------------------------------------------------------------
  // The two layouts
  // ---------------------------------------------------------------------

  /** The canonical columns the CIC-IDS path keeps, in this order. */
  const Relevant: seq<string> := ["Destination Port", "Flow Duration", "Total Fwd Packets",
                                  "Total Length of Fwd Packets", "Label"]

  /** `df.columns.str.strip()`. */
  function StripAll(cols: seq<string>): (r: seq<string>)
    ensures |r| == |cols| && forall i :: 0 <= i < |cols| ==> r[i] == Strip(cols[i])
  {
    seq(|cols|, i requires 0 <= i < |cols| => Strip(cols[i]))
  }

  /** `_process_cic_ids`: strip the headers, then keep only the relevant
      columns that are present, in the relevant-list order. */
  function ProcessCic(f: Frame): (r: Frame)
    requires WellFormed(f)
    ensures WellFormed(r) && |r.rows| == |f.rows|
    ensures forall c :: c in r.columns ==> c in Relevant && c in StripAll(f.columns)
  {
    var stripped := Frame(StripAll(f.columns), f.rows);
    Select(stripped, Present(Relevant, stripped.columns))
  }

  /** When stripping leaves no two headers alike, the result has exactly
      the present relevant columns, once each, in the relevant-list order. */
  lemma CicColumns(f: Frame)
    requires WellFormed(f) && DistinctNames(StripAll(f.columns))
    ensures ProcessCic(f).columns == Present(Relevant, StripAll(f.columns))
  {
    var stripped := Frame(StripAll(f.columns), f.rows);
    var names := Present(Relevant, stripped.columns);
    assert Select(stripped, names).columns == Present(names, stripped.columns) by {
      SelectDistinct(stripped, names);
    }
    assert Present(names, stripped.columns) == names by {
      PresentTwice(Relevant, stripped.columns);
    }
  }

  /** Keeping the present names twice keeps the same names. */
  lemma {:induction false} PresentTwice(names: seq<string>, cols: seq<string>)
    ensures Present(Present(names, cols), cols) == Present(names, cols)
    decreases |names|
  {
    if |names| > 0 {
      PresentTwice(names[1..], cols);
      var head := if names[0] in cols then [names[0]] else [];
      PresentConcat(head, Present(names[1..], cols), cols);
    }
  }

  lemma {:induction false} PresentConcat(a: seq<string>, b: seq<string>, cols: seq<string>)
    ensures Present(a + b, cols) == Present(a, cols) + Present(b, cols)
    decreases |a|
  {
    if |a| == 0 {
      assert a + b == b;
    } else {
      assert (a + b)[0] == a[0];
      assert (a + b)[1..] == a[1..] + b;
      PresentConcat(a[1..], b, cols);
    }
  }

  /** Selecting from distinct headers gives the present names, in order. */
  lemma SelectDistinct(f: Frame, names: seq<string>)
    requires WellFormed(f) && DistinctNames(f.columns)
    ensures Select(f, names).columns == Present(names, f.columns)
  {
    PickPositions(f.columns, names);
  }

  /** Every relevant column present after stripping survives, and each
      surviving column carries the cells of the column it came from. */
  lemma CicKeepsRelevantCells(f: Frame, k: nat, i: nat)
    requires WellFormed(f) && k < |f.rows|
    requires i < |ProcessCic(f).columns|
    ensures exists p :: 0 <= p < |f.columns| && Strip(f.columns[p]) == ProcessCic(f).columns[i]
                        && ProcessCic(f).rows[k][i] == f.rows[k][p]
  {
    var stripped := Frame(StripAll(f.columns), f.rows);
    var names := Present(Relevant, stripped.columns);
    assert ProcessCic(f) == Select(stripped, names);
    var p := SelectKeepsCells(stripped, names, k, i);
    assert Strip(f.columns[p]) == ProcessCic(f).columns[i] && ProcessCic(f).rows[k][i] == f.rows[k][p];
  }

  /** Column `i` of a selection is the column at some position `p` of the
      table, header and cells alike. */
  lemma SelectKeepsCells(f: Frame, names: seq<string>, k: nat, i: nat) returns (p: nat)
    requires WellFormed(f) && k < |f.rows| && i < |Select(f, names).columns|
    ensures p < |f.columns| && Select(f, names).columns[i] == f.columns[p]
    ensures Select(f, names).rows[k][i] == f.rows[k][p]
  {
    p := Positions(f.columns, names)[i];
  }

  /** The NSL-KDD renaming. */
  function KddName(c: string): string {
    if c == "dst_bytes" then "Total Length of Fwd Packets"
    else if c == "duration" then "Flow Duration"
    else if c == "count" then "Total Fwd Packets"
    else if c == "class" then "Label"
    else c
  }

  const PortColumn: string := "Destination Port"
  const SynthesisedPort: int := 80

  /** Only 'Destination Port' itself is renamed to 'Destination Port'. */
  lemma KddNameKeepsPort(c: string)
    ensures KddName(c) == PortColumn <==> c == PortColumn
  {
  }

  /** `df.rename(columns=...)` with the NSL-KDD renaming. */
  function RenameKdd(f: Frame): (r: Frame)
    requires WellFormed(f)
    ensures WellFormed(r) && r.rows == f.rows && |r.columns| == |f.columns|
    ensures forall j :: 0 <= j < |f.columns| ==> r.columns[j] == KddName(f.columns[j])
    ensures PortColumn in r.columns <==> PortColumn in f.columns
  {
    var cols := seq(|f.columns|, j requires 0 <= j < |f.columns| => KddName(f.columns[j]));
    assert PortColumn in cols <==> PortColumn in f.columns by {
      if PortColumn in f.columns {
        var j :| 0 <= j < |f.columns| && f.columns[j] == PortColumn;
        assert cols[j] == PortColumn;
      }
      if PortColumn in cols {
        var j :| 0 <= j < |cols| && cols[j] == PortColumn;
        KddNameKeepsPort(f.columns[j]);
      }
    }
    Frame(cols, f.rows)
  }

  /** `df[name] = v`: every column called `name` is overwritten with `v` in
      every row; without one, a column `name` holding `v` is appended. */
  function SetColumn(f: Frame, name: string, v: Cell): (r: Frame)
    requires WellFormed(f)
    ensures WellFormed(r) && |r.rows| == |f.rows|
    ensures |r.columns| == |f.columns| + (if name in f.columns then 0 else 1)
    ensures name in r.columns
    ensures forall k, j :: 0 <= k < |r.rows| && 0 <= j < |r.columns| && r.columns[j] == name ==> r.rows[k][j] == v
    ensures forall j :: 0 <= j < |f.columns| ==>
              r.columns[j] == f.columns[j]
              && (f.columns[j] != name ==> forall k :: 0 <= k < |f.rows| ==> r.rows[k][j] == f.rows[k][j])
  {
    if name in f.columns then
      var rows := seq(|f.rows|, k requires 0 <= k < |f.rows| =>
                        seq(|f.columns|, j requires 0 <= j < |f.columns| =>
                              if f.columns[j] == name then v else f.rows[k][j]));
      Frame(f.columns, rows)
    else
      var r := Frame(f.columns + [name], seq(|f.rows|, k requires 0 <= k < |f.rows| => f.rows[k] + [v]));
      assert r.columns[|f.columns|] == name;
      r
  }

  /** `_process_kdd`: rename the four mapped columns, then set
      'Destination Port' to 80 in every row — overwriting the column if the
      renamed table has one, appending it otherwise. */
  function ProcessKdd(f: Frame): (r: Frame)
    requires WellFormed(f)
    ensures WellFormed(r) && |r.rows| == |f.rows|
    ensures |r.columns| == |f.columns| + (if PortColumn in f.columns then 0 else 1)
    ensures PortColumn in r.columns
    ensures forall k, j :: 0 <= k < |r.rows| && 0 <= j < |r.columns| && r.columns[j] == PortColumn ==>
              r.rows[k][j] == Number(SynthesisedPort)
    ensures forall j :: 0 <= j < |f.columns| ==>
              r.columns[j] == KddName(f.columns[j])
              && (KddName(f.columns[j]) != PortColumn ==> forall k :: 0 <= k < |f.rows| ==> r.rows[k][j] == f.rows[k][j])
  {
    SetColumn(RenameKdd(f), PortColumn, Number(SynthesisedPort))
  }

  /** `load_and_normalize`: a table that cannot be read (None) gives the
      empty table; otherwise the detected layout's normalisation, or the
      table unchanged for the internal layout. */
  function LoadAndNormalize(read: Option<Frame>): (r: Frame)
    requires read.Some? ==> WellFormed(read.value)
    ensures read.None? ==> r == EmptyFrame
    ensures read.Some? ==> WellFormed(r) && |r.rows| == |read.value.rows|
    ensures read.Some? && Detect(read.value.columns) == CicIds ==> r == ProcessCic(read.value)
    ensures read.Some? && Detect(read.value.columns) == NslKdd ==> r == ProcessKdd(read.value)
    ensures read.Some? && Detect(read.value.columns) == Internal ==> r == read.value
  {
    match read
    case None => EmptyFrame
    case Some(f) =>
      match Detect(f.columns)
      case CicIds => ProcessCic(f)
      case NslKdd => ProcessKdd(f)
      case Internal => f
  }

  /** A CIC-IDS table with its usual padded headers comes out with its
      relevant columns under their canonical names, in canonical order. */
  lemma CicHeadersNormalised(f: Frame)
    requires WellFormed(f) && DistinctNames(StripAll(f.columns))
    requires forall c :: c in Relevant ==> c in StripAll(f.columns)
    ensures ProcessCic(f).columns == Relevant
  {
    CicColumns(f);
    PresentAll(Relevant, StripAll(f.columns));
  }

  lemma {:induction false} PresentAll(names: seq<string>, cols: seq<string>)
    requires forall c :: c in names ==> c in cols
    ensures Present(names, cols) == names
    decreases |names|
  {
    if |names| > 0 {
      PresentAll(names[1..], cols);
    }
  }
}
