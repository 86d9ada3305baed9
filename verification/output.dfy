/** The output writer's data: the fixed column projection of the joined rows,
    kept once with its geometry (the GeoJSON file) and once without it (the
    CSV file). Rows are maps from column names to cell values, as in a data
    frame. */
module Output {
  import opened Options
  import opened Seqs
  import opened Occurrences

  /** A cell of a data frame; `Missing` is a null (NaN) cell. */
  datatype Value = Int(i: int) | Real(r: real) | Text(s: string) | Missing | Geometry(p: Point)

  type Row = map<string, Value>

  /** A data frame: its column names in order, and its rows. */
  datatype Frame = Frame(columns: seq<string>, rows: seq<Row>)

  const GeometryColumn := "geometry"

  /** The fifteen columns written by the acquisition script, in order. */
  const OutputColumns: seq<string> := [
    "speciesID", "group", "family", "genus", "species", "scientificName", "commonName",
    "decimalLatitude", "decimalLongitude", "date", "status", "recordType", "freshMarineIntro",
    "waterbody", GeometryColumn
  ]

  function ColumnSet(columns: seq<string>): set<string> {
    set c | c in columns
  }

  /** Every row has exactly the frame's columns, and no column is named
      twice. */
  ghost predicate WellFormed(f: Frame) {
    && (forall i, k :: 0 <= i < k < |f.columns| ==> f.columns[i] != f.columns[k])
    && (forall r :: r in f.rows ==> r.Keys == ColumnSet(f.columns))
  }

  /** The value of one output column for a joined row. */
  function Cell(j: Joined, column: string): Value
    requires column in OutputColumns
  {
    var a := j.loc.rec.attrs;
    match column
    case "speciesID" => Int(a.speciesID)
    case "group" => Text(a.group)
    case "family" => Text(a.family)
    case "genus" => Text(a.genus)
    case "species" => Text(a.species)
    case "scientificName" => Text(a.scientificName)
    case "commonName" => Text(a.commonName)
    case "decimalLatitude" => Real(a.decimalLatitude)
    case "decimalLongitude" => Real(a.decimalLongitude)
    case "date" => Text(j.loc.rec.date)
    case "status" => Text(a.status)
    case "recordType" => Text(a.recordType)
    case "freshMarineIntro" => Text(a.freshMarineIntro)
    case "waterbody" => if j.waterbody.Some? then Text(j.waterbody.value) else Missing
    case _ => Geometry(j.loc.geometry)
  }

  /** One joined row restricted to the output columns. */
  function ProjectRow(j: Joined): (row: Row)
    ensures row.Keys == ColumnSet(OutputColumns)
  {
    map c | c in OutputColumns :: Cell(j, c)
  }

  /** How a consumer of the files reads a row's date. */
  function DateOf(row: Row): Option<string> {
    if "date" in row && row["date"].Text? then Some(row["date"].s) else None
  }

  /** How a consumer of the files reads a row's waterbody; a null cell reads
      as no waterbody. */
  function WaterbodyOf(row: Row): Option<string> {
    if "waterbody" in row && row["waterbody"].Text? then Some(row["waterbody"].s) else None
  }

  /** The projection loses neither the date nor the waterbody label: reading
      them back from the row gives the record's own. */
  lemma ProjectRowReadBack(j: Joined)
    ensures DateOf(ProjectRow(j)) == Some(j.loc.rec.date)
    ensures WaterbodyOf(ProjectRow(j)) == j.waterbody
    ensures ProjectRow(j)[GeometryColumn] == Geometry(j.loc.geometry)
  {
    assert OutputColumns[9] == "date";
    assert OutputColumns[13] == "waterbody";
    assert OutputColumns[14] == GeometryColumn;
    assert Cell(j, "date") == Text(j.loc.rec.date);
    assert Cell(j, "waterbody") == if j.waterbody.Some? then Text(j.waterbody.value) else Missing;
    assert Cell(j, GeometryColumn) == Geometry(j.loc.geometry);
  }

  /** The frame written with its geometry. */
  function GeoFrame(js: seq<Joined>): (f: Frame)
    ensures f.columns == OutputColumns && |f.rows| == |js|
  {
    Frame(OutputColumns, Map(js, ProjectRow))
  }

  function WithoutColumn(row: Row, c: string): Row {
    row - {c}
  }

  /** `drop(columns=[c])`: the column leaves the column list and every row;
      the rows stay the same in number and order. */
  function DropColumn(f: Frame, c: string): (g: Frame)
    requires c in f.columns
    ensures |g.rows| == |f.rows|
  {
    Frame(Filter(f.columns, x => x != c), Map(f.rows, r => WithoutColumn(r, c)))
  }

  /** Dropping a column keeps a frame well formed, removes exactly that
      column, keeps the other columns in their order, and leaves every other
      cell of every row unchanged. */
  lemma DropColumnFacts(f: Frame, c: string)
    requires c in f.columns && WellFormed(f)
    ensures WellFormed(DropColumn(f, c))
    ensures ColumnSet(DropColumn(f, c).columns) == ColumnSet(f.columns) - {c}
    ensures IsSubseq(DropColumn(f, c).columns, f.columns)
    ensures forall i, k :: 0 <= i < |f.rows| && k in DropColumn(f, c).rows[i] ==>
              DropColumn(f, c).rows[i][k] == f.rows[i][k]
  {
    var g := DropColumn(f, c);
    FilterFacts(f.columns, x => x != c);
    assert ColumnSet(g.columns) == ColumnSet(f.columns) - {c};
    forall i, k | 0 <= i < k < |g.columns|
      ensures g.columns[i] != g.columns[k]
    {
      DistinctSubseq(g.columns, f.columns, i, k);
    }
  }

  /** A subsequence of a sequence without repetitions has none either. */
  lemma {:induction false} DistinctSubseq(a: seq<string>, b: seq<string>, i: int, k: int)
    requires IsSubseq(a, b)
    requires forall p, q :: 0 <= p < q < |b| ==> b[p] != b[q]
    requires 0 <= i < k < |a|
    ensures a[i] != a[k]
    decreases |b|
  {
    if a[0] == b[0] && IsSubseq(a[1..], b[1..]) {
      if i == 0 {
        assert a[k] == a[1..][k - 1];
        SubseqMember(a[1..], b[1..], k - 1);
      } else {
        DistinctSubseq(a[1..], b[1..], i - 1, k - 1);
      }
    } else {
      DistinctSubseq(a, b[1..], i, k);
    }
  }

  /** Every element of a subsequence is an element of the sequence. */
  lemma {:induction false} SubseqMember<T>(a: seq<T>, b: seq<T>, i: int)
    requires IsSubseq(a, b) && 0 <= i < |a|
    ensures a[i] in b
    decreases |b|
  {
    if a[0] == b[0] && IsSubseq(a[1..], b[1..]) {
      if i > 0 {
        SubseqMember(a[1..], b[1..], i - 1);
      }
    } else {
      SubseqMember(a, b[1..], i);
    }
  }

  /** The two views written by the script. */
  datatype Outputs = Outputs(geo: Frame, flat: Frame)

  /** The geometry frame, and the flat frame derived from it by dropping the
      geometry column. */
  function WriteOutputs(js: seq<Joined>): Outputs {
    var geo := GeoFrame(js);
    Outputs(geo, DropColumn(geo, GeometryColumn))
  }

  lemma OutputColumnsDistinct()
    ensures forall i, k :: 0 <= i < k < |OutputColumns| ==> OutputColumns[i] != OutputColumns[k]
  {
  }

  /** Both files hold the same rows in the same order: the flat frame is the
      geometry frame with the geometry column taken out of the column list and
      out of every row, and nothing else changed. */
  lemma OutputViewsAgree(js: seq<Joined>)
    ensures var o := WriteOutputs(js);
            && WellFormed(o.geo) && WellFormed(o.flat)
            && |o.geo.rows| == |o.flat.rows| == |js|
            && o.geo.columns == OutputColumns
            && o.flat.columns == OutputColumns[..14]
            && (forall i :: 0 <= i < |js| ==> o.flat.rows[i] == o.geo.rows[i] - {GeometryColumn})
            && (forall i :: 0 <= i < |js| ==> o.geo.rows[i] == ProjectRow(js[i]))
  {
    var o := WriteOutputs(js);
    OutputColumnsDistinct();
    assert WellFormed(o.geo);
    DropColumnFacts(o.geo, GeometryColumn);
    assert OutputColumns == OutputColumns[..14] + [GeometryColumn];
    FilterAppend(OutputColumns[..14], [GeometryColumn], x => x != GeometryColumn);
    FilterSingle(GeometryColumn, x => x != GeometryColumn);
    FilterKeepsAll(OutputColumns[..14], x => x != GeometryColumn);
  }
}
