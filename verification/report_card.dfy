/** The report card: rows of the flat output file get a year from their date,
    observations are counted per (year, waterbody) cell, divided by the
    waterbody's acreage, and every cell is banded R, Y or G against the
    thresholds mean - std and mean + std. Floating point is idealised:
    quotients are exact reals, with an explicit NaN and +infinity. */
module ReportCard {
  import opened Options
  import opened Seqs
  import opened Output

  /** Waterbody acreages used to normalise the counts. */
  const WaterbodyAreaAc: map<string, int> :=
    map["OTB" := 85541, "MTB" := 96122, "HB" := 50774, "LTB" := 163250]

  /** Mean and standard deviation of observations per acre per year. */
  const MeanRate: real := 0.000063
  const StdDev: real := 0.000033

  /** A row of the flat file together with the year read from its date. */
  datatype YearRow = YearRow(row: Row, year: int)

  /** The year of a row's date, as the date parser gives it (`None` for a
      null date or one the parser rejects). */
  function YearOfRow(row: Row, yearOf: string -> Option<int>): Option<int> {
    match DateOf(row)
    case Some(d) => yearOf(d)
    case None => None
  }

  predicate HasDate(row: Row, yearOf: string -> Option<int>) {
    YearOfRow(row, yearOf).Some?
  }

  function PreprocessOne(row: Row, yearOf: string -> Option<int>): seq<YearRow> {
    match YearOfRow(row, yearOf)
    case Some(y) => [YearRow(row, y)]
    case None => []
  }

  /** Reads the year of every row and drops the rows whose date gives
      none. */
  function Preprocess(rows: seq<Row>, yearOf: string -> Option<int>): (r: seq<YearRow>)
    requires forall r :: r in rows ==> "date" in r
    ensures forall yr :: yr in r ==> yr.row in rows && YearOfRow(yr.row, yearOf) == Some(yr.year)
    ensures forall row :: row in rows && HasDate(row, yearOf) ==> YearRow(row, YearOfRow(row, yearOf).value) in r
  {
    var f := (row: Row) => PreprocessOne(row, yearOf);
    FlatMapMembers(rows, f);
    FlatMap(rows, f)
  }

  function RowOf(r: YearRow): Row {
    r.row
  }

  /** Preprocessing keeps exactly the rows with a readable date, in order,
      without changing them, and each kept row carries its date's year:
      unreadable dates are dropped, never repaired. */
  lemma {:induction false} PreprocessKeepsDated(rows: seq<Row>, yearOf: string -> Option<int>)
    requires forall r :: r in rows ==> "date" in r
    ensures Map(Preprocess(rows, yearOf), RowOf) == Filter(rows, r => HasDate(r, yearOf))
    ensures forall yr :: yr in Preprocess(rows, yearOf) ==> YearOfRow(yr.row, yearOf) == Some(yr.year)
    decreases |rows|
  {
    var out := Preprocess(rows, yearOf);
    FlatMapMembers(rows, r => PreprocessOne(r, yearOf));
    if rows != [] {
      var x, rest := rows[0], rows[1..];
      assert forall r :: r in rest ==> r in rows;
      PreprocessKeepsDated(rest, yearOf);
      assert out == PreprocessOne(x, yearOf) + Preprocess(rest, yearOf);
      MapAppend(PreprocessOne(x, yearOf), Preprocess(rest, yearOf), RowOf);
    }
  }

  /** A table indexed by year and waterbody name. */
  datatype Table<V> = Table(years: set<int>, waterbodies: set<string>, cells: map<(int, string), V>)

  /** Every (year, waterbody) pair of the two axes. */
  function Grid(years: set<int>, waterbodies: set<string>): set<(int, string)> {
    set y, w | y in years && w in waterbodies :: (y, w)
  }

  /** A row counts towards a cell when its year and its waterbody match;
      rows without a waterbody count towards none. */
  predicate InCell(r: YearRow, y: int, w: string) {
    r.year == y && WaterbodyOf(r.row) == Some(w)
  }

  /** The number of rows in a cell. */
  function CellCount(rows: seq<YearRow>, y: int, w: string): nat {
    |Filter(rows, r => InCell(r, y, w))|
  }

  predicate Labelled(r: YearRow) {
    WaterbodyOf(r.row).Some?
  }

  /** The count table: one row per year and one column per waterbody that
      occur together in some row, each cell the number of rows for it, zero
      when the pair never occurs. */
  function CountTable(rows: seq<YearRow>): (t: Table<nat>)
    requires forall r :: r in rows ==> "waterbody" in r.row
    ensures t.cells.Keys == Grid(t.years, t.waterbodies)
    ensures forall y :: y in t.years <==> exists r :: r in rows && Labelled(r) && r.year == y
    ensures forall w :: w in t.waterbodies <==> exists r :: r in rows && WaterbodyOf(r.row) == Some(w)
    ensures forall y, w :: (y, w) in t.cells ==> t.cells[(y, w)] == CellCount(rows, y, w)
  {
    var years := set r | r in rows && Labelled(r) :: r.year;
    var waterbodies := set r | r in rows && Labelled(r) :: WaterbodyOf(r.row).value;
    Table(years, waterbodies, map k | k in Grid(years, waterbodies) :: CellCount(rows, k.0, k.1))
  }

  /** A cell counts something exactly when its year and waterbody occur
      together in a row; the combinations that never occur are 0. */
  lemma CellPositiveIffOccurs(rows: seq<YearRow>, y: int, w: string)
    ensures CellCount(rows, y, w) > 0 <==> exists r :: r in rows && InCell(r, y, w)
  {
    var p := (r: YearRow) => InCell(r, y, w);
    FilterFacts(rows, p);
    var f := Filter(rows, p);
    if f != [] {
      assert f[0] in f;
    }
  }

  /** Counting is additive over a split of the rows. */
  lemma CellCountAppend(a: seq<YearRow>, b: seq<YearRow>, y: int, w: string)
    ensures CellCount(a + b, y, w) == CellCount(a, y, w) + CellCount(b, y, w)
  {
    FilterAppend(a, b, r => InCell(r, y, w));
  }

  /** A float quotient: finite, positive infinity or NaN. */
  datatype Float = Finite(v: real) | PosInf | NaN

  /** `count / acres` in floating point, idealised: exact when the divisor is
      non-zero, +infinity for a positive count over zero, NaN for 0 / 0. */
  function Divide(count: nat, acres: int): (q: Float)
    ensures acres != 0 ==> q.Finite? && q.v * acres as real == count as real
    ensures acres == 0 ==> (q == NaN <==> count == 0) && (q == PosInf <==> count > 0)
  {
    if acres != 0 then Finite(count as real / acres as real)
    else if count == 0 then NaN
    else PosInf
  }

  /** Observations per acre: the counts divided column by column by the
      acreage of their waterbody. The columns are those of the counts and
      of the acreage table together; a cell whose waterbody lacks either a
      count column or an acreage is NaN. */
  function ObsPerAcre(counts: Table<nat>, acres: map<string, int>): (t: Table<Float>)
    requires counts.cells.Keys == Grid(counts.years, counts.waterbodies)
    ensures t.years == counts.years
    ensures t.waterbodies == counts.waterbodies + acres.Keys
    ensures t.cells.Keys == Grid(t.years, t.waterbodies)
  {
    var waterbodies := counts.waterbodies + acres.Keys;
    Table(counts.years, waterbodies,
          map k | k in Grid(counts.years, waterbodies) ::
            if k.1 in counts.waterbodies && k.1 in acres then Divide(counts.cells[k], acres[k.1])
            else NaN)
  }

  /** With positive acreages, a cell is NaN exactly when its waterbody has no
      count column or no acreage, and otherwise holds the count per acre. */
  lemma ObsPerAcreCells(counts: Table<nat>, acres: map<string, int>, y: int, w: string)
    requires counts.cells.Keys == Grid(counts.years, counts.waterbodies)
    requires forall v :: v in acres ==> acres[v] > 0
    requires y in counts.years && (w in counts.waterbodies || w in acres)
    ensures var t := ObsPerAcre(counts, acres);
            && (y, w) in t.cells
            && (t.cells[(y, w)] == NaN <==> w !in counts.waterbodies || w !in acres)
            && (w in counts.waterbodies && w in acres ==>
                  t.cells[(y, w)] == Finite(counts.cells[(y, w)] as real / acres[w] as real))
  {
  }

  /** The three bands, from least to most severe. */
  datatype Band = G | Y | R

  function Severity(b: Band): nat {
    match b
    case G => 0
    case Y => 1
    case R => 2
  }

  /** The letter written in the report card's cell. */
  function Letter(b: Band): (s: string)
    ensures s in {"R", "Y", "G"}
  {
    match b
    case R => "R"
    case Y => "Y"
    case G => "G"
  }

  /** `v > t` in floating point: false for NaN, true for +infinity. */
  predicate Above(v: Float, t: real) {
    match v
    case Finite(x) => x > t
    case PosInf => true
    case NaN => false
  }

  /** `v < t` in floating point: false for NaN and for +infinity. */
  predicate Below(v: Float, t: real) {
    match v
    case Finite(x) => x < t
    case PosInf => false
    case NaN => false
  }

  /** The banding of one value: red above the high threshold, otherwise
      green below the low one, otherwise yellow. */
  function Categorize(v: Float, mean: real, std: real): Band {
    if Above(v, mean + std) then R
    else if Below(v, mean - std) then G
    else Y
  }

  /** With a non-negative spread the other two bands are intervals too:
      green strictly below mean - std, yellow in between with both
      thresholds included. */
  lemma BandIntervals(x: real, mean: real, std: real)
    requires std >= 0.0
    ensures Categorize(Finite(x), mean, std) == G <==> x < mean - std
    ensures Categorize(Finite(x), mean, std) == Y <==> mean - std <= x <= mean + std
  {
  }

  /** Red is tested first, so a value is red exactly when it lies strictly
      above mean + std, whatever the sign of the spread. */
  lemma RedIffAboveHigh(x: real, mean: real, std: real)
    ensures Categorize(Finite(x), mean, std) == R <==> x > mean + std
  {
  }

  /** A value exactly at either threshold is yellow. */
  lemma BandAtThresholds(mean: real, std: real)
    requires std >= 0.0
    ensures Categorize(Finite(mean + std), mean, std) == Y
    ensures Categorize(Finite(mean - std), mean, std) == Y
  {
  }

  /** A larger value never gets a less severe band, and +infinity is red. */
  lemma BandMonotone(x1: real, x2: real, mean: real, std: real)
    requires std >= 0.0 && x1 <= x2
    ensures Severity(Categorize(Finite(x1), mean, std)) <= Severity(Categorize(Finite(x2), mean, std))
    ensures Categorize(PosInf, mean, std) == R
  {
  }

  /** Every comparison with NaN is false, so a NaN cell is yellow. */
  lemma NaNIsYellow(mean: real, std: real)
    ensures Categorize(NaN, mean, std) == Y
  {
  }

  /** The non-negative spread matters: with a negative one the mean itself
      is strictly below mean - std and still banded red, not green. */
  lemma NegativeSpreadInverts(mean: real, std: real)
    requires std < 0.0
    ensures mean < mean - std && Categorize(Finite(mean), mean, std) == R
  {
  }

  /** Writes the letter of every cell's band; the table keeps its years,
      waterbodies and cells. */
  function AssignRyg(t: Table<Float>, mean: real, std: real): (r: Table<string>)
    ensures r.years == t.years && r.waterbodies == t.waterbodies
    ensures r.cells.Keys == t.cells.Keys
    ensures forall k :: k in t.cells ==> r.cells[k] == Letter(Categorize(t.cells[k], mean, std))
  {
    Table(t.years, t.waterbodies, map k | k in t.cells :: Letter(Categorize(t.cells[k], mean, std)))
  }

  /** The report card of the rows of the flat file: one row per year that
      some dated, labelled row has; one column per waterbody that labels a
      dated row or has an acreage; a letter in every cell. */
  function ReportCardTable(rows: seq<Row>, yearOf: string -> Option<int>, acres: map<string, int>,
                           mean: real, std: real): (t: Table<string>)
    requires forall r :: r in rows ==> "date" in r && "waterbody" in r
    ensures t.cells.Keys == Grid(t.years, t.waterbodies)
    ensures forall y :: y in t.years <==>
              exists r :: r in rows && WaterbodyOf(r).Some? && YearOfRow(r, yearOf) == Some(y)
    ensures forall w :: w in t.waterbodies <==>
              w in acres || exists r :: r in rows && HasDate(r, yearOf) && WaterbodyOf(r) == Some(w)
    ensures forall k :: k in t.cells ==> t.cells[k] in {"R", "Y", "G"}
  {
    var dated := Preprocess(rows, yearOf);
    AssignRyg(ObsPerAcre(CountTable(dated), acres), mean, std)
  }

  /** A waterbody of the acreage table that no row is labelled with gets a
      whole column of NaN, hence of yellow, in every year, whereas a year
      with no observations of a waterbody seen in other years is 0 per acre
      and green under the script's constants. */
  lemma UnobservedWaterbodyIsYellow(rows: seq<YearRow>, y: int, w: string)
    requires forall r :: r in rows ==> "waterbody" in r.row
    requires w in WaterbodyAreaAc
    requires forall r :: r in rows ==> WaterbodyOf(r.row) != Some(w)
    requires y in CountTable(rows).years
    ensures var t := AssignRyg(ObsPerAcre(CountTable(rows), WaterbodyAreaAc), MeanRate, StdDev);
            (y, w) in t.cells && t.cells[(y, w)] == "Y"
  {
  }

  /** A zero count of an observed waterbody with a positive acreage is
      green under the script's constants. */
  lemma ZeroCountIsGreen(counts: Table<nat>, y: int, w: string)
    requires counts.cells.Keys == Grid(counts.years, counts.waterbodies)
    requires y in counts.years && w in counts.waterbodies && w in WaterbodyAreaAc
    requires counts.cells[(y, w)] == 0
    ensures var t := AssignRyg(ObsPerAcre(counts, WaterbodyAreaAc), MeanRate, StdDev);
            (y, w) in t.cells && t.cells[(y, w)] == "G"
  {
  }
}
