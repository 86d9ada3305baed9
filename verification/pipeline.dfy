/** The acquisition script end to end: fetch, date cleaning, group
    relabelling, point geometry, clipping, the year filter, the waterbody join
    and the two output views. The network, the reference layers and the
    geometry tests are parameters of a run. */
module Pipeline {
  import opened Options
  import opened Seqs
  import opened Decimal
  import opened Occurrences
  import opened Fetch
  import opened Normalize
  import opened Spatial
  import opened Output

  /** No fetched record has a year. With nothing fetched the frame has no
      `year` column and the date cleaning raises on the lookup; with records
      but none dated, the row-wise date construction on the emptied frame
      yields a frame, not a column, and the assignment raises. */
  datatype PipelineError = NoDatedRecords

  /** The spatial stages applied to normalized records, in the script's
      order: points, clip, year filter, waterbody join. */
  function Resolve(rs: seq<Record>, inAoi: Point -> bool, wbs: seq<Waterbody>,
                   intersects: (Point, Shape) -> bool): seq<Joined>
  {
    SpatialJoin(FilterByYear(ClipToAoi(Locate(rs), inAoi), MinYear), wbs, intersects)
  }

  /** The normalizer: date cleaning, then group relabelling with the fixed
      table. */
  function NormalizeAll(data: seq<RawRecord>): seq<Record> {
    RenameGroups(CleanDates(data), GroupNameChanges)
  }

  /** Conversion of the fetched records into the two output views; it fails
      exactly when no fetched record has a year. */
  function JsonToOutputs(data: seq<RawRecord>, inAoi: Point -> bool, wbs: seq<Waterbody>,
                         intersects: (Point, Shape) -> bool): (r: Result<Outputs, PipelineError>)
    ensures r.Failure? <==> forall raw :: raw in data ==> !HasYear(raw)
  {
    CleanDatesEmptyIff(data);
    if CleanDates(data) == [] then Failure(NoDatedRecords)
    else Success(WriteOutputs(Resolve(NormalizeAll(data), inAoi, wbs, intersects)))
  }

  /** A whole run: fetch every basin of the list, then convert. It fails
      exactly when no basin contributed a record with a year, e.g. when every
      request failed. */
  function Run(basins: seq<string>, respond: string -> Response, inAoi: Point -> bool,
               wbs: seq<Waterbody>, intersects: (Point, Shape) -> bool): (r: Result<Outputs, PipelineError>)
    ensures r.Failure? <==> forall b, raw :: b in basins && raw in Contribution(respond(b)) ==> !HasYear(raw)
  {
    JsonToOutputs(FetchAll(basins, respond), inAoi, wbs, intersects)
  }

  /** Every joined row carries a fetched record that had a year, with its
      date normalized and its group relabelled; the row lies in the area of
      interest, is dated 2000 or later, and its group is no longer a key of
      the relabelling table. */
  lemma ResolvedRowQualifies(data: seq<RawRecord>, inAoi: Point -> bool, wbs: seq<Waterbody>,
                             intersects: (Point, Shape) -> bool, j: Joined)
    requires j in Resolve(NormalizeAll(data), inAoi, wbs, intersects)
    ensures inAoi(j.loc.geometry)
    ensures j.loc.rec.year >= MinYear
    ensures j.loc.rec.attrs.group !in GroupNameChanges
    ensures exists raw :: raw in data && HasYear(raw)
                          && j.loc.rec == RelabelRecord(GroupNameChanges, NormalizeDate(raw))
  {
    var rs := NormalizeAll(data);
    var located := Locate(rs);
    var clipped := ClipToAoi(located, inAoi);
    var filtered := FilterByYear(clipped, MinYear);
    JoinRowSound(filtered, wbs, intersects, j);
    assert j.loc in clipped;
    var i :| 0 <= i < |located| && located[i] == j.loc;
    var cleaned := CleanDates(data);
    GroupTableHasNoChains();
    assert rs[i].attrs.group == Relabel(GroupNameChanges, cleaned[i].attrs.group);
    assert cleaned[i] in cleaned;
    var raw :| raw in data && HasYear(raw) && NormalizeDate(raw) == cleaned[i];
  }

  /** Conversely, every fetched record with a year of 2000 or later whose
      point lies in the area of interest reaches the join, normalized and
      relabelled. */
  lemma QualifyingRecordJoined(data: seq<RawRecord>, inAoi: Point -> bool, wbs: seq<Waterbody>,
                               intersects: (Point, Shape) -> bool, raw: RawRecord)
    requires raw in data && HasYear(raw) && raw.year.value >= MinYear
    requires inAoi(Point(raw.attrs.decimalLongitude, raw.attrs.decimalLatitude))
    ensures exists j :: j in Resolve(NormalizeAll(data), inAoi, wbs, intersects)
                        && j.loc.rec == RelabelRecord(GroupNameChanges, NormalizeDate(raw))
  {
    var cleaned := CleanDates(data);
    var i :| 0 <= i < |cleaned| && cleaned[i] == NormalizeDate(raw);
    var rec := RelabelRecord(GroupNameChanges, NormalizeDate(raw));
    var rs := NormalizeAll(data);
    assert rs[i] == rec;
    var located := Locate(rs);
    assert located[i] == LocateOne(rec);
    var filtered := FilterByYear(ClipToAoi(located, inAoi), MinYear);
    assert LocateOne(rec) in filtered;
    JoinKeepsRecord(filtered, wbs, intersects, LocateOne(rec));
  }

  /** The script's own run: the six basins of its list. */
  function RunScript(respond: string -> Response, inAoi: Point -> bool, wbs: seq<Waterbody>,
                     intersects: (Point, Shape) -> bool): (r: Result<Outputs, PipelineError>)
    ensures r.Failure? <==> forall b, raw :: b in Huc8List && raw in Contribution(respond(b)) ==> !HasYear(raw)
  {
    Run(Huc8List, respond, inAoi, wbs, intersects)
  }

  /** The normalizer on a dated and an undated record keeps only the dated one. */
  lemma ExampleNormalized(a1: Attributes, a2: Attributes)
    ensures var rs := NormalizeAll([RawRecord(a1, Some(2005), None, None), RawRecord(a2, None, None, None)]);
            && |rs| == 1 && rs[0].year == 2005 && rs[0].date == "2005-06-15"
            && rs[0].attrs.decimalLongitude == a1.decimalLongitude
            && rs[0].attrs.decimalLatitude == a1.decimalLatitude
  {
    var raw1, raw2 := RawRecord(a1, Some(2005), None, None), RawRecord(a2, None, None, None);
    var data := [raw1, raw2];
    assert data == [raw1] + [raw2];
    FlatMapAppend([raw1], [raw2], CleanOne);
    FlatMapSingle(raw1, CleanOne);
    FlatMapSingle(raw2, CleanOne);
    assert CleanDates(data) == [NormalizeDate(raw1)];
    DateString2005Example();
  }

  /** The spatial stages on one record inside the area, recent enough, and
      inside the only waterbody. */
  lemma ResolveSingle(r: Record, inAoi: Point -> bool, w: Waterbody, intersects: (Point, Shape) -> bool)
    requires inAoi(PointOf(r)) && r.year >= MinYear && intersects(PointOf(r), w.shape)
    ensures Resolve([r], inAoi, [w], intersects) == [Joined(LocateOne(r), Some(w.name))]
  {
    var l := LocateOne(r);
    assert Locate([r]) == [l];
    FilterSingle(l, (x: Located) => inAoi(x.geometry));
    FilterSingle(l, (x: Located) => x.rec.year >= MinYear);
    FilterSingle(w, (v: Waterbody) => intersects(l.geometry, v.shape));
    assert Hits(l, [w], intersects) == [w];
    assert JoinOne(l, [w], intersects) == [Joined(l, Some(w.name))];
    FlatMapSingle(l, l => JoinOne(l, [w], intersects));
  }

  /** The two views of a single joined row. */
  lemma OutputsSingle(j: Joined)
    ensures var o := WriteOutputs([j]);
            && |o.geo.rows| == 1 && |o.flat.rows| == 1
            && DateOf(o.geo.rows[0]) == Some(j.loc.rec.date) && WaterbodyOf(o.geo.rows[0]) == j.waterbody
            && DateOf(o.flat.rows[0]) == Some(j.loc.rec.date) && WaterbodyOf(o.flat.rows[0]) == j.waterbody
  {
    OutputViewsAgree([j]);
    ProjectRowReadBack(j);
    var o := WriteOutputs([j]);
    assert "date" != GeometryColumn && "waterbody" != GeometryColumn;
    assert o.flat.rows[0] == o.geo.rows[0] - {GeometryColumn};
  }

  /** An example: of two fetched records, one dated 2005 without
      month or day inside the area and inside the waterbody "OTB", the other
      without a year, exactly one row is written to each file, dated
      2005-06-15 and labelled OTB. */
  lemma EndToEndExample(a1: Attributes, a2: Attributes, inAoi: Point -> bool, otb: Shape,
                        intersects: (Point, Shape) -> bool)
    requires inAoi(Point(a1.decimalLongitude, a1.decimalLatitude))
    requires intersects(Point(a1.decimalLongitude, a1.decimalLatitude), otb)
    ensures var r := JsonToOutputs([RawRecord(a1, Some(2005), None, None), RawRecord(a2, None, None, None)],
                                   inAoi, [Waterbody("OTB", otb)], intersects);
            && r.Success?
            && |r.value.geo.rows| == 1 && |r.value.flat.rows| == 1
            && DateOf(r.value.geo.rows[0]) == Some("2005-06-15")
            && WaterbodyOf(r.value.geo.rows[0]) == Some("OTB")
            && DateOf(r.value.flat.rows[0]) == Some("2005-06-15")
            && WaterbodyOf(r.value.flat.rows[0]) == Some("OTB")
  {
    var data := [RawRecord(a1, Some(2005), None, None), RawRecord(a2, None, None, None)];
    ExampleNormalized(a1, a2);
    var rs := NormalizeAll(data);
    assert rs == [rs[0]];
    var w := Waterbody("OTB", otb);
    ResolveSingle(rs[0], inAoi, w, intersects);
    var j := Joined(LocateOne(rs[0]), Some("OTB"));
    OutputsSingle(j);
  }
}
