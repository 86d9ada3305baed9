/** The spatial resolver: point geometry from the coordinates, clipping to the
    area of interest, the minimum-year filter, and the left spatial join that
    attaches waterbody names. Geometry is abstract: the area of interest is a
    predicate on points and the join tests an `intersects` relation between a
    point and a waterbody's shape. */
module Spatial {
  import opened Options
  import opened Seqs
  import opened Occurrences

  /** The year from which observations are kept. */
  const MinYear := 2000

  function PointOf(r: Record): Point {
    Point(r.attrs.decimalLongitude, r.attrs.decimalLatitude)
  }

  function LocateOne(r: Record): Located {
    Located(r, PointOf(r))
  }

  /** Gives every record the point at (longitude, latitude). */
  function Locate(rs: seq<Record>): (ls: seq<Located>)
    ensures |ls| == |rs|
    ensures forall i :: 0 <= i < |rs| ==>
              && ls[i].rec == rs[i]
              && ls[i].geometry.x == rs[i].attrs.decimalLongitude
              && ls[i].geometry.y == rs[i].attrs.decimalLatitude
  {
    Map(rs, LocateOne)
  }

  /** Keeps the records whose point lies in the area of interest, in order;
      the others are dropped. */
  function ClipToAoi(ls: seq<Located>, inAoi: Point -> bool): (r: seq<Located>)
    ensures forall l :: l in r <==> l in ls && inAoi(l.geometry)
    ensures forall l :: multiset(r)[l] == if inAoi(l.geometry) then multiset(ls)[l] else 0
    ensures IsSubseq(r, ls)
  {
    FilterFacts(ls, (l: Located) => inAoi(l.geometry));
    Filter(ls, (l: Located) => inAoi(l.geometry))
  }

  /** Keeps exactly the records with a year at or above `minYear`, each as
      often as it occurred and in the original order. */
  function FilterByYear(ls: seq<Located>, minYear: int): (r: seq<Located>)
    ensures forall l :: l in r <==> l in ls && l.rec.year >= minYear
    ensures forall l :: multiset(r)[l] == if l.rec.year >= minYear then multiset(ls)[l] else 0
    ensures IsSubseq(r, ls)
  {
    FilterFacts(ls, (l: Located) => l.rec.year >= minYear);
    Filter(ls, (l: Located) => l.rec.year >= minYear)
  }

  /** The threshold is inclusive: the year itself is kept, the year before
      is not. */
  lemma FilterByYearBoundary(ls: seq<Located>, l: Located, minYear: int)
    requires l in ls
    ensures l.rec.year == minYear ==> l in FilterByYear(ls, minYear)
    ensures l.rec.year == minYear - 1 ==> l !in FilterByYear(ls, minYear)
  {
  }

  /** The waterbodies whose shape the point meets, in layer order. */
  function Hits(l: Located, wbs: seq<Waterbody>, intersects: (Point, Shape) -> bool)
    : seq<Waterbody>
  {
    Filter(wbs, (w: Waterbody) => intersects(l.geometry, w.shape))
  }

  function NameRow(l: Located, w: Waterbody): Joined {
    Joined(l, Some(w.name))
  }

  /** The rows of the left join for one record: one per waterbody it
      intersects, or a single unlabelled row when it meets none. Several
      matches are listed in layer order; the library lists them in the
      order of its spatial index, which the model does not follow. */
  function JoinOne(l: Located, wbs: seq<Waterbody>, intersects: (Point, Shape) -> bool)
    : (rows: seq<Joined>)
    ensures |rows| >= 1
    ensures forall i :: 0 <= i < |rows| ==> rows[i].loc == l
  {
    var hits := Hits(l, wbs, intersects);
    if hits == [] then [Joined(l, None)]
    else Map(hits, w => NameRow(l, w))
  }

  /** The left spatial join of every record, the rows of each record
      following those of the records before it. */
  function SpatialJoin(ls: seq<Located>, wbs: seq<Waterbody>, intersects: (Point, Shape) -> bool)
    : seq<Joined>
  {
    FlatMap(ls, l => JoinOne(l, wbs, intersects))
  }

  /** For one record: it is left unlabelled exactly when it meets no
      waterbody, and every label it gets names a waterbody it meets. */
  lemma JoinOneLabels(l: Located, wbs: seq<Waterbody>, intersects: (Point, Shape) -> bool)
    ensures (forall w :: w in wbs ==> !intersects(l.geometry, w.shape))
            <==> JoinOne(l, wbs, intersects) == [Joined(l, None)]
    ensures forall j :: j in JoinOne(l, wbs, intersects) && j.waterbody.Some? ==>
              exists w :: w in wbs && intersects(l.geometry, w.shape) && j.waterbody.value == w.name
    ensures forall w :: w in wbs && intersects(l.geometry, w.shape) ==>
              Joined(l, Some(w.name)) in JoinOne(l, wbs, intersects)
    ensures |JoinOne(l, wbs, intersects)|
            == if Hits(l, wbs, intersects) == [] then 1 else |Hits(l, wbs, intersects)|
  {
    var hits := Hits(l, wbs, intersects);
    FilterFacts(wbs, (w: Waterbody) => intersects(l.geometry, w.shape));
    if hits != [] {
      assert hits[0] in hits;
      assert JoinOne(l, wbs, intersects)[0].waterbody.Some?;
    }
    forall w | w in wbs && intersects(l.geometry, w.shape)
      ensures Joined(l, Some(w.name)) in JoinOne(l, wbs, intersects)
    {
      assert w in hits;
      var k :| 0 <= k < |hits| && hits[k] == w;
      assert JoinOne(l, wbs, intersects)[k] == Joined(l, Some(w.name));
    }
  }

  /** The left join never has fewer rows than records. */
  lemma JoinNoShorter(ls: seq<Located>, wbs: seq<Waterbody>, intersects: (Point, Shape) -> bool)
    ensures |SpatialJoin(ls, wbs, intersects)| >= |ls|
  {
    FlatMapLengthAtLeast(ls, l => JoinOne(l, wbs, intersects));
  }

  /** A record whose point meets two or more entries of the waterbody layer
      makes the join longer than the record list: one row per record holds
      only when no point meets two entries, the converse of
      `JoinOneToOne`. */
  lemma JoinGrowsOnDoubleHit(ls: seq<Located>, wbs: seq<Waterbody>, intersects: (Point, Shape) -> bool,
                             l: Located)
    requires l in ls && |Hits(l, wbs, intersects)| >= 2
    ensures |SpatialJoin(ls, wbs, intersects)| > |ls|
  {
    JoinOneLabels(l, wbs, intersects);
    FlatMapLengthAbove(ls, l => JoinOne(l, wbs, intersects), l);
  }

  /** The left join drops no record. */
  lemma JoinKeepsRecord(ls: seq<Located>, wbs: seq<Waterbody>, intersects: (Point, Shape) -> bool,
                        l: Located)
    requires l in ls
    ensures exists j :: j in SpatialJoin(ls, wbs, intersects) && j.loc == l
  {
    var one := JoinOne(l, wbs, intersects);
    FlatMapMembers(ls, l => JoinOne(l, wbs, intersects));
    assert one[0] in one;
    assert one[0] in SpatialJoin(ls, wbs, intersects);
  }

  /** Every row of the left join belongs to an input record; its label names
      a waterbody the point intersects, and an unlabelled row means the point
      intersects no waterbody at all. */
  lemma JoinRowSound(ls: seq<Located>, wbs: seq<Waterbody>, intersects: (Point, Shape) -> bool,
                     j: Joined)
    requires j in SpatialJoin(ls, wbs, intersects)
    ensures j.loc in ls
    ensures j.waterbody.Some? ==>
              exists w :: w in wbs && intersects(j.loc.geometry, w.shape) && j.waterbody.value == w.name
    ensures j.waterbody.None? ==> forall w :: w in wbs ==> !intersects(j.loc.geometry, w.shape)
  {
    FlatMapMembers(ls, l => JoinOne(l, wbs, intersects));
    var l :| l in ls && j in JoinOne(l, wbs, intersects);
    JoinOneLabels(l, wbs, intersects);
  }

  function LocOf(j: Joined): Located {
    j.loc
  }

  /** The records underlying the joined rows contain the input records as
      an ordered subsequence: the join drops nothing and keeps the order. */
  lemma {:induction false} JoinKeepsOrder(ls: seq<Located>, wbs: seq<Waterbody>,
                                                  intersects: (Point, Shape) -> bool)
    ensures IsSubseq(ls, Map(SpatialJoin(ls, wbs, intersects), LocOf))
    decreases |ls|
  {
    if ls != [] {
      var l, rest := ls[0], ls[1..];
      var one := JoinOne(l, wbs, intersects);
      var tail := Map(SpatialJoin(rest, wbs, intersects), LocOf);
      JoinKeepsOrder(rest, wbs, intersects);
      assert SpatialJoin(ls, wbs, intersects) == one + SpatialJoin(rest, wbs, intersects);
      MapAppend(one, SpatialJoin(rest, wbs, intersects), LocOf);
      var whole := Map(one, LocOf) + tail;
      SubseqPrefix(rest, Map(one, LocOf)[1..], tail);
      assert whole[0] == l;
      assert whole[1..] == Map(one, LocOf)[1..] + tail;
    }
  }

  lemma {:induction false} CopiesMultiset<T>(s: seq<T>, x: T, k: T)
    requires forall i :: 0 <= i < |s| ==> s[i] == x
    ensures multiset(s)[k] == if k == x then |s| else 0
    decreases |s|
  {
    if s != [] {
      CopiesMultiset(s[1..], x, k);
      assert s == [s[0]] + s[1..];
    }
  }

  /** Each input record appears among the joined rows once per occurrence in
      the input times the number of rows its own join yields. */
  lemma {:induction false} JoinMultiplicity(ls: seq<Located>, wbs: seq<Waterbody>,
                                            intersects: (Point, Shape) -> bool, l: Located)
    ensures multiset(Map(SpatialJoin(ls, wbs, intersects), LocOf))[l]
            == multiset(ls)[l] * |JoinOne(l, wbs, intersects)|
    decreases |ls|
  {
    if ls == [] {
      assert Map(SpatialJoin(ls, wbs, intersects), LocOf) == [];
    } else {
      JoinMultiplicity(ls[1..], wbs, intersects, l);
      JoinMultiplicityStep(ls[0], ls[1..], wbs, intersects, l);
      assert ls == [ls[0]] + ls[1..];
    }
  }

  /** The inductive step of `JoinMultiplicity`: one more record in front. */
  lemma JoinMultiplicityStep(x: Located, rest: seq<Located>, wbs: seq<Waterbody>,
                             intersects: (Point, Shape) -> bool, l: Located)
    requires multiset(Map(SpatialJoin(rest, wbs, intersects), LocOf))[l]
             == multiset(rest)[l] * |JoinOne(l, wbs, intersects)|
    ensures multiset(Map(SpatialJoin([x] + rest, wbs, intersects), LocOf))[l]
            == multiset([x] + rest)[l] * |JoinOne(l, wbs, intersects)|
  {
    var ls := [x] + rest;
    var k := |JoinOne(l, wbs, intersects)|;
    var one := JoinOne(x, wbs, intersects);
    var tail := SpatialJoin(rest, wbs, intersects);
    assert ls[1..] == rest;
    assert SpatialJoin(ls, wbs, intersects) == one + tail;
    MapAppend(one, tail, LocOf);
    CopiesMultiset(Map(one, LocOf), x, l);
    var m := multiset(rest)[l];
    var total := multiset(ls)[l];
    var joined := multiset(Map(SpatialJoin(ls, wbs, intersects), LocOf))[l];
    assert joined == (if x == l then k else 0) + m * k;
    if x == l {
      assert total == 1 + m;
      SuccTimes(m, k);
    } else {
      assert total == m;
    }
  }

  lemma SuccTimes(m: int, k: int)
    ensures (1 + m) * k == k + m * k
  {
  }

  /** A record that occurs once and intersects no waterbody appears exactly
      once in the join, unlabelled. */
  lemma JoinUnmatchedOnce(ls: seq<Located>, wbs: seq<Waterbody>,
                          intersects: (Point, Shape) -> bool, l: Located)
    requires multiset(ls)[l] == 1
    requires forall w :: w in wbs ==> !intersects(l.geometry, w.shape)
    ensures multiset(Map(SpatialJoin(ls, wbs, intersects), LocOf))[l] == 1
    ensures Joined(l, None) in SpatialJoin(ls, wbs, intersects)
  {
    JoinOneLabels(l, wbs, intersects);
    JoinMultiplicity(ls, wbs, intersects, l);
    FlatMapMembers(ls, l => JoinOne(l, wbs, intersects));
    assert l in ls;
    assert Joined(l, None) in JoinOne(l, wbs, intersects);
  }

  /** When no point meets more than one waterbody the join is one row per
      record, in the original order. */
  lemma {:induction false} JoinOneToOne(ls: seq<Located>, wbs: seq<Waterbody>,
                                               intersects: (Point, Shape) -> bool)
    requires forall l :: l in ls ==> |Hits(l, wbs, intersects)| <= 1
    ensures Map(SpatialJoin(ls, wbs, intersects), LocOf) == ls
    ensures |SpatialJoin(ls, wbs, intersects)| == |ls|
    decreases |ls|
  {
    if ls != [] {
      var l, rest := ls[0], ls[1..];
      var one := JoinOne(l, wbs, intersects);
      assert forall x :: x in rest ==> x in ls;
      JoinOneToOne(rest, wbs, intersects);
      assert SpatialJoin(ls, wbs, intersects) == one + SpatialJoin(rest, wbs, intersects);
      MapAppend(one, SpatialJoin(rest, wbs, intersects), LocOf);
      assert |one| == 1;
      assert Map(one, LocOf) == [l];
      assert ls == [l] + rest;
    }
  }

  /** The join is not one-to-one in general: a point inside two overlapping
      waterbodies yields two rows, one per name (listed in layer order, the
      model's choice). */
  lemma JoinCanDuplicate(l: Located, w1: Waterbody, w2: Waterbody,
                                intersects: (Point, Shape) -> bool)
    requires intersects(l.geometry, w1.shape) && intersects(l.geometry, w2.shape)
    ensures SpatialJoin([l], [w1, w2], intersects)
            == [Joined(l, Some(w1.name)), Joined(l, Some(w2.name))]
  {
    var wbs := [w1, w2];
    var p := (w: Waterbody) => intersects(l.geometry, w.shape);
    assert wbs == [w1] + [w2];
    FilterAppend([w1], [w2], p);
    FilterSingle(w1, p);
    FilterSingle(w2, p);
    assert Hits(l, wbs, intersects) == [w1, w2];
    FlatMapSingle(l, l => JoinOne(l, wbs, intersects));
  }
}
