/**
 * Two titles worked through the pipeline: a movie listed under two genres
 * a and b and lasting "<m> min", and a TV show listed under a alone and
 * lasting "<k> Seasons", released in two different years (read as integer
 * cells, as read_csv types a column of years); for instance
 * "Drama, Comedy", 90 min, 2020 and "Drama", 2 Seasons, 2021. The lemmas
 * hold for any such table, whatever its other columns.
 */
module Scenarios {
  import opened Text
  import opened Counting
  import opened Frames
  import opened Aggregates
  import opened Report

  // Counting facts about the sample's columns, stated for any values.

  /** A value listed twice beside another listed once comes first. */
  lemma TopOfRepeated<T(!new)>(a: T, b: T)
    requires a != b
    ensures Top([a, b, a], TopN) == [(a, 2), (b, 1)]
  {
    RepeatedCounts(a, b);
    TopOfTwoValues([a, b, a], a, b);
  }

  lemma RepeatedCounts<T>(a: T, b: T)
    requires a != b
    ensures Elems([a, b, a]) == {a, b} && Count([a, b, a], a) == 2 && Count([a, b, a], b) == 1
  {
    assert multiset([a, b, a]) == multiset{a, a, b};
  }

  /** With two distinct values, the more frequent one is listed first. */
  lemma TopOfTwoValues<T(!new)>(xs: seq<T>, a: T, b: T)
    requires a != b && Elems(xs) == {a, b} && Count(xs, a) > Count(xs, b)
    ensures Top(xs, TopN) == [(a, Count(xs, a)), (b, Count(xs, b))]
  {
    var top := Top(xs, TopN);
    assert |top| == 2;
    assert top[0].0 in Elems(xs) && top[1].0 in Elems(xs);
    assert top[0].0 != top[1].0 by { assert Keys(top)[0] == top[0].0 && Keys(top)[1] == top[1].0; }
  }

  /** Two different values are each counted once. */
  lemma CountsOfPair<T(!new)>(a: T, b: T)
    requires a != b
    ensures var vc := ValueCounts([a, b]);
      |vc| == 2 && (forall i :: 0 <= i < |vc| ==> vc[i].1 == 1) && a in Keys(vc) && b in Keys(vc)
  {
    var xs := [a, b];
    assert Elems(xs) == {a, b};
    assert multiset(xs) == multiset{a, b};
  }

  /** Two groups of one parsed row each average to that row's number. */
  lemma MeansOfPair(a: Value, b: Value, x: int, y: int)
    requires a != b && a != Missing && b != Missing
    ensures MeanByGroup([a, b], [Num(x), Num(y)]) == map[a := x as real, b := y as real]
  {
    var keys, nums := [a, b], [Num(x), Num(y)];
    assert keys[1..] == [b] && nums[1..] == [Num(y)];
    assert keys[1..][1..] == [] && nums[1..][1..] == [];
    var m := MeanByGroup(keys, nums);
    assert GroupSize([b], [Num(y)], a) == 0 && GroupSum([b], [Num(y)], a) == 0 by {
      assert GroupSize([], [], a) == 0 && GroupSum([], [], a) == 0;
    }
    assert GroupSize([b], [Num(y)], b) == 1 && GroupSum([b], [Num(y)], b) == y by {
      assert GroupSize([], [], b) == 0 && GroupSum([], [], b) == 0;
    }
    assert GroupSize(keys, nums, a) == 1 && GroupSum(keys, nums, a) == x;
    assert GroupSize(keys, nums, b) == 1 && GroupSum(keys, nums, b) == y;
    assert InGroup(keys, nums, a) by { assert keys[0] == a; }
    assert InGroup(keys, nums, b) by { assert keys[1] == b; }
    assert m.Keys == {a, b};
  }

  /** Two different years are each counted once, the earlier first. */
  lemma CountsOfTwoYears(y1: int, y2: int)
    requires y1 < y2
    ensures CountsByKey([y1, y2]) == [(y1, 1), (y2, 1)]
  {
    var ys := [y1, y2];
    var r := CountsByKey(ys);
    assert multiset(ys) == multiset{y1, y2};
    assert y1 in Keys(r) && y2 in Keys(r);
    assert |r| == 2 by {
      assert Elems(Keys(r)) == {y1, y2};
      NoDupCard(Keys(r));
    }
  }

  // Cells of the two titles.

  lemma SplitPair(a: string, b: string)
    requires NoSeparator(a) && NoSeparator(b)
    ensures Split(a + ", " + b) == [a, b]
  {
    assert Join([a, b]) == a + ", " + b;
    SplitJoin([a, b]);
  }

  lemma SplitSingle(a: string)
    requires NoSeparator(a)
    ensures Split(a) == [a]
  {
    SplitJoin([a]);
  }

  /** "a, b" and "a" give the genre pieces a, b, a. */
  lemma GenrePiecesOfTwo(a: string, b: string)
    requires NoSeparator(a) && NoSeparator(b)
    ensures GenrePieces([Str(a + ", " + b), Str(a)]) == [a, b, a]
  {
    var col := [Str(a + ", " + b), Str(a)];
    assert col[1..] == [Str(a)];
    assert col[1..][1..] == [];
    SplitPair(a, b);
    SplitSingle(a);
  }

  predicate UnitText(u: string) { |u| == 0 || !IsDigit(u[0]) }

  // The two-title table, described by its stripped columns.

  predicate HasColumn(t: Table, name: string, cells: seq<Value>)
    requires Rectangular(t)
  {
    name in Stripped(t).columns && Column(Stripped(t), name) == cells
  }

  /** A column other than the derived ones reaches the charts as read. */
  lemma PreparedCells(t: Table, name: string, cells: seq<Value>)
    requires Rectangular(t) && name != "duration_num" && name != "release_year"
    requires HasColumn(t, name, cells)
    ensures name in Prepared(t).columns && Column(Prepared(t), name) == cells
  {
    KeptColumn(t, name);
  }

  lemma DurationCells(t: Table, m: nat, u: string, k: nat, v: string)
    requires Rectangular(t) && UnitText(u) && UnitText(v)
    requires HasColumn(t, "duration", [Str(NatToDigits(m) + u), Str(NatToDigits(k) + v)])
    ensures "duration_num" in Prepared(t).columns && Column(Prepared(t), "duration_num") == [Num(m), Num(k)]
  {
    PreparedDurations(t);
    DurationOfNumeral(m, u);
    DurationOfNumeral(k, v);
    DurationsOfPair(Str(NatToDigits(m) + u), Str(NatToDigits(k) + v), m, k);
  }

  lemma DurationsOfPair(c1: Value, c2: Value, m: nat, k: nat)
    requires DurationNumber(c1) == Num(m) && DurationNumber(c2) == Num(k)
    ensures DurationColumn([c1, c2]) == [Num(m), Num(k)]
  {
  }

  lemma YearCells(t: Table, y1: int, y2: int)
    requires Rectangular(t)
    requires HasColumn(t, "release_year", [Num(y1), Num(y2)])
    ensures "release_year" in Prepared(t).columns && Column(Prepared(t), "release_year") == [Num(y1), Num(y2)]
  {
    PreparedYears(t);
    YearsOfPair(Num(y1), Num(y2), y1, y2);
  }

  lemma YearsOfPair(c1: Value, c2: Value, y1: int, y2: int)
    requires YearValue(c1) == Num(y1) && YearValue(c2) == Num(y2)
    ensures YearColumn([c1, c2]) == [Num(y1), Num(y2)]
  {
  }

  /** The listed_in column of the two titles yields top genres a (twice) and b (once). */
  lemma TwoTitlesGenres(t: Table, a: string, b: string)
    requires Rectangular(t) && NoSeparator(a) && NoSeparator(b) && a != b
    requires HasColumn(t, "listed_in", [Str(a + ", " + b), Str(a)])
    ensures TopGenres(Prepared(t)) == [(a, 2), (b, 1)]
  {
    PreparedCells(t, "listed_in", [Str(a + ", " + b), Str(a)]);
    GenrePiecesOfTwo(a, b);
    TopOfRepeated(a, b);
  }

  lemma TypeColumnOfTwo(t: Table, x: string, y: string)
    requires Rectangular(t)
    requires HasColumn(t, "type", [Str(x), Str(y)])
    ensures TypeCounts(Prepared(t)) == ValueCounts([Str(x), Str(y)])
  {
    PreparedCells(t, "type", [Str(x), Str(y)]);
    PresentPair(x, y);
  }

  lemma PresentPair(x: string, y: string)
    ensures DropMissing([Str(x), Str(y)]) == [Str(x), Str(y)]
  {
    DropMissingNone([Str(x), Str(y)]);
  }

  /** Two titles of different types are counted once each. */
  lemma TwoTitlesTypes(t: Table, x: string, y: string)
    requires Rectangular(t) && x != y
    requires HasColumn(t, "type", [Str(x), Str(y)])
    ensures var tc := TypeCounts(Prepared(t));
      |tc| == 2 && (forall i :: 0 <= i < |tc| ==> tc[i].1 == 1)
      && Str(x) in Keys(tc) && Str(y) in Keys(tc)
  {
    TypeColumnOfTwo(t, x, y);
    CountsOfPair(Str(x), Str(y));
  }

  /** "<m> min" for type x and "<k> Seasons" for type y average to m and k. */
  lemma TwoTitlesDurations(t: Table, x: string, y: string, m: nat, u: string, k: nat, v: string)
    requires Rectangular(t) && x != y && UnitText(u) && UnitText(v)
    requires HasColumn(t, "type", [Str(x), Str(y)])
    requires HasColumn(t, "duration", [Str(NatToDigits(m) + u), Str(NatToDigits(k) + v)])
    ensures AverageDuration(Prepared(t)) == map[Str(x) := m as real, Str(y) := k as real]
  {
    PreparedCells(t, "type", [Str(x), Str(y)]);
    DurationCells(t, m, u, k, v);
    MeansOfPair(Str(x), Str(y), m, k);
  }

  lemma YearColumnOfTwo(t: Table, y1: int, y2: int)
    requires Rectangular(t)
    requires HasColumn(t, "release_year", [Num(y1), Num(y2)])
    ensures TitlesPerYear(Prepared(t)) == CountsByKey([y1, y2])
  {
    YearCells(t, y1, y2);
    NumbersOfPair(y1, y2);
  }

  lemma NumbersOfPair(y1: int, y2: int)
    ensures Numbers([Num(y1), Num(y2)]) == [y1, y2]
  {
    var ys := [Num(y1), Num(y2)];
    assert ys[1..] == [Num(y2)];
    assert ys[1..][1..] == [];
    assert Numbers(ys[1..][1..]) == [];
  }

  /** Two release years are counted once each, in ascending order. */
  lemma TwoTitlesYears(t: Table, y1: int, y2: int)
    requires Rectangular(t) && y1 < y2
    requires HasColumn(t, "release_year", [Num(y1), Num(y2)])
    ensures TitlesPerYear(Prepared(t)) == [(y1, 1), (y2, 1)]
  {
    YearColumnOfTwo(t, y1, y2);
    CountsOfTwoYears(y1, y2);
  }

  // Which charts a prepared table gets, read off its first row.

  lemma GenresDrawn(p: Table)
    requires Rectangular(p) && |p.rows| > 0 && "listed_in" in p.columns && Column(p, "listed_in")[0] != Missing
    ensures GenresKey in PlotFiles(p)
  {
    InPlotFiles(p, 0);
    GenresChart(p);
  }

  lemma DirectorsNotDrawn(p: Table)
    requires Rectangular(p) && "director" !in p.columns
    ensures DirectorsKey !in PlotFiles(p)
  {
    InPlotFiles(p, 1);
    DirectorsChart(p);
  }

  lemma RatingsDrawn(p: Table)
    requires Rectangular(p) && |p.rows| > 0 && "rating" in p.columns && Column(p, "rating")[0] != Missing
    ensures RatingsKey in PlotFiles(p)
  {
    InPlotFiles(p, 2);
    RatingsChart(p);
  }

  lemma YearsDrawn(p: Table)
    requires Rectangular(p) && |p.rows| > 0 && "release_year" in p.columns && Column(p, "release_year")[0].Num?
    ensures YearsKey in PlotFiles(p)
  {
    InPlotFiles(p, 3);
    YearsChart(p);
  }

  lemma TypesDrawn(p: Table)
    requires Rectangular(p) && |p.rows| > 0 && "type" in p.columns && Column(p, "type")[0] != Missing
    ensures TypesKey in PlotFiles(p)
  {
    InPlotFiles(p, 4);
    TypesChart(p);
  }

  lemma AvgDurationDrawn(p: Table)
    requires Rectangular(p) && |p.rows| > 0 && "type" in p.columns && "duration_num" in p.columns
    requires Column(p, "type")[0] != Missing && Column(p, "duration_num")[0].Num?
    ensures AvgDurationKey in PlotFiles(p)
  {
    InPlotFiles(p, 5);
    AvgDurationChart(p);
  }

  /**
   * With those columns, a rating column and no director column, every chart
   * except top_directors is drawn.
   */
  lemma TwoTitlesCharts(t: Table, a: string, b: string, x: string, y: string,
                        r1: string, r2: string, y1: int, y2: int, m: nat, u: string, k: nat, v: string)
    requires Rectangular(t) && NoSeparator(a) && NoSeparator(b) && UnitText(u) && UnitText(v)
    requires HasColumn(t, "listed_in", [Str(a + ", " + b), Str(a)])
    requires HasColumn(t, "type", [Str(x), Str(y)])
    requires HasColumn(t, "rating", [Str(r1), Str(r2)])
    requires HasColumn(t, "release_year", [Num(y1), Num(y2)])
    requires HasColumn(t, "duration", [Str(NatToDigits(m) + u), Str(NatToDigits(k) + v)])
    requires "director" !in Stripped(t).columns
    ensures PlotFiles(Prepared(t)).Keys == {GenresKey, RatingsKey, YearsKey, TypesKey, AvgDurationKey}
  {
    var p := Prepared(t);
    TwoTitlesPrepared(t, a, b, x, y, r1, r2, y1, y2, m, u, k, v);
    PlotKeysFixed(p);
    GenresDrawn(p);
    DirectorsNotDrawn(p);
    RatingsDrawn(p);
    YearsDrawn(p);
    TypesDrawn(p);
    AvgDurationDrawn(p);
    FiveCharts(PlotFiles(p));
  }

  lemma FiveCharts(plots: map<string, string>)
    requires plots.Keys <= set k | k in ChartOrder
    requires DirectorsKey !in plots
    requires GenresKey in plots && RatingsKey in plots && YearsKey in plots && TypesKey in plots && AvgDurationKey in plots
    ensures plots.Keys == {GenresKey, RatingsKey, YearsKey, TypesKey, AvgDurationKey}
  {
  }

  lemma TwoTitlesPrepared(t: Table, a: string, b: string, x: string, y: string,
                          r1: string, r2: string, y1: int, y2: int, m: nat, u: string, k: nat, v: string)
    requires Rectangular(t) && UnitText(u) && UnitText(v)
    requires HasColumn(t, "listed_in", [Str(a + ", " + b), Str(a)])
    requires HasColumn(t, "type", [Str(x), Str(y)])
    requires HasColumn(t, "rating", [Str(r1), Str(r2)])
    requires HasColumn(t, "release_year", [Num(y1), Num(y2)])
    requires HasColumn(t, "duration", [Str(NatToDigits(m) + u), Str(NatToDigits(k) + v)])
    requires "director" !in Stripped(t).columns
    ensures var p := Prepared(t);
      |p.rows| > 0 && "director" !in p.columns
      && "listed_in" in p.columns && Column(p, "listed_in")[0] != Missing
      && "type" in p.columns && Column(p, "type")[0] != Missing
      && "rating" in p.columns && Column(p, "rating")[0] != Missing
      && "release_year" in p.columns && Column(p, "release_year")[0].Num?
      && "duration_num" in p.columns && Column(p, "duration_num")[0].Num?
  {
    PreparedCells(t, "listed_in", [Str(a + ", " + b), Str(a)]);
    PreparedCells(t, "type", [Str(x), Str(y)]);
    PreparedCells(t, "rating", [Str(r1), Str(r2)]);
    KeptColumn(t, "director");
    YearCells(t, y1, y2);
    DurationCells(t, m, u, k, v);
  }

  /** The worked example: Drama twice, Comedy once. */
  lemma DramaComedy()
    ensures Top(["Drama", "Comedy", "Drama"], TopN) == [("Drama", 2), ("Comedy", 1)]
  {
    TopOfRepeated("Drama", "Comedy");
  }

  /** The worked example: a 90-minute movie and a two-season show. */
  lemma MovieAndShow()
    ensures MeanByGroup([Str("Movie"), Str("TV Show")], [Num(90), Num(2)]) == map[Str("Movie") := 90.0, Str("TV Show") := 2.0]
  {
    MeansOfPair(Str("Movie"), Str("TV Show"), 90, 2);
  }
}
