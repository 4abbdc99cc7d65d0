/**
 * The six aggregates of run_report, computed from the prepared frame, and
 * the set of chart keys that end up in plot_files. Each aggregate is empty
 * when its source column is absent (the source skips it or uses an empty
 * Series), and a chart is drawn exactly when its aggregate is non-empty.
 */
module Aggregates {
  import opened Text
  import opened Counting
  import opened Frames

  /** head(10) for genres and directors. */
  const TopN: nat := 10

  const GenresKey: string := "top_genres"
  const DirectorsKey: string := "top_directors"
  const RatingsKey: string := "rating_distribution"
  const YearsKey: string := "titles_per_year"
  const TypesKey: string := "type_count"
  const AvgDurationKey: string := "avg_movie_duration"

  /** The order in which both documents list the charts. */
  const ChartOrder: seq<string> := [GenresKey, DirectorsKey, RatingsKey, YearsKey, TypesKey, AvgDurationKey]

  // ---------------------------------------------------------------------------
  // Column transformations
  // ---------------------------------------------------------------------------

  predicate HasPresent(col: seq<Value>) { exists i :: 0 <= i < |col| && col[i] != Missing }

  predicate HasNumber(col: seq<Value>) { exists i :: 0 <= i < |col| && col[i].Num? }

  /** Series.dropna(). */
  function DropMissing(col: seq<Value>): (r: seq<Value>)
    ensures forall v :: v in r <==> v in col && v != Missing
  {
    if |col| == 0 then []
    else
      assert col == [col[0]] + col[1..];
      (if col[0] == Missing then [] else [col[0]]) + DropMissing(col[1..])
  }

  /** Dropping missing cells keeps every other value's count. */
  lemma {:induction false} DropMissingCount(col: seq<Value>, v: Value)
    requires v != Missing
    ensures Count(DropMissing(col), v) == Count(col, v)
  {
    if |col| > 0 {
      DropMissingCount(col[1..], v);
      assert col == [col[0]] + col[1..];
      var head := if col[0] == Missing then [] else [col[0]];
      assert DropMissing(col) == head + DropMissing(col[1..]);
      assert multiset(col)[v] == multiset([col[0]])[v] + multiset(col[1..])[v];
      assert multiset(DropMissing(col))[v] == multiset(head)[v] + multiset(DropMissing(col[1..]))[v];
    }
  }

  /** DropMissingCount for every present value at once. */
  lemma DropMissingCounts(col: seq<Value>)
    ensures forall v :: v != Missing ==> Count(DropMissing(col), v) == Count(col, v)
  {
    forall v | v != Missing ensures Count(DropMissing(col), v) == Count(col, v) {
      DropMissingCount(col, v);
    }
  }

  /** A column without missing cells is kept whole. */
  lemma {:induction false} DropMissingNone(col: seq<Value>)
    requires forall i :: 0 <= i < |col| ==> col[i] != Missing
    ensures DropMissing(col) == col
  {
    if |col| > 0 {
      DropMissingNone(col[1..]);
      assert col == [col[0]] + col[1..];
    }
  }

  lemma DropMissingEmpty(col: seq<Value>)
    ensures |DropMissing(col)| > 0 <==> HasPresent(col)
  {
    if HasPresent(col) {
      var i :| 0 <= i < |col| && col[i] != Missing;
      assert col[i] in DropMissing(col);
    }
  }

  /**
   * .dropna().astype(str).str.split(", ", expand=True).stack(): the pieces
   * of every listed cell, row after row.
   */
  function GenrePieces(col: seq<Value>): (r: seq<string>)
    ensures |r| > 0 <==> HasPresent(col)
  {
    if |col| == 0 then []
    else
      var rest := GenrePieces(col[1..]);
      assert HasPresent(col) <==> col[0] != Missing || HasPresent(col[1..]) by {
        if HasPresent(col[1..]) {
          var i :| 0 <= i < |col[1..]| && col[1..][i] != Missing;
          assert col[i + 1] != Missing;
        }
        if HasPresent(col) && col[0] == Missing {
          var i :| 0 <= i < |col| && col[i] != Missing;
          assert col[1..][i - 1] != Missing;
        }
      }
      CellPieces(col[0]) + rest
  }

  /** The pieces one cell contributes: none for a missing cell, else its ", "-split text. */
  function CellPieces(c: Value): seq<string>
  {
    if c == Missing then [] else Split(AsString(c))
  }

  /** The pieces of a column are those of its first part followed by those of the rest. */
  lemma {:induction false} GenrePiecesAppend(a: seq<Value>, b: seq<Value>)
    ensures GenrePieces(a + b) == GenrePieces(a) + GenrePieces(b)
  {
    if |a| == 0 {
      assert a + b == b;
    } else {
      var c, rest := a[0], a[1..];
      assert a == [c] + rest;
      assert a + b == [c] + (rest + b);
      GenrePiecesAppend(rest, b);
      GenrePiecesCons(c, rest);
      GenrePiecesCons(c, rest + b);
      ConcatAssoc(CellPieces(c), GenrePieces(rest), GenrePieces(b));
    }
  }

  lemma ConcatAssoc<T>(x: seq<T>, y: seq<T>, z: seq<T>)
    ensures x + (y + z) == (x + y) + z
  {
  }

  /** Unfolding GenrePieces once. */
  lemma GenrePiecesCons(c: Value, rest: seq<Value>)
    ensures GenrePieces([c] + rest) == CellPieces(c) + GenrePieces(rest)
  {
    assert ([c] + rest)[1..] == rest;
  }

  /** A single cell's pieces are its ", "-split text, or none when it is missing. */
  lemma GenrePiecesOfCell(c: Value)
    ensures GenrePieces([c]) == CellPieces(c)
  {
    assert [c][1..] == [];
  }

  /** So each genre's count grows by its count among the pieces of each appended cell. */
  lemma GenrePiecesCount(col: seq<Value>, c: Value, g: string)
    ensures Count(GenrePieces(col + [c]), g) == Count(GenrePieces(col), g) + Count(CellPieces(c), g)
  {
    GenrePiecesAppend(col, [c]);
    GenrePiecesOfCell(c);
  }

  /** The numbers of a coerced column; values that did not parse are dropped. */
  function Numbers(col: seq<Value>): (r: seq<int>)
    ensures forall n :: n in r <==> Num(n) in col
    ensures forall n :: Count(r, n) == Count(col, Num(n))
  {
    if |col| == 0 then []
    else
      assert col == [col[0]] + col[1..];
      assert multiset(col) == multiset([col[0]]) + multiset(col[1..]);
      var head := if col[0].Num? then [col[0].num] else [];
      var r := head + Numbers(col[1..]);
      assert multiset(r) == multiset(head) + multiset(Numbers(col[1..]));
      r
  }

  lemma NumbersEmpty(col: seq<Value>)
    ensures |Numbers(col)| > 0 <==> HasNumber(col)
  {
    if HasNumber(col) {
      var i :| 0 <= i < |col| && col[i].Num?;
      assert Num(col[i].num) in col;
      assert col[i].num in Numbers(col);
    }
    if |Numbers(col)| > 0 {
      assert Num(Numbers(col)[0]) in col;
    }
  }

  // ---------------------------------------------------------------------------
  // Grouped mean (df.dropna(subset=["duration_num"]).groupby("type")["duration_num"].mean())
  // ---------------------------------------------------------------------------

  /** Rows of group g whose number parsed. */
  function GroupSize(keys: seq<Value>, nums: seq<Value>, g: Value): nat
    requires |keys| == |nums|
  {
    if |keys| == 0 then 0
    else (if keys[0] == g && nums[0].Num? then 1 else 0) + GroupSize(keys[1..], nums[1..], g)
  }

  /** Sum of the parsed numbers of group g. */
  function GroupSum(keys: seq<Value>, nums: seq<Value>, g: Value): int
    requires |keys| == |nums|
  {
    if |keys| == 0 then 0
    else (if keys[0] == g && nums[0].Num? then nums[0].num else 0) + GroupSum(keys[1..], nums[1..], g)
  }

  /** Some row of group g has a parsed number. */
  predicate InGroup(keys: seq<Value>, nums: seq<Value>, g: Value)
    requires |keys| == |nums|
  {
    exists i :: 0 <= i < |keys| && keys[i] == g && nums[i].Num?
  }

  lemma {:induction false} GroupSizePositive(keys: seq<Value>, nums: seq<Value>, g: Value)
    requires |keys| == |nums|
    ensures GroupSize(keys, nums, g) > 0 <==> InGroup(keys, nums, g)
    ensures GroupSize(keys, nums, g) > 0 ==> g in keys
  {
    if |keys| > 0 {
      GroupSizePositive(keys[1..], nums[1..], g);
      if InGroup(keys[1..], nums[1..], g) {
        var i :| 0 <= i < |keys[1..]| && keys[1..][i] == g && nums[1..][i].Num?;
        assert keys[i + 1] == g && nums[i + 1].Num?;
      }
      if InGroup(keys, nums, g) && !(keys[0] == g && nums[0].Num?) {
        var i :| 0 <= i < |keys| && keys[i] == g && nums[i].Num?;
        assert keys[1..][i - 1] == g && nums[1..][i - 1].Num?;
      }
    }
  }

  /** Adding one row changes only its own group, by one row and its number. */
  lemma {:induction false} GroupAppend(keys: seq<Value>, nums: seq<Value>, k: Value, v: Value, g: Value)
    requires |keys| == |nums|
    ensures GroupSize(keys + [k], nums + [v], g) == GroupSize(keys, nums, g) + (if k == g && v.Num? then 1 else 0)
    ensures GroupSum(keys + [k], nums + [v], g) == GroupSum(keys, nums, g) + (if k == g && v.Num? then v.num else 0)
  {
    if |keys| > 0 {
      assert (keys + [k])[1..] == keys[1..] + [k];
      assert (nums + [v])[1..] == nums[1..] + [v];
      GroupAppend(keys[1..], nums[1..], k, v, g);
    }
  }

  /**
   * The mean number of each non-missing group over the rows whose number
   * parsed: exactly the groups with such a row, each mapped to the sum of
   * their numbers divided by their count.
   */
  function MeanByGroup(keys: seq<Value>, nums: seq<Value>): (m: map<Value, real>)
    requires |keys| == |nums|
    ensures forall g :: g in m <==> g != Missing && InGroup(keys, nums, g)
    ensures forall g :: g in m ==> GroupSize(keys, nums, g) > 0 && IsMean(m[g], GroupSum(keys, nums, g), GroupSize(keys, nums, g))
  {
    AllGroupSizes(keys, nums);
    map g | g in keys && g != Missing && GroupSize(keys, nums, g) > 0 :: Mean(GroupSum(keys, nums, g), GroupSize(keys, nums, g))
  }

  /** mean is the average of count numbers adding up to sum. */
  predicate IsMean(mean: real, sum: int, count: nat)
  {
    mean * count as real == sum as real
  }

  /** sum / count, computed exactly. */
  function Mean(sum: int, count: nat): (mean: real)
    requires count > 0
    ensures IsMean(mean, sum, count)
  {
    sum as real / count as real
  }

  lemma AllGroupSizes(keys: seq<Value>, nums: seq<Value>)
    requires |keys| == |nums|
    ensures forall g :: GroupSize(keys, nums, g) > 0 <==> InGroup(keys, nums, g) && g in keys
  {
    forall g ensures GroupSize(keys, nums, g) > 0 <==> InGroup(keys, nums, g) && g in keys {
      GroupSizePositive(keys, nums, g);
    }
  }

  /** A row whose number did not parse contributes nothing to any mean. */
  lemma UnparsedRowIgnored(keys: seq<Value>, nums: seq<Value>, k: Value, v: Value)
    requires |keys| == |nums| && !v.Num?
    ensures MeanByGroup(keys + [k], nums + [v]) == MeanByGroup(keys, nums)
  {
    forall g ensures GroupSize(keys + [k], nums + [v], g) == GroupSize(keys, nums, g)
      && GroupSum(keys + [k], nums + [v], g) == GroupSum(keys, nums, g)
    {
      GroupAppend(keys, nums, k, v, g);
    }
    MeanAgree(keys, nums, keys + [k], nums + [v]);
  }

  /** A row whose group is missing contributes nothing to any mean. */
  lemma MissingGroupIgnored(keys: seq<Value>, nums: seq<Value>, v: Value)
    requires |keys| == |nums|
    ensures forall g :: g != Missing ==> GroupSize(keys + [Missing], nums + [v], g) == GroupSize(keys, nums, g)
    ensures MeanByGroup(keys + [Missing], nums + [v]) == MeanByGroup(keys, nums)
  {
    forall g | g != Missing ensures GroupSize(keys + [Missing], nums + [v], g) == GroupSize(keys, nums, g)
      && GroupSum(keys + [Missing], nums + [v], g) == GroupSum(keys, nums, g)
    {
      GroupAppend(keys, nums, Missing, v, g);
    }
    MeanAgree(keys, nums, keys + [Missing], nums + [v]);
  }

  lemma MeanAgree(k1: seq<Value>, n1: seq<Value>, k2: seq<Value>, n2: seq<Value>)
    requires |k1| == |n1| && |k2| == |n2|
    requires forall g :: g != Missing ==> GroupSize(k1, n1, g) == GroupSize(k2, n2, g) && GroupSum(k1, n1, g) == GroupSum(k2, n2, g)
    ensures MeanByGroup(k1, n1) == MeanByGroup(k2, n2)
  {
    var m1, m2 := MeanByGroup(k1, n1), MeanByGroup(k2, n2);
    forall g ensures g in m1 <==> g in m2 {
      GroupSizePositive(k1, n1, g);
      GroupSizePositive(k2, n2, g);
    }
    forall g | g in m1 ensures m1[g] == m2[g] {
      var s := GroupSize(k1, n1, g) as real;
      assert m1[g] * s == m2[g] * s;
    }
  }

  /**
   * Adding a row of group k with a parsed number d puts it into k's sum and
   * count and leaves every other group alone.
   */
  lemma ParsedRowCounted(keys: seq<Value>, nums: seq<Value>, k: Value, d: int, g: Value)
    requires |keys| == |nums| && k != Missing && g != Missing
    ensures g in MeanByGroup(keys + [k], nums + [Num(d)]) <==> g == k || g in MeanByGroup(keys, nums)
    ensures GroupSize(keys + [k], nums + [Num(d)], g) == GroupSize(keys, nums, g) + (if g == k then 1 else 0)
    ensures GroupSum(keys + [k], nums + [Num(d)], g) == GroupSum(keys, nums, g) + (if g == k then d else 0)
  {
    GroupAppend(keys, nums, k, Num(d), g);
    GroupSizePositive(keys, nums, g);
    GroupSizePositive(keys + [k], nums + [Num(d)], g);
  }

  // ---------------------------------------------------------------------------
  // The six aggregates
  // ---------------------------------------------------------------------------

  /** top_genres: the ten most frequent pieces of listed_in. */
  function TopGenres(t: Table): (r: seq<(string, nat)>)
    requires Rectangular(t)
    ensures |r| <= TopN && NoDup(Keys(r))
    ensures forall i, j :: 0 <= i < j < |r| ==> r[i].1 >= r[j].1
    ensures |r| > 0 <==> "listed_in" in t.columns && HasPresent(Column(t, "listed_in"))
    ensures forall i :: 0 <= i < |r| ==>
      "listed_in" in t.columns && r[i].1 == Count(GenrePieces(Column(t, "listed_in")), r[i].0) && r[i].1 > 0
    ensures "listed_in" in t.columns ==>
      var pieces := GenrePieces(Column(t, "listed_in"));
      |r| == Min(TopN, |Elems(pieces)|)
      && forall g :: g in pieces && g !in Keys(r) ==> |r| == TopN && Count(pieces, g) <= r[TopN - 1].1
  {
    if "listed_in" in t.columns then
      var pieces := GenrePieces(Column(t, "listed_in"));
      ElemsEmpty(pieces);
      var r := Top(pieces, TopN);
      assert forall i :: 0 <= i < |r| ==> r[i].0 in pieces;
      r
    else []
  }

  /** top_directors: the ten most frequent non-missing directors. */
  function TopDirectors(t: Table): (r: seq<(Value, nat)>)
    requires Rectangular(t)
    ensures |r| <= TopN && NoDup(Keys(r))
    ensures forall i, j :: 0 <= i < j < |r| ==> r[i].1 >= r[j].1
    ensures |r| > 0 <==> "director" in t.columns && HasPresent(Column(t, "director"))
    ensures forall i :: 0 <= i < |r| ==>
      "director" in t.columns && r[i].0 != Missing && r[i].1 == Count(Column(t, "director"), r[i].0) && r[i].1 > 0
    ensures "director" in t.columns ==>
      var col := Column(t, "director");
      |r| == Min(TopN, |Elems(DropMissing(col))|)
      && forall v :: v in col && v != Missing && v !in Keys(r) ==> |r| == TopN && Count(col, v) <= r[TopN - 1].1
  {
    if "director" in t.columns then
      var col := Column(t, "director");
      DropMissingEmpty(col);
      DropMissingCounts(col);
      ElemsEmpty(DropMissing(col));
      var r := Top(DropMissing(col), TopN);
      assert forall i :: 0 <= i < |r| ==> r[i].0 in DropMissing(col);
      r
    else []
  }

  /** rating_counts: all non-missing ratings with their counts, not truncated. */
  function RatingCounts(t: Table): (r: seq<(Value, nat)>)
    requires Rectangular(t)
    ensures NoDup(Keys(r))
    ensures forall i, j :: 0 <= i < j < |r| ==> r[i].1 >= r[j].1
    ensures forall v :: v in Keys(r) <==> "rating" in t.columns && v in Column(t, "rating") && v != Missing
    ensures forall i :: 0 <= i < |r| ==>
      "rating" in t.columns && r[i].1 == Count(Column(t, "rating"), r[i].0) && r[i].1 > 0
  {
    if "rating" in t.columns then Counted(Column(t, "rating")) else []
  }

  /** per_year: titles per parsed release year, ascending by year. */
  function TitlesPerYear(t: Table): (r: seq<(int, nat)>)
    requires Rectangular(t)
    ensures StrictlyAscending(Keys(r))
    ensures forall y :: y in Keys(r) <==> "release_year" in t.columns && Num(y) in Column(t, "release_year")
    ensures forall i :: 0 <= i < |r| ==>
      "release_year" in t.columns && r[i].1 == Count(Column(t, "release_year"), Num(r[i].0)) && r[i].1 > 0
  {
    if "release_year" in t.columns then CountsByKey(Numbers(Column(t, "release_year"))) else []
  }

  /** type_counts: all non-missing types with their counts. */
  function TypeCounts(t: Table): (r: seq<(Value, nat)>)
    requires Rectangular(t)
    ensures NoDup(Keys(r))
    ensures forall i, j :: 0 <= i < j < |r| ==> r[i].1 >= r[j].1
    ensures forall v :: v in Keys(r) <==> "type" in t.columns && v in Column(t, "type") && v != Missing
    ensures forall i :: 0 <= i < |r| ==>
      "type" in t.columns && r[i].1 == Count(Column(t, "type"), r[i].0) && r[i].1 > 0
  {
    if "type" in t.columns then Counted(Column(t, "type")) else []
  }

  /** value_counts() of a column; dropping the missing cells first changes no count. */
  function Counted(col: seq<Value>): (r: seq<(Value, nat)>)
    ensures NoDup(Keys(r))
    ensures forall i, j :: 0 <= i < j < |r| ==> r[i].1 >= r[j].1
    ensures forall v :: v in Keys(r) <==> v in col && v != Missing
    ensures forall i :: 0 <= i < |r| ==> r[i].1 == Count(col, r[i].0) && r[i].1 > 0
  {
    DropMissingCounts(col);
    var r := ValueCounts(DropMissing(col));
    assert forall i :: 0 <= i < |r| ==> Keys(r)[i] == r[i].0 && Keys(r)[i] in Keys(r);
    r
  }

  /** avg_duration: mean parsed duration per type. */
  function AverageDuration(t: Table): (m: map<Value, real>)
    requires Rectangular(t)
    ensures forall g :: g in m <==>
      "duration_num" in t.columns && "type" in t.columns
      && g != Missing && InGroup(Column(t, "type"), Column(t, "duration_num"), g)
    ensures forall g :: g in m ==>
      "duration_num" in t.columns && "type" in t.columns
      && var keys, nums := Column(t, "type"), Column(t, "duration_num");
         g in keys && GroupSize(keys, nums, g) > 0 && IsMean(m[g], GroupSum(keys, nums, g), GroupSize(keys, nums, g))
  {
    if "duration_num" in t.columns && "type" in t.columns then
      var keys, nums := Column(t, "type"), Column(t, "duration_num");
      AllGroupSizes(keys, nums);
      MeanByGroup(keys, nums)
    else map[]
  }

  /** Whether run_report draws the chart called key (the condition guarding each plot). */
  predicate HasChart(t: Table, key: string)
    requires Rectangular(t)
  {
    if key == GenresKey then "listed_in" in t.columns && |TopGenres(t)| > 0
    else if key == DirectorsKey then "director" in t.columns && |TopDirectors(t)| > 0
    else if key == RatingsKey then "rating" in t.columns && |RatingCounts(t)| > 0
    else if key == YearsKey then "release_year" in t.columns && |TitlesPerYear(t)| > 0
    else if key == TypesKey then "type" in t.columns && |TypeCounts(t)| > 0
    else if key == AvgDurationKey then "duration_num" in t.columns && "type" in t.columns && |AverageDuration(t)| > 0
    else false
  }

  /** The keys of plot_files. */
  function ChartKeys(t: Table): set<string>
    requires Rectangular(t)
  {
    set k | k in ChartOrder && HasChart(t, k)
  }

  lemma ElemsEmpty<T>(xs: seq<T>)
    ensures |Elems(xs)| > 0 <==> |xs| > 0
  {
    if |xs| > 0 {
      assert xs[0] in Elems(xs);
    }
  }

  lemma TopNonEmpty<T(!new)>(xs: seq<T>)
    ensures |Top(xs, TopN)| > 0 <==> |xs| > 0
  {
    ElemsEmpty(xs);
  }

  lemma CountsNonEmpty<T(!new)>(col: seq<T>)
    ensures |ValueCounts(col)| > 0 <==> |col| > 0
  {
    ElemsEmpty(col);
  }

  lemma GenresChart(t: Table)
    requires Rectangular(t)
    ensures HasChart(t, GenresKey) <==> "listed_in" in t.columns && HasPresent(Column(t, "listed_in"))
  {
    if "listed_in" in t.columns {
      TopNonEmpty(GenrePieces(Column(t, "listed_in")));
    }
  }

  lemma DirectorsChart(t: Table)
    requires Rectangular(t)
    ensures HasChart(t, DirectorsKey) <==> "director" in t.columns && HasPresent(Column(t, "director"))
  {
    if "director" in t.columns {
      DropMissingEmpty(Column(t, "director"));
      TopNonEmpty(DropMissing(Column(t, "director")));
    }
  }

  lemma RatingsChart(t: Table)
    requires Rectangular(t)
    ensures HasChart(t, RatingsKey) <==> "rating" in t.columns && HasPresent(Column(t, "rating"))
  {
    if "rating" in t.columns {
      DropMissingEmpty(Column(t, "rating"));
      CountsNonEmpty(DropMissing(Column(t, "rating")));
    }
  }

  lemma YearsChart(t: Table)
    requires Rectangular(t)
    ensures HasChart(t, YearsKey) <==> "release_year" in t.columns && HasNumber(Column(t, "release_year"))
  {
    if "release_year" in t.columns {
      var ys := Numbers(Column(t, "release_year"));
      NumbersEmpty(Column(t, "release_year"));
      if |ys| > 0 {
        assert ys[0] in Keys(CountsByKey(ys));
      }
    }
  }

  lemma TypesChart(t: Table)
    requires Rectangular(t)
    ensures HasChart(t, TypesKey) <==> "type" in t.columns && HasPresent(Column(t, "type"))
  {
    if "type" in t.columns {
      DropMissingEmpty(Column(t, "type"));
      CountsNonEmpty(DropMissing(Column(t, "type")));
    }
  }

  lemma AvgDurationChart(t: Table)
    requires Rectangular(t)
    ensures HasChart(t, AvgDurationKey) <==>
      "duration_num" in t.columns && "type" in t.columns
      && exists i :: 0 <= i < |t.rows| && Column(t, "type")[i] != Missing && Column(t, "duration_num")[i].Num?
  {
    if "duration_num" in t.columns && "type" in t.columns {
      var ks, ns := Column(t, "type"), Column(t, "duration_num");
      var m := MeanByGroup(ks, ns);
      if exists i :: 0 <= i < |t.rows| && ks[i] != Missing && ns[i].Num? {
        var i :| 0 <= i < |t.rows| && ks[i] != Missing && ns[i].Num?;
        assert InGroup(ks, ns, ks[i]);
        assert ks[i] in m;
      }
      if |m| > 0 {
        var g :| g in m;
        var i :| 0 <= i < |ks| && ks[i] == g && ns[i].Num?;
      }
    }
  }

  /**
   * A chart is produced exactly when its source column is present and holds
   * at least one usable value; no key outside the fixed chart order appears.
   */
  lemma ChartKeysExactly(t: Table)
    requires Rectangular(t)
    ensures ChartKeys(t) <= set k | k in ChartOrder
    ensures GenresKey in ChartKeys(t) <==> "listed_in" in t.columns && HasPresent(Column(t, "listed_in"))
    ensures DirectorsKey in ChartKeys(t) <==> "director" in t.columns && HasPresent(Column(t, "director"))
    ensures RatingsKey in ChartKeys(t) <==> "rating" in t.columns && HasPresent(Column(t, "rating"))
    ensures YearsKey in ChartKeys(t) <==> "release_year" in t.columns && HasNumber(Column(t, "release_year"))
    ensures TypesKey in ChartKeys(t) <==> "type" in t.columns && HasPresent(Column(t, "type"))
    ensures AvgDurationKey in ChartKeys(t) <==>
      "duration_num" in t.columns && "type" in t.columns
      && exists i :: 0 <= i < |t.rows| && Column(t, "type")[i] != Missing && Column(t, "duration_num")[i].Num?
  {
    var keys := ChartKeys(t);
    assert GenresKey in keys <==> HasChart(t, GenresKey) by { assert ChartOrder[0] == GenresKey; }
    assert DirectorsKey in keys <==> HasChart(t, DirectorsKey) by { assert ChartOrder[1] == DirectorsKey; }
    assert RatingsKey in keys <==> HasChart(t, RatingsKey) by { assert ChartOrder[2] == RatingsKey; }
    assert YearsKey in keys <==> HasChart(t, YearsKey) by { assert ChartOrder[3] == YearsKey; }
    assert TypesKey in keys <==> HasChart(t, TypesKey) by { assert ChartOrder[4] == TypesKey; }
    assert AvgDurationKey in keys <==> HasChart(t, AvgDurationKey) by { assert ChartOrder[5] == AvgDurationKey; }
    GenresChart(t);
    DirectorsChart(t);
    RatingsChart(t);
    YearsChart(t);
    TypesChart(t);
    AvgDurationChart(t);
  }
}
