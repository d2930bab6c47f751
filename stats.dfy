/** The accumulators of the reporting pipelines: `$sum: 1`, `$avg: "$rating"`,
    `$max: "$createdAt"`, and the five-way count of ratings. Averages are
    exact rationals. */
module Stats {
  import opened Seqs
  import opened Grouping
  import opened Sorting
  import opened Models

  /** `sort({ createdAt: -1 })` */
  function NewestFirst(): (Feedback, Feedback) -> bool {
    Descending((f: Feedback) => Ticks(f.createdAt))
  }

  /** `"$rating"` */
  function RatingOf(): Feedback -> int { (f: Feedback) => f.rating }

  function RatingSum(fs: seq<Feedback>): int {
    if fs == [] then 0 else fs[0].rating + RatingSum(fs[1..])
  }

  /** Every rating lies in 1..5, as the feedback schema demands. */
  predicate RatingsInRange(fs: seq<Feedback>) {
    forall i :: 0 <= i < |fs| ==> 1 <= fs[i].rating <= 5
  }

  lemma {:induction false} RatingSumBounds(fs: seq<Feedback>)
    requires RatingsInRange(fs)
    ensures |fs| <= RatingSum(fs) <= 5 * |fs|
  {
    if fs != [] {
      RatingSumBounds(fs[1..]);
    }
  }

  /** `$avg: "$rating"`, and 0 where there is no record to average
      (`?.averageRating || 0`). */
  function Mean(fs: seq<Feedback>): (m: real)
    ensures fs == [] ==> m == 0.0
    ensures fs != [] ==> m * (|fs| as real) == RatingSum(fs) as real
  {
    if fs == [] then 0.0 else RatingSum(fs) as real / |fs| as real
  }

  /** The mean times the count is the sum, including when there is no record. */
  lemma MeanTimesCount(fs: seq<Feedback>, mean: real, count: real)
    requires mean == Mean(fs) && count == |fs| as real
    ensures mean * count == RatingSum(fs) as real
  {
  }

  /** The average of schema-valid ratings is itself between 1 and 5. */
  lemma MeanBounds(fs: seq<Feedback>)
    requires fs != [] && RatingsInRange(fs)
    ensures 1.0 <= Mean(fs) <= 5.0
  {
    RatingSumBounds(fs);
    var n := |fs| as real;
    var total := RatingSum(fs) as real;
    assert (5 * |fs|) as real == 5.0 * n;
    QuotientBounds(total, n, 1.0, 5.0);
  }

  lemma QuotientBounds(a: real, b: real, lo: real, hi: real)
    requires b > 0.0 && lo * b <= a <= hi * b
    ensures lo <= a / b <= hi
  {
    var q := a / b;
    assert (q - lo) * b == a - lo * b;
    assert (hi - q) * b == hi * b - a;
  }

  /** The per-course `ratingDistribution`: how many of the ratings are 5, 4, 3, 2 and 1. */
  datatype Distribution = Distribution(five: nat, four: nat, three: nat, two: nat, one: nat)

  /** The ratings of the records, in record order (`$push: "$rating"`). */
  function RatingValues(fs: seq<Feedback>): (r: seq<int>)
    ensures |r| == |fs| && forall i :: 0 <= i < |fs| ==> r[i] == fs[i].rating
  {
    seq(|fs|, i requires 0 <= i < |fs| => fs[i].rating)
  }

  /** The group of rating `k` holds as many records as the rating `k` occurs among all ratings. */
  lemma {:induction false} GroupSizeIsMultiplicity(fs: seq<Feedback>, k: int)
    ensures |Members(fs, RatingOf(), k)| == multiset(RatingValues(fs))[k]
  {
    if fs != [] {
      GroupSizeIsMultiplicity(fs[1..], k);
      assert RatingValues(fs) == [fs[0].rating] + RatingValues(fs[1..]);
    }
  }

  function FiveWay(fs: seq<Feedback>): (d: Distribution)
    ensures d.five == multiset(RatingValues(fs))[5] && d.four == multiset(RatingValues(fs))[4]
            && d.three == multiset(RatingValues(fs))[3] && d.two == multiset(RatingValues(fs))[2]
            && d.one == multiset(RatingValues(fs))[1]
  {
    GroupSizeIsMultiplicity(fs, 5);
    GroupSizeIsMultiplicity(fs, 4);
    GroupSizeIsMultiplicity(fs, 3);
    GroupSizeIsMultiplicity(fs, 2);
    GroupSizeIsMultiplicity(fs, 1);
    Distribution(|Members(fs, RatingOf(), 5)|, |Members(fs, RatingOf(), 4)|, |Members(fs, RatingOf(), 3)|,
                 |Members(fs, RatingOf(), 2)|, |Members(fs, RatingOf(), 1)|)
  }

  /** With ratings in 1..5, the five counts add up to the number of ratings. */
  lemma FiveWaySums(fs: seq<Feedback>)
    requires RatingsInRange(fs)
    ensures var d := FiveWay(fs); d.five + d.four + d.three + d.two + d.one == |fs|
  {
    GroupSizesSum(fs);
  }

  /** The groups of ratings 5 down to 1 together hold every record. */
  lemma {:induction false} GroupSizesSum(fs: seq<Feedback>)
    requires RatingsInRange(fs)
    ensures |Members(fs, RatingOf(), 5)| + |Members(fs, RatingOf(), 4)| + |Members(fs, RatingOf(), 3)|
            + |Members(fs, RatingOf(), 2)| + |Members(fs, RatingOf(), 1)| == |fs|
  {
    if fs != [] {
      GroupSizesSum(fs[1..]);
    }
  }

  /** `$max: "$createdAt"` */
  function Latest(fs: seq<Feedback>): (t: DateTime)
    requires fs != []
    ensures exists i :: 0 <= i < |fs| && fs[i].createdAt == t
    ensures forall i :: 0 <= i < |fs| ==> Ticks(fs[i].createdAt) <= Ticks(t)
  {
    if |fs| == 1 then fs[0].createdAt
    else
      var rest := Latest(fs[1..]);
      if Ticks(fs[0].createdAt) >= Ticks(rest) then fs[0].createdAt else rest
  }
}
