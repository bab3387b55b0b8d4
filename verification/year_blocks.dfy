/** A reference description of what a run from the initial state produces, stated per calendar
    year rather than per step: the input splits into maximal blocks of samples sharing a year;
    every block but the last has been flushed into the background, in order; the last block is the
    current path; inside a block each sample sits at the number of non-Feb-29 samples before it. */
module YearBlocks {
  import opened Wrappers
  import opened Calendar
  import opened YearWheel

  /** Where the trailing block of samples with the last sample's year begins. */
  function BlockStart(xs: seq<Sample>): (s: nat)
    ensures xs != [] ==> s < |xs|
    ensures xs == [] ==> s == 0
    ensures forall i :: s <= i < |xs| ==> xs[i].date.year == xs[|xs| - 1].date.year
    ensures 0 < s ==> xs[s - 1].date.year != xs[s].date.year
    decreases |xs|
  {
    if |xs| <= 1 then 0
    else if xs[|xs| - 1].date.year == xs[|xs| - 2].date.year then BlockStart(xs[..|xs| - 1])
    else |xs| - 1
  }

  /** The number of samples that are not Feb 29. */
  function CountDays(xs: seq<Sample>): (n: nat)
    ensures n <= |xs|
    decreases |xs|
  {
    if xs == [] then 0
    else CountDays(xs[..|xs| - 1]) + (if IsLeapDay(Last(xs).date) then 0 else 1)
  }

  /** The path of one block: sample i sits at the count of non-Feb-29 samples before it. */
  function YearPath(b: seq<Sample>): (p: seq<Point>)
    ensures |p| == |b|
  {
    seq(|b|, i requires 0 <= i < |b| => Point(Position(CountDays(b[..i]), b[i].date), b[i].value))
  }

  /** The paths of all blocks of xs, concatenated in order. */
  function Completed(xs: seq<Sample>): (p: seq<Point>)
    decreases |xs|
  {
    if xs == [] then [] else Completed(xs[..BlockStart(xs)]) + YearPath(xs[BlockStart(xs)..])
  }

  /** The values of the samples, in order (the per-sample counterpart of `Values`). */
  function SampleValues(xs: seq<Sample>): seq<real> {
    seq(|xs|, i requires 0 <= i < |xs| => xs[i].value)
  }

  lemma YearPathSnoc(b: seq<Sample>, x: Sample)
    ensures YearPath(b + [x]) == YearPath(b) + [Point(Position(CountDays(b), x.date), x.value)]
  {
    var l, r := YearPath(b + [x]), YearPath(b) + [Point(Position(CountDays(b), x.date), x.value)];
    forall i | 0 <= i < |l| ensures l[i] == r[i] {
      assert (b + [x])[..i] == if i < |b| then b[..i] else b;
    }
  }

  lemma CountDaysSnoc(b: seq<Sample>, x: Sample)
    ensures CountDays(b + [x]) == CountDays(b) + (if IsLeapDay(x.date) then 0 else 1)
  {
    assert (b + [x])[..|b|] == b;
  }

  /** What the blocks say about the state after the data frames for xs. */
  ghost predicate MatchesBlocks(xs: seq<Sample>, r: State)
    requires xs != []
  {
    var s := BlockStart(xs);
    && r.current == YearPath(xs[s..])
    && r.day == CountDays(xs[s..])
    && r.background == Completed(xs[..s])
    && r.year == Some(Last(xs).date.year)
  }

  lemma SameYearKeepsBlocks(ys: seq<Sample>, x: Sample, before: State)
    requires ys != [] && MatchesBlocks(ys, before)
    requires x.date.year == Last(ys).date.year
    ensures MatchesBlocks(ys + [x], Step(before, x))
  {
    var xs, s := ys + [x], BlockStart(ys);
    SameYearExtends(before, x);
    assert BlockStart(xs) == s by {
      assert xs[..|xs| - 1] == ys;
    }
    assert xs[s..] == ys[s..] + [x];
    assert xs[..s] == ys[..s];
    YearPathSnoc(ys[s..], x);
    CountDaysSnoc(ys[s..], x);
  }

  lemma NewYearStartsBlock(ys: seq<Sample>, x: Sample, before: State)
    requires ys != [] && MatchesBlocks(ys, before)
    requires x.date.year != Last(ys).date.year
    ensures MatchesBlocks(ys + [x], Step(before, x))
  {
    var xs, s := ys + [x], BlockStart(ys);
    assert before.current != [] by {
      assert |YearPath(ys[s..])| == |ys| - s > 0;
    }
    var r := Step(before, x);
    NewYearFlushes(before, x);
    assert BlockStart(xs) == |ys|;
    assert xs[|ys|..] == [x] && xs[..|ys|] == ys;
    assert Completed(ys) == Completed(ys[..s]) + YearPath(ys[s..]);
    assert r.background == Completed(ys);
    YearPathSnoc([], x);
    CountDaysSnoc([], x);
    assert [] + [x] == [x];
    assert r.current == YearPath([x]);
    assert r.day == CountDays([x]);
  }

  /** Main theorem: after the data frames for a non-empty input, the current path is the path of
      the last year block, the counter is the number of non-Feb-29 samples in that block, the
      background is the paths of all earlier blocks in order, and the stored year is the last
      sample's year. */
  lemma {:induction false} RunMatchesBlocks(xs: seq<Sample>)
    requires xs != []
    ensures var s := BlockStart(xs);
      && Run(Fresh(), xs).current == YearPath(xs[s..])
      && Run(Fresh(), xs).day == CountDays(xs[s..])
      && Run(Fresh(), xs).background == Completed(xs[..s])
      && Run(Fresh(), xs).year == Some(Last(xs).date.year)
    decreases |xs|
  {
    var ys, x := xs[..|xs| - 1], Last(xs);
    assert xs == ys + [x];
    assert Run(Fresh(), xs) == Step(Run(Fresh(), ys), x);
    if ys == [] {
      assert Run(Fresh(), ys) == Fresh();
      FirstSampleStartsBlock(x);
    } else {
      RunMatchesBlocks(ys);
      StepMatchesBlocks(ys, x, Run(Fresh(), ys));
    }
    assert MatchesBlocks(xs, Run(Fresh(), xs));
  }

  /** The first sample of a run is a block of its own, and nothing is completed. */
  lemma FirstSampleStartsBlock(x: Sample)
    ensures MatchesBlocks([x], Step(Fresh(), x))
  {
    FirstSample(x);
    assert [x][0..] == [x] && [x][..0] == [];
    YearPathSnoc([], x);
    CountDaysSnoc([], x);
  }

  /** Whatever the year of the next sample, a step keeps the state equal to the block description. */
  lemma StepMatchesBlocks(ys: seq<Sample>, x: Sample, before: State)
    requires ys != [] && MatchesBlocks(ys, before)
    ensures MatchesBlocks(ys + [x], Step(before, x))
  {
    if x.date.year == Last(ys).date.year {
      SameYearKeepsBlocks(ys, x, before);
    } else {
      NewYearStartsBlock(ys, x, before);
    }
  }

  lemma {:induction false} CompletedValues(xs: seq<Sample>)
    ensures Values(Completed(xs)) == SampleValues(xs)
    decreases |xs|
  {
    if xs != [] {
      var s := BlockStart(xs);
      CompletedValues(xs[..s]);
      ValuesConcat(Completed(xs[..s]), YearPath(xs[s..]));
      YearPathValues(xs[s..]);
      SampleValuesSplit(xs, s);
    }
  }

  /** Nothing lost, nothing duplicated, order kept: the background values followed by the current
      values are the input's values, and the background holds exactly the samples before the last
      year block. */
  lemma EverySampleOnce(xs: seq<Sample>)
    requires xs != []
    ensures Run(Fresh(), xs).backgroundValues + Run(Fresh(), xs).currentValues == SampleValues(xs)
    ensures |Run(Fresh(), xs).background| == BlockStart(xs)
    ensures |Run(Fresh(), xs).current| == |xs| - BlockStart(xs) >= 1
  {
    var s, r := BlockStart(xs), Run(Fresh(), xs);
    RunMatchesBlocks(xs);
    RunKeepsWellFormed(Fresh(), xs);
    CompletedValues(xs[..s]);
    YearPathValues(xs[s..]);
    SampleValuesSplit(xs, s);
  }

  lemma YearPathValues(b: seq<Sample>)
    ensures Values(YearPath(b)) == SampleValues(b)
  {
  }

  lemma SampleValuesSplit(xs: seq<Sample>, s: nat)
    requires s <= |xs|
    ensures SampleValues(xs) == SampleValues(xs[..s]) + SampleValues(xs[s..])
  {
  }

  // ---------------------------------------------------------------------------------------------
  // Positions on the calendar

  /** A block of consecutive calendar days of one year starting on Jan 1. */
  ghost predicate FromNewYear(b: seq<Sample>) {
    && b != []
    && b[0].date.month == 1 && b[0].date.day == 1
    && (forall i :: 0 <= i < |b| ==> ValidDate(b[i].date) && b[i].date.year == b[0].date.year)
    && (forall i :: 0 <= i < |b| - 1 ==> b[i + 1].date == NextDay(b[i].date))
  }

  /** In such a block the counter in force at each sample is the sample's non-leap day of year. */
  lemma {:induction false} CounterIsNoLeapOrdinal(b: seq<Sample>, i: nat)
    requires FromNewYear(b) && i < |b|
    ensures CountDays(b[..i]) == NoLeapOrdinal(b[i].date)
  {
    if i > 0 {
      CounterIsNoLeapOrdinal(b, i - 1);
      CountDaysSnoc(b[..i - 1], b[i - 1]);
      assert b[..i - 1] + [b[i - 1]] == b[..i];
      assert b[i].date == NextDay(b[i - 1].date);
      assert b[i].date.year == b[0].date.year == b[i - 1].date.year;
      NextDayOrdinal(b[i - 1].date);
    }
  }

  /** Leap-day alignment: in a block starting Jan 1, every day other than Feb 29 sits at twice its
      non-leap day of year, in a leap year as in any other (Dec 31 at 728 half-days, the first of
      each month on its month tick), and Feb 29 sits half a day before Mar 1. */
  lemma CalendarPositions(b: seq<Sample>, i: nat)
    requires FromNewYear(b) && i < |b|
    ensures !IsLeapDay(b[i].date) ==> YearPath(b)[i].pos == 2 * NoLeapOrdinal(b[i].date)
    ensures IsLeapDay(b[i].date) ==> YearPath(b)[i].pos == 2 * MonthStart(3) - 1
    ensures b[i].date.day == 1 ==> YearPath(b)[i].pos == 2 * MonthStart(b[i].date.month)
    ensures b[i].date.month == 12 && b[i].date.day == 31 ==> YearPath(b)[i].pos == 728
  {
    CounterIsNoLeapOrdinal(b, i);
  }
}
