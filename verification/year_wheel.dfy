/** The year-wheel sequencer as values: the accumulators it keeps between frames, the step one
    sample performs on them, and what runs of steps do. The class in year_plot.dfy is proved to
    perform exactly these steps. */
module YearWheel {
  import opened Wrappers
  import opened Calendar

  /** One row of the input: a date and its daily maximum temperature. */
  datatype Sample = Sample(date: Date, value: real)

  /** A vertex of a polyline on the wheel. `pos` is the angular position in half-days after the
      start of the year (the drawn angle is 2π·pos/730, a monotone function of it); `value` is the
      radius. */
  datatype Point = Point(pos: int, value: real)

  /** A line segment between two consecutive vertices. */
  datatype Segment = Segment(from: Point, to: Point)

  /** Everything a frame leaves behind: the six module-level accumulators and what was last
      handed to the current-year line, the background line, the marker and the title. */
  datatype State = State(
    current: seq<Point>,          // points of the year being drawn
    currentValues: seq<real>,     // value accumulator, handed to the current-year line as its colour array on each data frame
    background: seq<Point>,       // points of every flushed year, in order
    backgroundValues: seq<real>,  // value accumulator of flushed years, handed to the background line on each flush
    year: Option<int>,            // stored year; None is the initial sentinel 0
    day: int,                     // day-of-year counter
    lineSegments: seq<Segment>,   // segments of the current-year line
    bgSegments: seq<Segment>,     // segments of the background line
    marker: Option<Point>,        // the moving dot
    title: Option<Date>)          // the date shown as title

  function Last<T>(s: seq<T>): T
    requires s != []
  {
    s[|s| - 1]
  }

  /** The state before the first frame: empty accumulators, stored year 0, counter 0. */
  function Fresh(): (r: State)
    ensures WellFormed(r)
    ensures Cleared(r) == r
  {
    State([], [], [], [], None, 0, [], [], None, None)
  }

  /** The values of a path, in order. */
  function Values(p: seq<Point>): (r: seq<real>)
    ensures |r| == |p|
  {
    seq(|p|, i requires 0 <= i < |p| => p[i].value)
  }

  /** Element-wise pairing of two equally long point arrays. */
  function Pairs(a: seq<Point>, b: seq<Point>): (r: seq<Segment>)
    requires |a| == |b|
    ensures |r| == |a|
    ensures forall i {:trigger r[i]} :: 0 <= i < |r| ==> r[i] == Segment(a[i], b[i])
  {
    if a == [] then [] else [Segment(a[0], b[0])] + Pairs(a[1..], b[1..])
  }

  /** The segment list of a path: the points without the last, joined with the points without the
      first. */
  function Segments(p: seq<Point>): (r: seq<Segment>)
    ensures |r| == if p == [] then 0 else |p| - 1
    ensures forall i {:trigger r[i]} :: 0 <= i < |r| ==> r[i] == Segment(p[i], p[i + 1])
  {
    if p == [] then [] else Pairs(p[..|p| - 1], p[1..])
  }

  /** Half-day position of a sample placed with day counter `day`: Feb 29 goes half a day before it. */
  function Position(day: int, d: Date): (pos: int)
    ensures 2 * day - 1 <= pos <= 2 * day
    ensures pos < 2 * day <==> IsLeapDay(d)
  {
    if IsLeapDay(d) then 2 * day - 1 else 2 * day
  }

  /** A change of calendar year: store the year, reset the counter to 0 and, when the current path
      is not empty, move it and its values to the end of the background, rebuild the background
      segments over the whole background and clear the current-year line. */
  function Flushed(s: State, year: int): (r: State)
    ensures r.background + r.current == s.background + s.current
    ensures r.backgroundValues + r.currentValues == s.backgroundValues + s.currentValues
    ensures r.current == [] && r.year == Some(year) && r.day == 0
    ensures r.marker == s.marker && r.title == s.title
    ensures s.current != [] ==>
      r.currentValues == [] && r.lineSegments == [] && r.bgSegments == Segments(r.background)
    ensures s.current == [] ==>
      r.currentValues == s.currentValues && r.lineSegments == s.lineSegments && r.bgSegments == s.bgSegments
  {
    if s.current == [] then s.(year := Some(year), day := 0)
    else
      var background := s.background + s.current;
      s.(background := background, backgroundValues := s.backgroundValues + s.currentValues,
         bgSegments := Segments(background),
         current := [], currentValues := [], lineSegments := [],
         year := Some(year), day := 0)
  }

  /** Places one sample with the counter in force: its value joins the value accumulator, its point
      joins the current path, whose segments are rebuilt; Feb 29 leaves the counter as it is; the
      point becomes the marker and the date the title. */
  function Placed(s: State, x: Sample): (r: State)
    ensures |r.current| == |s.current| + 1 && r.current[..|s.current|] == s.current
    ensures Last(r.current) == Point(Position(s.day, x.date), x.value)
    ensures r.currentValues == s.currentValues + [x.value]
    ensures r.lineSegments == Segments(r.current)
    ensures r.day == s.day + (if IsLeapDay(x.date) then 0 else 1)
    ensures r.background == s.background && r.backgroundValues == s.backgroundValues
    ensures r.bgSegments == s.bgSegments && r.year == s.year
    ensures r.marker == Some(Last(r.current)) && r.title == Some(x.date)
  {
    var p := Point(Position(s.day, x.date), x.value);
    s.(current := s.current + [p], currentValues := s.currentValues + [x.value],
       day := if IsLeapDay(x.date) then s.day else s.day + 1,
       lineSegments := Segments(s.current + [p]), marker := Some(p), title := Some(x.date))
  }

  /** One data frame: on a change of year flush first, then place the sample. */
  function Step(s: State, x: Sample): (r: State)
    ensures |r.current| + |r.background| == |s.current| + |s.background| + 1
    ensures r.year == Some(x.date.year) && r.current != []
    ensures Last(r.current).value == x.value && r.marker == Some(Last(r.current))
  {
    Placed(if s.year != Some(x.date.year) then Flushed(s, x.date.year) else s, x)
  }

  /** What `init` does: empty the four point and value accumulators and the two lines and the
      title; the stored year, the counter and the marker stay as they were. */
  function Cleared(s: State): (r: State)
    ensures r.current == [] && r.background == [] && r.currentValues == [] && r.backgroundValues == []
    ensures r.lineSegments == [] && r.bgSegments == [] && r.title == None
    ensures r.year == s.year && r.day == s.day && r.marker == s.marker
    ensures WellFormed(s) ==> WellFormed(r)
  {
    s.(current := [], currentValues := [], background := [], backgroundValues := [],
       lineSegments := [], bgSegments := [], title := None)
  }

  /** Frame t over the input: a data frame while samples remain, a pause frame after that. */
  function FrameStep(s: State, data: seq<Sample>, t: nat): (r: State)
    ensures t >= |data| ==> r == s
    ensures t < |data| ==> r.year == Some(data[t].date.year) && r.current != [] && Last(r.current).value == data[t].value
  {
    if t < |data| then Step(s, data[t]) else s
  }

  /** The data frames for the samples xs, in order, starting from s. */
  function Run(s: State, xs: seq<Sample>): (r: State)
    ensures |r.current| + |r.background| == |s.current| + |s.background| + |xs|
    ensures xs != [] ==> r.year == Some(Last(xs).date.year)
    decreases |xs|
  {
    if xs == [] then s else Step(Run(s, xs[..|xs| - 1]), Last(xs))
  }

  /** Frames 0 .. k-1 over the input, starting from s. */
  function Frames(s: State, data: seq<Sample>, k: nat): (r: State)
    ensures |r.current| + |r.background| ==
      |s.current| + |s.background| + (if k <= |data| then k else |data|)
  {
    if k == 0 then s else FrameStep(Frames(s, data, k - 1), data, k - 1)
  }

  /** The invariant every frame keeps: value arrays and segment lists agree with the point
      arrays, the counter is a count, and the marker, title and stored year belong to the last
      point placed. */
  ghost predicate WellFormed(s: State) {
    && s.currentValues == Values(s.current)
    && s.backgroundValues == Values(s.background)
    && s.lineSegments == Segments(s.current)
    && s.bgSegments == Segments(s.background)
    && s.day >= 0
    && (s.current != [] ==>
          s.marker == Some(Last(s.current)) && s.title.Some? && s.year == Some(s.title.value.year))
  }

  // ---------------------------------------------------------------------------------------------
  // Paths and segments

  lemma ValuesConcat(p: seq<Point>, q: seq<Point>)
    ensures Values(p + q) == Values(p) + Values(q)
  {
    assert forall i :: 0 <= i < |p + q| ==> Values(p + q)[i] == (Values(p) + Values(q))[i];
  }

  /** The segment list of two joined paths is both lists with the joining segment between them:
      rebuilding the background over the whole concatenation links one year's last point to the
      next year's first point. */
  lemma SegmentsJoin(p: seq<Point>, q: seq<Point>)
    requires p != [] && q != []
    ensures Segments(p + q) == Segments(p) + [Segment(Last(p), q[0])] + Segments(q)
  {
    var l, r := Segments(p + q), Segments(p) + [Segment(Last(p), q[0])] + Segments(q);
    assert |l| == |r|;
    forall i | 0 <= i < |l| ensures l[i] == r[i] {
      if i >= |p| {
        assert r[i] == Segments(q)[i - |p|];
      }
    }
  }

  /** Rebuilding the segments from the whole path after appending one point equals extending the
      previous segment list by one segment. */
  lemma SegmentsExtend(p: seq<Point>, x: Point)
    requires p != []
    ensures Segments(p + [x]) == Segments(p) + [Segment(Last(p), x)]
  {
    SegmentsJoin(p, [x]);
  }

  // ---------------------------------------------------------------------------------------------
  // One step

  /** The first sample of a run: the sentinel differs from every year, so the counter is reset
      to 0; the current path is empty, so nothing is flushed and the background stays empty. */
  lemma FirstSample(x: Sample)
    ensures Step(Fresh(), x).current == [Point(Position(0, x.date), x.value)]
    ensures Step(Fresh(), x).background == [] && Step(Fresh(), x).bgSegments == []
    ensures Step(Fresh(), x).year == Some(x.date.year)
    ensures Step(Fresh(), x).day == if IsLeapDay(x.date) then 0 else 1
  {
    var f := Fresh();
    var g := f.(year := Some(x.date.year));
    assert Step(f, x) == Placed(g, x);
    assert Placed(g, x).current == [] + [Point(Position(0, x.date), x.value)];
  }

  /** A sample of another year than the stored one: the counter is reset before the sample is
      placed, the old current path and values move to the end of the background (order kept,
      nothing lost or duplicated), and the current path holds only the new point. */
  lemma NewYearFlushes(s: State, x: Sample)
    requires s.year != Some(x.date.year)
    requires s.current != []
    ensures Step(s, x).background == s.background + s.current
    ensures Step(s, x).backgroundValues == s.backgroundValues + s.currentValues
    ensures Step(s, x).bgSegments == Segments(s.background + s.current)
    ensures Step(s, x).current == [Point(Position(0, x.date), x.value)]
    ensures Step(s, x).currentValues == [x.value]
    ensures Step(s, x).year == Some(x.date.year)
    ensures Step(s, x).day == if IsLeapDay(x.date) then 0 else 1
  {
  }

  /** A sample of the stored year extends the current path and leaves the background alone. */
  lemma SameYearExtends(s: State, x: Sample)
    requires s.year == Some(x.date.year)
    ensures Step(s, x).current == s.current + [Point(Position(s.day, x.date), x.value)]
    ensures Step(s, x).currentValues == s.currentValues + [x.value]
    ensures Step(s, x).background == s.background
    ensures Step(s, x).backgroundValues == s.backgroundValues
    ensures Step(s, x).bgSegments == s.bgSegments
    ensures Step(s, x).year == s.year
    ensures Step(s, x).day == s.day + (if IsLeapDay(x.date) then 0 else 1)
  {
  }

  /** The day-counter rule: with counter d in force (0 after a change of year), an ordinary day is
      placed at d and advances the counter to d+1; Feb 29 is placed half a day before d and leaves
      the counter at d. */
  lemma DayCounterRule(s: State, x: Sample)
    ensures var d := if s.year != Some(x.date.year) then 0 else s.day;
      && Last(Step(s, x).current).pos == (if IsLeapDay(x.date) then 2 * d - 1 else 2 * d)
      && Step(s, x).day == (if IsLeapDay(x.date) then d else d + 1)
  {
  }

  /** Every data frame adds exactly one point, the sample's value, to the current path and one
      value to its value accumulator; the marker is that point; the invariant is kept. */
  lemma StepKeepsWellFormed(s: State, x: Sample)
    requires WellFormed(s)
    ensures WellFormed(Step(s, x))
    ensures Step(s, x).marker == Some(Last(Step(s, x).current))
    ensures Last(Step(s, x).current).value == x.value
    ensures |Step(s, x).current| + |Step(s, x).background| == |s.current| + |s.background| + 1
  {
    var r := Step(s, x);
    if s.year != Some(x.date.year) && s.current != [] {
      ValuesConcat(s.background, s.current);
    } else {
      ValuesConcat(s.current, [r.current[|r.current| - 1]]);
    }
  }

  // ---------------------------------------------------------------------------------------------
  // Runs of steps

  lemma {:induction false} RunKeepsWellFormed(s: State, xs: seq<Sample>)
    requires WellFormed(s)
    ensures WellFormed(Run(s, xs))
    decreases |xs|
  {
    if xs != [] {
      RunKeepsWellFormed(s, xs[..|xs| - 1]);
      StepKeepsWellFormed(Run(s, xs[..|xs| - 1]), Last(xs));
    }
  }

  /** One step only ever appends to the background. */
  lemma StepBackgroundPrefix(s: State, x: Sample)
    ensures |s.background| <= |Step(s, x).background|
    ensures Step(s, x).background[..|s.background|] == s.background
  {
  }

  /** The background is append-only: whatever it held before a run is a prefix of what it holds
      after. */
  lemma {:induction false} BackgroundAppendOnly(s: State, xs: seq<Sample>)
    ensures |s.background| <= |Run(s, xs).background|
    ensures Run(s, xs).background[..|s.background|] == s.background
    decreases |xs|
  {
    if xs != [] {
      BackgroundAppendOnly(s, xs[..|xs| - 1]);
      var before, after := Run(s, xs[..|xs| - 1]), Run(s, xs);
      assert after == Step(before, Last(xs));
      StepBackgroundPrefix(before, Last(xs));
      assert after.background[..|s.background|] == before.background[..|s.background|];
    }
  }

  lemma {:induction false} RunCons(s: State, x: Sample, ys: seq<Sample>)
    ensures Run(s, [x] + ys) == Run(Step(s, x), ys)
    decreases |ys|
  {
    if ys == [] {
      assert ([x] + ys)[..0] == [];
    } else {
      assert ([x] + ys)[..|ys|] == [x] + ys[..|ys| - 1];
      RunCons(s, x, ys[..|ys| - 1]);
    }
  }

  /** The first k frames perform the data steps for the first k samples. */
  lemma {:induction false} FramesArePrefixRun(s: State, data: seq<Sample>, k: nat)
    requires k <= |data|
    ensures Frames(s, data, k) == Run(s, data[..k])
  {
    if k > 0 {
      FramesArePrefixRun(s, data, k - 1);
      assert Frames(s, data, k) == Step(Frames(s, data, k - 1), data[k - 1]);
      RunPrefixStep(s, data, k);
    }
  }

  /** The run over the first k samples is the run over the first k-1 followed by sample k-1. */
  lemma RunPrefixStep(s: State, data: seq<Sample>, k: nat)
    requires 0 < k <= |data|
    ensures Run(s, data[..k]) == Step(Run(s, data[..k - 1]), data[k - 1])
  {
    assert data[..k][..k - 1] == data[..k - 1];
    assert Last(data[..k]) == data[k - 1];
  }

  /** Pause frames change nothing: any number of frames at or past the end of the input leaves the
      state the last data frame produced, so the last year's path is never flushed. */
  lemma {:induction false} PauseFramesHold(s: State, data: seq<Sample>, k: nat)
    requires k >= |data|
    ensures Frames(s, data, k) == Run(s, data)
  {
    if k == |data| {
      FramesArePrefixRun(s, data, k);
      assert data[..k] == data;
    } else {
      PauseFramesHold(s, data, k - 1);
    }
  }

  // ---------------------------------------------------------------------------------------------
  // `init` between runs

  /** `init` restarts a run only when the stored year differs from the first sample's year:
      then the run ends exactly as a run from the initial state. */
  lemma {:induction false} InitRestartsOnNewYear(s: State, xs: seq<Sample>)
    requires xs != [] && s.year != Some(xs[0].date.year)
    ensures Run(Cleared(s), xs) == Run(Fresh(), xs)
  {
    assert Step(Cleared(s), xs[0]) == Step(Fresh(), xs[0]);
    assert xs == [xs[0]] + xs[1..];
    RunCons(Cleared(s), xs[0], xs[1..]);
    RunCons(Fresh(), xs[0], xs[1..]);
  }

  /** As written, `init` does not reset the stored year or the counter: a second run over the
      same two-day input continues the previous counter and places both days two days late. */
  lemma InitLeaksCounterAcrossRuns()
    ensures var x, y := Sample(Date(2021, 1, 1), 10.0), Sample(Date(2021, 1, 2), 100.0);
      && Run(Fresh(), [x, y]).current == [Point(0, 10.0), Point(2, 100.0)]
      && Run(Cleared(Run(Fresh(), [x, y])), [x, y]).current == [Point(4, 10.0), Point(6, 100.0)]
  {
    var x, y := Sample(Date(2021, 1, 1), 10.0), Sample(Date(2021, 1, 2), 100.0);
    var a := Step(Fresh(), x);
    assert a.current == [Point(0, 10.0)] && a.day == 1 && a.year == Some(2021) by {
      FirstSample(x);
    }
    var b := Step(a, y);
    assert b.current == [Point(0, 10.0), Point(2, 100.0)] && b.day == 2 && b.year == Some(2021) by {
      SameYearExtends(a, y);
      assert Position(1, y.date) == 2;
      AppendPoint(Point(0, 10.0), Point(2, 100.0));
    }
    var c := Step(Cleared(b), x);
    assert c.current == [Point(4, 10.0)] && c.day == 3 && c.year == Some(2021) by {
      SameYearExtends(Cleared(b), x);
      assert Position(2, x.date) == 4;
      assert [] + [Point(4, 10.0)] == [Point(4, 10.0)];
    }
    assert Step(c, y).current == [Point(4, 10.0), Point(6, 100.0)] by {
      SameYearExtends(c, y);
      assert Position(3, y.date) == 6;
      AppendPoint(Point(4, 10.0), Point(6, 100.0));
    }
    RunPair(Fresh(), x, y);
    RunPair(Cleared(b), x, y);
  }

  /** Two one-point paths joined. */
  lemma AppendPoint(p: Point, q: Point)
    ensures [p] + [q] == [p, q]
  {
  }

  /** A run of two samples is two steps. */
  lemma RunPair(s: State, x: Sample, y: Sample)
    ensures Run(s, [x, y]) == Step(Step(s, x), y)
  {
    assert [x][..0] == [];
    assert Run(s, [x]) == Step(s, x);
    assert [x, y][..1] == [x];
    assert Run(s, [x, y]) == Step(Run(s, [x]), y);
  }

  /** A reset that also restores the sentinel year and the counter. */
  function Restart(s: State): (r: State)
    ensures r.current == [] && r.background == [] && r.year == None && r.day == 0
  {
    Cleared(s).(year := None, day := 0)
  }

  /** With `Restart`, re-running any non-empty input gives the same state whatever the previous
      run left behind, and the same state as a run from the initial state. */
  lemma {:induction false} RestartMakesRunsRepeatable(s: State, xs: seq<Sample>)
    requires xs != []
    ensures Run(Restart(s), xs) == Run(Fresh(), xs)
  {
    InitRestartsOnNewYear(Restart(s), xs);
    assert Cleared(Restart(s)) == Restart(s);
  }
}
