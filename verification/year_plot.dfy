/** The sequencer as the program runs it: accumulators that `init` and `animate` update in place
    between frames. Each method is proved to perform the step of the YearWheel model. */
module Animation {
  import opened Wrappers
  import opened Calendar
  import opened YearWheel

  class YearPlot {
    /** The interpolated input rows, in date order. */
    const data: seq<Sample>

    var currentPoints: seq<Point>
    var currentValues: seq<real>
    var allPoints: seq<Point>
    var allValues: seq<real>
    var currentYear: Option<int>
    var currentDay: int
    /** What was last handed to the current-year line, the background line, the marker and the
        title. */
    var lineSegments: seq<Segment>
    var bgSegments: seq<Segment>
    var marker: Option<Point>
    var title: Option<Date>

    /** The fields as a value of the model. */
    function Snapshot(): State
      reads this
    {
      State(currentPoints, currentValues, allPoints, allValues, currentYear, currentDay,
            lineSegments, bgSegments, marker, title)
    }

    ghost predicate Valid()
      reads this
    {
      WellFormed(Snapshot())
    }

    /** The module-level initial values: empty arrays, stored year 0, counter 0. */
    constructor (data: seq<Sample>)
      ensures this.data == data
      ensures Snapshot() == Fresh() && Valid()
    {
      this.data := data;
      currentPoints, currentValues, allPoints, allValues := [], [], [], [];
      currentYear, currentDay := None, 0;
      lineSegments, bgSegments := [], [];
      marker, title := None, None;
    }

    /** Empties the four accumulators, both lines and the title; the stored year, the counter and
        the marker are left as they were. */
    method Init()
      requires Valid()
      modifies this
      ensures Valid()
      ensures Snapshot() == Cleared(old(Snapshot()))
      ensures currentYear == old(currentYear) && currentDay == old(currentDay)
    {
      currentValues := [];
      allValues := [];
      currentPoints := [];
      allPoints := [];
      lineSegments := [];
      bgSegments := [];
      title := None;
    }

    /** Frame t: while samples remain, one data step for sample t; afterwards a pause frame that
        changes nothing. */
    method Animate(t: nat)
      requires Valid()
      modifies this
      ensures Valid()
      ensures Snapshot() == FrameStep(old(Snapshot()), data, t)
      ensures t >= |data| ==> Snapshot() == old(Snapshot())
      ensures t < |data| ==> marker == Some(Last(currentPoints)) && Last(currentPoints).value == data[t].value
    {
      if t < |data| {
        DataFrame(data[t]);
        StepKeepsWellFormed(old(Snapshot()), data[t]);
      }
    }

    /** The data step for one sample. */
    method DataFrame(x: Sample)
      modifies this
      ensures Snapshot() == Step(old(Snapshot()), x)
    {
      if Some(x.date.year) != currentYear {
        StartYear(x.date.year);
      }
      Place(x.date, x.value);
    }

    /** A change of calendar year: store the year, reset the counter and, when the current path is
        not empty, move it to the background. */
    method StartYear(year: int)
      modifies this
      ensures Snapshot() == Flushed(old(Snapshot()), year)
    {
      currentYear, currentDay := Some(year), 0;
      if |currentPoints| > 0 {
        MoveToBackground();
      }
    }

    /** Moves the current path and its values to the end of the background, whose segments are
        rebuilt, and clears the current-year line. */
    method MoveToBackground()
      modifies this
      ensures allPoints == old(allPoints) + old(currentPoints)
      ensures allValues == old(allValues) + old(currentValues)
      ensures bgSegments == Segments(allPoints)
      ensures currentPoints == [] && currentValues == [] && lineSegments == []
      ensures currentYear == old(currentYear) && currentDay == old(currentDay)
      ensures marker == old(marker) && title == old(title)
    {
      if |allPoints| == 0 {
        allPoints := currentPoints;
        assert allPoints == old(allPoints) + old(currentPoints);
      } else {
        allPoints := allPoints + currentPoints;
      }
      bgSegments := Segments(allPoints);
      allValues := allValues + currentValues;
      currentPoints, currentValues := [], [];
      lineSegments := [];
    }

    /** Places one sample: its value joins the value accumulator; its point (Feb 29 half a day before
        the counter, which it then leaves unchanged) joins the current path, whose segments are
        rebuilt; the point becomes the marker and the date the title. */
    method Place(date: Date, r: real)
      modifies this
      ensures Snapshot() == Placed(old(Snapshot()), Sample(date, r))
    {
      currentValues := currentValues + [r];
      var pos;
      if IsLeapDay(date) {
        pos := 2 * currentDay - 1;
        currentDay := currentDay - 1;
      } else {
        pos := 2 * currentDay;
      }
      currentDay := currentDay + 1;
      Extend(Point(pos, r));
      title := Some(date);
      marker := Some(Point(pos, r));
    }

    /** Appends a point to the current path and rebuilds the segments of the current-year line. */
    method Extend(p: Point)
      modifies this
      ensures currentPoints == old(currentPoints) + [p] && lineSegments == Segments(currentPoints)
      ensures currentValues == old(currentValues) && currentDay == old(currentDay)
      ensures allPoints == old(allPoints) && allValues == old(allValues) && bgSegments == old(bgSegments)
      ensures currentYear == old(currentYear) && marker == old(marker) && title == old(title)
    {
      if |currentPoints| == 0 {
        currentPoints := [p];
      } else {
        currentPoints := currentPoints + [p];
      }
      lineSegments := Segments(currentPoints);
    }
  }
}
