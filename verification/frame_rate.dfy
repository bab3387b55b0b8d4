/** The frame-rate rule: frames per second from the sample count, the target duration and the
    output name, then a fixed pause of five seconds added after the data frames. */
module FrameRate {
  import opened Wrappers

  /** Seconds the last frame is held. */
  const PauseSeconds := 5

  /** The frame rate used when none is computed. */
  const DefaultFps := 60

  /** What Python raises when the rule cannot produce a frame rate. */
  datatype FpsError =
    | DivisionByZero   // ".mp4" with a target of exactly the pause length
    | FpsUnbound       // a target, but a name with neither ".mp4" nor ".gif"

  /** `s` begins with `prefix`. */
  predicate StartsWith(s: string, prefix: string) {
    |prefix| <= |s| && s[..|prefix|] == prefix
  }

  /** `sub` occurs somewhere in `s` (Python's `sub in s`). */
  predicate Contains(s: string, sub: string)
    ensures Contains(s, sub) ==> |sub| <= |s|
    decreases |s|
  {
    StartsWith(s, sub) || (s != [] && Contains(s[1..], sub))
  }

  /** A match at index i makes the `in` test true. */
  lemma {:induction false} ContainsAt(s: string, sub: string, i: nat)
    requires i <= |s| && StartsWith(s[i..], sub)
    ensures Contains(s, sub)
    decreases i
  {
    if i > 0 {
      assert s[1..][i - 1..] == s[i..];
      ContainsAt(s[1..], sub, i - 1);
    }
  }

  /** A true `in` test has a match at some index. */
  lemma {:induction false} ContainsWitness(s: string, sub: string) returns (i: nat)
    requires Contains(s, sub)
    ensures i <= |s| && StartsWith(s[i..], sub)
    decreases |s|
  {
    if StartsWith(s, sub) {
      i := 0;
      assert s[0..] == s;
    } else {
      var j := ContainsWitness(s[1..], sub);
      i := j + 1;
      assert s[1..][j..] == s[i..];
    }
  }

  /** Both directions: the `in` test holds exactly when `sub` starts at some index of `s`. */
  lemma ContainsIff(s: string, sub: string)
    ensures Contains(s, sub) <==> exists i :: 0 <= i <= |s| && StartsWith(s[i..], sub)
  {
    if Contains(s, sub) {
      var i := ContainsWitness(s, sub);
    }
    forall i | 0 <= i <= |s| && StartsWith(s[i..], sub) ensures Contains(s, sub) {
      ContainsAt(s, sub, i);
    }
  }

  /** Python's int(n / d) for a count n: the quotient truncated toward zero. */
  function TruncDiv(n: nat, d: int): (q: int)
    requires d != 0
    ensures d > 0 ==> 0 <= q && q * d <= n < (q + 1) * d
    ensures d < 0 ==> q <= 0 && -q * -d <= n < (-q + 1) * -d
  {
    if d > 0 then n / d else -(n / -d)
  }

  /** The frame rate for n samples, an optional target duration in seconds and the output path. */
  function Fps(n: nat, target: Option<int>, name: string): (r: Result<int, FpsError>)
    ensures r.Ok? ==> r.value >= 1
    ensures target.None? ==> r == Ok(DefaultFps)
  {
    match target
    case None => Ok(DefaultFps)
    case Some(seconds) =>
      var duration := seconds - PauseSeconds;
      if Contains(name, ".mp4") then
        if duration == 0 then Err(DivisionByZero)
        else var q := TruncDiv(n, duration); Ok(if q > 1 then q else 1)
      else if Contains(name, ".gif") then Ok(DefaultFps)
      else Err(FpsUnbound)
  }

  /** Frames of the final hold: at any positive rate, exactly `PauseSeconds` seconds of frames. */
  function PauseFrames(fps: int): (r: int)
    ensures fps >= 1 ==> r % fps == 0 && r / fps == PauseSeconds
  {
    PauseSeconds * fps
  }

  /** Whether the animation is written out at all: only a video or animated-image name makes the
      program save it, and only saving runs the frames. */
  predicate WritesAnimation(name: string)
    ensures WritesAnimation(name) ==> |name| >= 4
  {
    Contains(name, ".mp4") || Contains(name, ".gif")
  }

  /** Frames the animation is asked for: one per sample, then the pause. */
  function TotalFrames(n: nat, fps: int): (r: int)
    ensures fps >= 1 ==> r >= n + PauseSeconds
  {
    n + PauseFrames(fps)
  }
}

module FrameRateProperties {
  import opened Wrappers
  import opened YearWheel
  import opened FrameRate

  /** The rule fails exactly when Python raises: a division by zero for an ".mp4" name with a
      target equal to the pause, and an unbound frame rate for a target with a name that contains
      neither ".mp4" nor ".gif". */
  lemma FpsFailsExactly(n: nat, target: Option<int>, name: string)
    ensures Fps(n, target, name) == Err(DivisionByZero) <==>
      target.Some? && Contains(name, ".mp4") && target.value == PauseSeconds
    ensures Fps(n, target, name) == Err(FpsUnbound) <==>
      target.Some? && !Contains(name, ".mp4") && !Contains(name, ".gif")
  {
  }

  /** Whenever a frame rate is chosen it is at least one frame per second, the pause is five
      seconds of frames, and every sample gets a frame before the pause. */
  lemma FpsAtLeastOne(n: nat, target: Option<int>, name: string)
    requires Fps(n, target, name).Ok?
    ensures Fps(n, target, name).value >= 1
    ensures PauseFrames(Fps(n, target, name).value) >= PauseSeconds
    ensures TotalFrames(n, Fps(n, target, name).value) == n + PauseSeconds * Fps(n, target, name).value
  {
  }

  /** Without a target, or for an animated image, the frame rate is the fixed default. */
  lemma FixedFpsWithoutVideoTarget(n: nat, target: Option<int>, name: string)
    requires target.None? || (!Contains(name, ".mp4") && Contains(name, ".gif"))
    ensures Fps(n, target, name) == Ok(DefaultFps)
  {
  }

  /** For a video with a target T longer than the pause and at least one sample per second of
      data time, the frame rate is the largest that still shows the samples for at least T - 5
      seconds, so the whole animation lasts at least T seconds. */
  lemma VideoFpsMeetsTarget(n: nat, seconds: int, name: string)
    requires Contains(name, ".mp4") && seconds > PauseSeconds
    requires n >= seconds - PauseSeconds
    ensures var f := Fps(n, Some(seconds), name).value;
      && Fps(n, Some(seconds), name).Ok?
      && f * (seconds - PauseSeconds) <= n < (f + 1) * (seconds - PauseSeconds)
      && TotalFrames(n, f) >= seconds * f
  {
    var d := seconds - PauseSeconds;
    assert TruncDiv(n, d) >= 1;
  }

  /** Too few samples for the target, or a target shorter than the pause: the rate falls back to
      one frame per second. */
  lemma VideoFpsFloor(n: nat, seconds: int, name: string)
    requires Contains(name, ".mp4") && seconds != PauseSeconds
    requires seconds < PauseSeconds || n < seconds - PauseSeconds
    ensures Fps(n, Some(seconds), name) == Ok(1)
  {
  }

  /** When the animation is saved (a ".mp4" or ".gif" name), every one of the frames asked for is
      run, and its pause frames leave the last data frame's state on screen: the last year is still
      the current path, never flushed. */
  lemma AnimationEndsOnLastSample(data: seq<Sample>, target: Option<int>, name: string)
    requires WritesAnimation(name)
    requires Fps(|data|, target, name).Ok?
    ensures var total := TotalFrames(|data|, Fps(|data|, target, name).value);
      total > |data| && Frames(Fresh(), data, total) == Run(Fresh(), data)
  {
    FpsAtLeastOne(|data|, target, name);
    PauseFramesHold(Fresh(), data, TotalFrames(|data|, Fps(|data|, target, name).value));
  }
}

module FrameRateExample {
  import opened Wrappers
  import opened FrameRate

  /** The program's own invocation: a 65-second video, so the samples are spread over 60 seconds. */
  lemma SeattleInvocation(n: nat)
    requires n >= 60
    ensures Fps(n, Some(65), "output/seatac1948_1min.mp4") == Ok(n / 60)
  {
    var name := "output/seatac1948_1min.mp4";
    assert name[22..] == ".mp4";
    ContainsAt(name, ".mp4", 22);
  }
}
