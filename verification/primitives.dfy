/** The frame edit primitives: trim, speed change and key-frame text overlay. Times are seconds;
    every time becomes a frame index as floor(time * fps). */
module Primitives {
  import opened Wrappers
  import opened Types
  import opened Sequences

  /** The frame index of a time: `Math.floor(time * fps)`. */
  function FrameAt(time: real, fps: real): int {
    (time * fps).Floor
  }

  /** The number of indices in [0, n) that lie in [lo, hi]. */
  function WindowCount(n: int, lo: int, hi: int): nat {
    var c := Min(n, hi + 1) - Max(lo, 0);
    if c < 0 then 0 else c
  }

  /** 1 on the indices of [lo, hi], 0 elsewhere. */
  function InWindow(lo: int, hi: int): int -> nat {
    i => if lo <= i <= hi then 1 else 0
  }

  lemma {:induction false} WindowCountSum(n: nat, lo: int, hi: int)
    ensures Sum(n, InWindow(lo, hi)) == WindowCount(n, lo, hi)
  {
    if n > 0 {
      WindowCountSum(n - 1, lo, hi);
    }
  }

  // ---------------------------------------------------------------------------------------------
  // applyTrim

  /** A missing start time becomes 0. */
  function TrimStartTime(startTime: Option<real>): real {
    startTime.GetOr(0.0)
  }

  /** A missing, zero or too-large end time becomes the clip duration. */
  function TrimEndTime(endTime: Option<real>, maxTime: real): real {
    if endTime.None? || endTime.value == 0.0 || endTime.value > maxTime then maxTime else endTime.value
  }

  /** The first frame a trim keeps. */
  function TrimFirst(startTime: Option<real>, fps: real): int {
    Max(0, FrameAt(TrimStartTime(startTime), fps))
  }

  /** The last frame a trim keeps. */
  function TrimLast(frames: seq<Frame>, endTime: Option<real>, fps: real): int
    requires fps > 0.0
  {
    Min(|frames| - 1, FrameAt(TrimEndTime(endTime, |frames| as real / fps), fps))
  }

  /** The trim predicate `index >= startFrame && index <= endFrame`, as a filter. */
  function KeepWindow(lo: int, hi: int): (int, Frame) -> seq<Frame> {
    (i, f) => if lo <= i <= hi then [f] else []
  }

  /** Filtering by an index window inside the sequence yields exactly the slice of that window. */
  lemma TrimLayout(frames: seq<Frame>, lo: int, hi: int)
    requires 0 <= lo && hi < |frames|
    ensures |Expand(frames, KeepWindow(lo, hi))| == if hi < lo then 0 else hi - lo + 1
    ensures forall k :: 0 <= k < |Expand(frames, KeepWindow(lo, hi))| ==> Expand(frames, KeepWindow(lo, hi))[k] == frames[lo + k]
  {
    var emit := KeepWindow(lo, hi);
    ExpandLength(frames, emit, InWindow(lo, hi));
    WindowCountSum(|frames|, lo, hi);
    forall k | 0 <= k < |Expand(frames, emit)|
      ensures Expand(frames, emit)[k] == frames[lo + k]
    {
      var i := lo + k;
      ExpandLength(frames[..i], emit, InWindow(lo, hi));
      WindowCountSum(i, lo, hi);
      ExpandAt(frames, emit, i, 0);
    }
  }

  /** `applyTrim`: defaults are substituted first; a window with start >= end leaves the input as
      it is, ids included; otherwise the frames of the inclusive index window are kept in order and
      re-numbered from 0. */
  function ApplyTrim(frames: seq<Frame>, startTime: Option<real>, endTime: Option<real>, fps: real): (r: seq<Frame>)
    requires fps > 0.0
    ensures |r| <= |frames|
    ensures TrimStartTime(startTime) >= TrimEndTime(endTime, |frames| as real / fps) ==> r == frames
    ensures TrimStartTime(startTime) < TrimEndTime(endTime, |frames| as real / fps) ==>
      var lo, hi := TrimFirst(startTime, fps), TrimLast(frames, endTime, fps);
      && |r| == (if hi < lo then 0 else hi - lo + 1)
      && forall k :: 0 <= k < |r| ==> r[k] == frames[lo + k].(id := k as real)
  {
    if TrimStartTime(startTime) >= TrimEndTime(endTime, |frames| as real / fps) then frames
    else
      var lo, hi := TrimFirst(startTime, fps), TrimLast(frames, endTime, fps);
      TrimLayout(frames, lo, hi);
      Reindex(Expand(frames, KeepWindow(lo, hi)))
  }

  // ---------------------------------------------------------------------------------------------
  // applySpeedChange

  /** The multiplier speeds the clip up. */
  predicate SpeedsUp(m: Option<real>) {
    m.Some? && m.value > 1.0
  }

  /** The decimation stride `Math.floor(m)` of a speed-up. */
  function Stride(m: Option<real>): (q: int)
    requires SpeedsUp(m)
    ensures q >= 1
  {
    m.value.Floor
  }

  /** The copies a slow-down inserts after each in-range frame, `Math.floor(1 / m) - 1`: none
      when the multiplier is absent (NaN in the source) or the count is negative. */
  function SlowCopies(m: Option<real>): nat
    requires m != Some(0.0)
  {
    if m.None? then 0
    else
      var d := (1.0 / m.value).Floor - 1;
      if d < 0 then 0 else d
  }

  /** The j-th copy of a frame, with the fractional id it carries until the final re-indexing. */
  function Duplicate(f: Frame, j: int): Frame {
    f.(id := f.id + (j + 1) as real * 0.1)
  }

  /** What the speed loop pushes for frame i. Indices are never negative here, where the
      source's `%` and Dafny's agree. */
  function SpeedEmit(lo: int, hi: int, m: Option<real>): (int, Frame) -> seq<Frame>
    requires m != Some(0.0)
  {
    (i, f) =>
      if !(lo <= i <= hi) then [f]
      else if SpeedsUp(m) then (if i % Stride(m) == 0 then [f] else [])
      else [f] + seq(SlowCopies(m), j => Duplicate(f, j))
  }

  /** Speed-up: 1 for a frame that survives, 0 for one that is dropped. */
  function SpeedUpKept(lo: int, hi: int, q: int): int -> nat
    requires q >= 1
  {
    i => if lo <= i <= hi && i % q != 0 then 0 else 1
  }

  /** Slow-down: the number of frames each input frame becomes. */
  function SlowDownWidth(lo: int, hi: int, c: nat): int -> nat {
    i => if lo <= i <= hi then 1 + c else 1
  }

  lemma {:induction false} SlowDownWidthSum(n: nat, lo: int, hi: int, c: nat)
    ensures Sum(n, SlowDownWidth(lo, hi, c)) == n + c * WindowCount(n, lo, hi)
  {
    if n > 0 {
      var w := SlowDownWidth(lo, hi, c);
      SlowDownWidthSum(n - 1, lo, hi, c);
      WindowCountSum(n, lo, hi);
      WindowCountSum(n - 1, lo, hi);
      var before, after := WindowCount(n - 1, lo, hi), WindowCount(n, lo, hi);
      assert Sum(n, w) == Sum(n - 1, w) + w(n - 1);
      assert Sum(n - 1, w) == n - 1 + c * before;
      if lo <= n - 1 <= hi {
        assert after == before + 1 && w(n - 1) == 1 + c;
        MulSucc(c, before);
      } else {
        assert after == before && w(n - 1) == 1;
      }
    }
  }

  lemma MulSucc(c: int, k: int)
    ensures c * (k + 1) == c * k + c
  {
  }

  /** The frames of a changed speed before re-indexing. */
  function SpeedPass(frames: seq<Frame>, startTime: real, endTime: real, m: Option<real>, fps: real): seq<Frame>
    requires m != Some(0.0)
  {
    Expand(frames, SpeedEmit(FrameAt(startTime, fps), FrameAt(endTime, fps), m))
  }

  lemma SpeedPassLength(frames: seq<Frame>, startTime: real, endTime: real, m: Option<real>, fps: real)
    requires m != Some(0.0)
    ensures var lo, hi := FrameAt(startTime, fps), FrameAt(endTime, fps);
      SpeedsUp(m) ==> |SpeedPass(frames, startTime, endTime, m, fps)| == Sum(|frames|, SpeedUpKept(lo, hi, Stride(m)))
    ensures var lo, hi := FrameAt(startTime, fps), FrameAt(endTime, fps);
      !SpeedsUp(m) ==> |SpeedPass(frames, startTime, endTime, m, fps)| == |frames| + SlowCopies(m) * WindowCount(|frames|, lo, hi)
  {
    var lo, hi := FrameAt(startTime, fps), FrameAt(endTime, fps);
    var emit := SpeedEmit(lo, hi, m);
    if SpeedsUp(m) {
      ExpandLength(frames, emit, SpeedUpKept(lo, hi, Stride(m)));
    } else {
      ExpandLength(frames, emit, SlowDownWidth(lo, hi, SlowCopies(m)));
      SlowDownWidthSum(|frames|, lo, hi, SlowCopies(m));
    }
  }

  /** `applySpeedChange`: the identity for a multiplier of exactly 1; otherwise in-range frames
      are decimated (speed-up) or followed by copies (slow-down), out-of-range frames pass, and the
      result is re-numbered from 0. It never empties a non-empty sequence, and a speed-up never
      lengthens it. */
  function ApplySpeedChange(frames: seq<Frame>, startTime: real, endTime: real, m: Option<real>, fps: real): (r: seq<Frame>)
    requires m != Some(0.0)
    ensures m == Some(1.0) ==> r == frames
    ensures m != Some(1.0) ==> Dense(r)
    ensures |frames| > 0 ==> |r| > 0
    ensures SpeedsUp(m) ==> |r| <= |frames|
    ensures SpeedsUp(m) ==> |r| == Sum(|frames|, SpeedUpKept(FrameAt(startTime, fps), FrameAt(endTime, fps), Stride(m)))
    ensures m != Some(1.0) && !SpeedsUp(m) ==>
      |r| == |frames| + SlowCopies(m) * WindowCount(|frames|, FrameAt(startTime, fps), FrameAt(endTime, fps))
  {
    if m == Some(1.0) then frames
    else
      var lo, hi := FrameAt(startTime, fps), FrameAt(endTime, fps);
      SpeedPassLength(frames, startTime, endTime, m, fps);
      if SpeedsUp(m) then
        SumAtMost(|frames|, SpeedUpKept(lo, hi, Stride(m)));
        if |frames| > 0 then
          SumGrows(0, |frames|, SpeedUpKept(lo, hi, Stride(m)));
          Reindex(SpeedPass(frames, startTime, endTime, m, fps))
        else
          Reindex(SpeedPass(frames, startTime, endTime, m, fps))
      else
        Reindex(SpeedPass(frames, startTime, endTime, m, fps))
  }

  /** Speed-up: a frame outside the window, or inside it at an index divisible by the stride,
      survives with its image, at the position given by the number of survivors before it; so the
      survivors keep their order. */
  lemma SpeedUpLayout(frames: seq<Frame>, startTime: real, endTime: real, m: Option<real>, fps: real, i: int)
    requires SpeedsUp(m) && 0 <= i < |frames|
    requires !(FrameAt(startTime, fps) <= i <= FrameAt(endTime, fps)) || i % Stride(m) == 0
    ensures var r := ApplySpeedChange(frames, startTime, endTime, m, fps);
      var p := Sum(i, SpeedUpKept(FrameAt(startTime, fps), FrameAt(endTime, fps), Stride(m)));
      && p < |r| && r[p] == frames[i].(id := p as real)
      && forall j :: i < j <= |frames| ==> p < Sum(j, SpeedUpKept(FrameAt(startTime, fps), FrameAt(endTime, fps), Stride(m)))
  {
    var lo, hi := FrameAt(startTime, fps), FrameAt(endTime, fps);
    var emit := SpeedEmit(lo, hi, m);
    var w := SpeedUpKept(lo, hi, Stride(m));
    ExpandLength(frames[..i], emit, w);
    ExpandAt(frames, emit, i, 0);
    forall j | i < j <= |frames|
      ensures Sum(i, w) < Sum(j, w)
    {
      SumGrows(i, j, w);
    }
  }

  /** Slow-down: input frame i starts at position i + c * (in-range frames before i), and an
      in-range frame is followed by its c copies, all with its image. */
  lemma SlowDownLayout(frames: seq<Frame>, startTime: real, endTime: real, m: Option<real>, fps: real, i: int, t: int)
    requires m != Some(0.0) && m != Some(1.0) && !SpeedsUp(m)
    requires 0 <= i < |frames|
    requires 0 <= t <= (if FrameAt(startTime, fps) <= i <= FrameAt(endTime, fps) then SlowCopies(m) else 0)
    ensures var r := ApplySpeedChange(frames, startTime, endTime, m, fps);
      var p := i + SlowCopies(m) * WindowCount(i, FrameAt(startTime, fps), FrameAt(endTime, fps));
      && p + t < |r| && SameImage(r[p + t], frames[i]) && r[p + t].id == (p + t) as real
  {
    var lo, hi := FrameAt(startTime, fps), FrameAt(endTime, fps);
    var emit := SpeedEmit(lo, hi, m);
    var c := SlowCopies(m);
    var f := frames[i];
    var chunk := emit(i, f);
    if lo <= i <= hi {
      assert chunk == [f] + seq(c, j => Duplicate(f, j));
    } else {
      assert chunk == [f];
    }
    assert SameImage(chunk[t], f);
    ExpandLength(frames[..i], emit, SlowDownWidth(lo, hi, c));
    SlowDownWidthSum(i, lo, hi, c);
    var p := i + c * WindowCount(i, lo, hi);
    assert |Expand(frames[..i], emit)| == p;
    ExpandAt(frames, emit, i, t);
    var pass := SpeedPass(frames, startTime, endTime, m, fps);
    assert pass[p + t] == chunk[t];
    assert ApplySpeedChange(frames, startTime, endTime, m, fps) == Reindex(pass);
  }

  // ---------------------------------------------------------------------------------------------
  // applyTextOverlay

  /** The key frames of an overlay: first, middle and last of the range, without repeats and
      below the sequence length. */
  function OverlayKeyFrames(n: int, startFrame: int, endFrame: int): (keys: seq<int>)
    ensures |keys| <= 3
    ensures forall a, b :: 0 <= a < b < |keys| ==> keys[a] != keys[b]
    ensures forall k :: k in keys <==>
      k < n && (k == startFrame || k == (startFrame + endFrame) / 2 || k == Min(endFrame, n - 1))
  {
    KeepFirst([startFrame, (startFrame + endFrame) / 2, Min(endFrame, n - 1)], k => k < n)
  }

  /** The frame before position i, `null` at the start. */
  function Before(s: seq<Frame>, i: int): Option<Frame>
    requires 0 <= i < |s|
  {
    if i > 0 then Some(s[i - 1]) else None
  }

  /** The frame after position i, `null` at the end. */
  function After(s: seq<Frame>, i: int): Option<Frame>
    requires 0 <= i < |s|
  {
    if i < |s| - 1 then Some(s[i + 1]) else None
  }

  /** What the callback returns for frame i of `frames`, given its neighbours there. */
  function EditOf(frames: seq<Frame>, p: Prompt, edit: Editor, i: int): Option<string>
    requires 0 <= i < |frames|
  {
    edit(frames[i], p, Before(frames, i), After(frames, i))
  }

  /** One key frame of an overlay: the original frame with new data, or no change when the callback
      fails. A negative index addresses no element of the array. */
  function OverlayKey(orig: seq<Frame>, p: Prompt, edit: Editor, k: int, cur: seq<Frame>): seq<Frame>
    requires |cur| == |orig|
  {
    if 0 <= k < |orig| then
      match EditOf(orig, p, edit, k)
      case Some(d) => cur[k := orig[k].(data := d)]
      case None => cur
    else cur
  }

  /** The overlay loop over the key frames; each `try` covers one key frame. */
  function OverlayKeys(orig: seq<Frame>, p: Prompt, edit: Editor, keys: seq<int>, cur: seq<Frame>): (r: seq<Frame>)
    requires |cur| == |orig|
    ensures |r| == |orig|
    ensures forall i :: 0 <= i < |r| ==>
      r[i] == if i in keys && EditOf(orig, p, edit, i).Some? then orig[i].(data := EditOf(orig, p, edit, i).value) else cur[i]
    decreases |keys|
  {
    if |keys| == 0 then cur
    else OverlayKeys(orig, p, edit, keys[1..], OverlayKey(orig, p, edit, keys[0], cur))
  }

  /** `applyTextOverlay`: the length is kept; a key frame whose edit succeeds gets the new data
      and keeps its id and type; every other frame, a key frame whose edit failed included, is
      unchanged. */
  function ApplyTextOverlay(frames: seq<Frame>, text: Option<Value>, position: Value, startTime: real,
                            duration: real, fps: real, edit: Editor): (r: seq<Frame>)
    ensures |r| == |frames|
    ensures forall i :: 0 <= i < |r| ==>
      var keys := OverlayKeyFrames(|frames|, FrameAt(startTime, fps), FrameAt(startTime + duration, fps));
      var e := EditOf(frames, OverlayText(text, position), edit, i);
      r[i] == if i in keys && e.Some? then frames[i].(data := e.value) else frames[i]
  {
    var keys := OverlayKeyFrames(|frames|, FrameAt(startTime, fps), FrameAt(startTime + duration, fps));
    OverlayKeys(frames, OverlayText(text, position), edit, keys, frames)
  }
}
