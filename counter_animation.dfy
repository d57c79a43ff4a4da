/**
 * CounterAnimation: a statistics counter starts counting up the first time a
 * scroll finds it inside the viewport, and is marked `counted` at that moment
 * so that it is never started again.
 */
module CounterAnimation {
  import opened Utils

  /** One scroll: the counters' rectangles and the window size at that moment. */
  datatype Scroll = Scroll(rects: seq<Rect>, window: Window)

  /** Counter `i` is started by this scroll. */
  predicate Starts(counted: seq<bool>, s: Scroll, i: nat)
    requires i < |counted| == |s.rects|
  {
    IsInViewport(s.rects[i], s.window) && !counted[i]
  }

  /** The counters among the first `n` that a scroll starts, in page order. */
  function StartedAmong(counted: seq<bool>, s: Scroll, n: nat): (r: seq<nat>)
    requires n <= |counted| == |s.rects|
    ensures forall j :: 0 <= j < |r| ==> r[j] < n && Starts(counted, s, r[j])
    ensures forall i :: 0 <= i < n && Starts(counted, s, i) ==> i in r
    ensures forall j, k :: 0 <= j < k < |r| ==> r[j] < r[k]
  {
    if n == 0 then []
    else StartedAmong(counted, s, n - 1) + (if Starts(counted, s, n - 1) then [n - 1] else [])
  }

  /** The markers after one scroll: started counters become `counted`. */
  function CountedAfter(counted: seq<bool>, s: Scroll): (r: seq<bool>)
    requires |counted| == |s.rects|
    ensures |r| == |counted|
  {
    seq(|counted|, i requires 0 <= i < |counted| => counted[i] || IsInViewport(s.rects[i], s.window))
  }

  predicate Fits(n: nat, scrolls: seq<Scroll>) {
    forall k :: 0 <= k < |scrolls| ==> |scrolls[k].rects| == n
  }

  /** How many of the scrolls start counter `i`. */
  function TimesStarted(counted: seq<bool>, scrolls: seq<Scroll>, i: nat): nat
    requires Fits(|counted|, scrolls) && i < |counted|
    decreases |scrolls|
  {
    if scrolls == [] then 0
    else (if Starts(counted, scrolls[0], i) then 1 else 0)
         + TimesStarted(CountedAfter(counted, scrolls[0]), scrolls[1..], i)
  }

  /** Whatever the scrolls, a counter is started at most once, and never if it
      was already counted. */
  lemma {:induction false} StartedAtMostOnce(counted: seq<bool>, scrolls: seq<Scroll>, i: nat)
    requires Fits(|counted|, scrolls) && i < |counted|
    ensures TimesStarted(counted, scrolls, i) <= 1
    ensures counted[i] ==> TimesStarted(counted, scrolls, i) == 0
    decreases |scrolls|
  {
    if scrolls != [] {
      var next := CountedAfter(counted, scrolls[0]);
      StartedAtMostOnce(next, scrolls[1..], i);
      if Starts(counted, scrolls[0], i) {
        assert next[i];
      }
    }
  }

  /** The counters, captured once at start-up, as their `counted` markers. */
  class Counters {
    const counted: array<bool>

    constructor (initial: seq<bool>)
      ensures counted[..] == initial && fresh(counted)
    {
      counted := new bool[|initial|](i requires 0 <= i < |initial| => initial[i]);
    }

    /** The scroll listener: each counter in view and not yet counted is
        marked and its animation started; `started` lists those counters. */
    method OnScroll(rects: seq<Rect>, window: Window) returns (started: seq<nat>)
      requires |rects| == counted.Length
      modifies counted
      ensures started == StartedAmong(old(counted[..]), Scroll(rects, window), counted.Length)
      ensures counted[..] == CountedAfter(old(counted[..]), Scroll(rects, window))
    {
      ghost var before := counted[..];
      started := [];
      var i := 0;
      while i < counted.Length
        invariant 0 <= i <= counted.Length
        invariant started == StartedAmong(before, Scroll(rects, window), i)
        invariant forall k :: 0 <= k < i ==> counted[k] == (before[k] || IsInViewport(rects[k], window))
        invariant forall k :: i <= k < counted.Length ==> counted[k] == before[k]
      {
        if IsInViewport(rects[i], window) && !counted[i] {
          AnimateCounter(i);
          started := started + [i];
        }
        i := i + 1;
      }
      assert counted[..] == CountedAfter(before, Scroll(rects, window));
    }

    /** `animateCounter`: the counter is marked `counted` before its ticking
        starts. */
    method AnimateCounter(i: nat)
      requires i < counted.Length
      modifies counted
      ensures counted[..] == old(counted[..])[i := true]
    {
      counted[i] := true;
    }
  }
}
