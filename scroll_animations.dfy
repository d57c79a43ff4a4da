/**
 * ScrollAnimations: elements tagged for a fade-in entrance receive the
 * `visible` marker the first time they come into view, and keep it.
 */
module ScrollAnimations {
  import opened Config

  /** An element's document offset and outer height at the time of a check. */
  datatype Box = Box(top: int, height: int)

  /** One visibility check: the window's scroll position and height, and the
      geometry of every animated element at that moment. */
  datatype Check = Check(windowTop: int, windowHeight: int, boxes: seq<Box>)

  /** The element's top is more than the animation offset above the window's
      bottom edge, and its bottom edge is below the window's top. */
  predicate InView(b: Box, windowTop: int, windowHeight: int): (r: bool)
    ensures r <==> windowTop - b.height < b.top < windowTop + windowHeight - CONFIG.animationOffset
  {
    b.top + CONFIG.animationOffset < windowTop + windowHeight && b.top + b.height > windowTop
  }

  /** The markers after one check. */
  function Marked(visible: seq<bool>, c: Check): (r: seq<bool>)
    requires |c.boxes| == |visible|
    ensures |r| == |visible|
    ensures forall i :: 0 <= i < |visible| && visible[i] ==> r[i]
    ensures forall i :: 0 <= i < |visible| && !visible[i] ==> (r[i] <==> InView(c.boxes[i], c.windowTop, c.windowHeight))
  {
    seq(|visible|, i requires 0 <= i < |visible| => visible[i] || InView(c.boxes[i], c.windowTop, c.windowHeight))
  }

  predicate Fits(n: nat, checks: seq<Check>) {
    forall k :: 0 <= k < |checks| ==> |checks[k].boxes| == n
  }

  /** The markers after a sequence of checks (scrolls, resizes, the page's load event). */
  function AfterChecks(visible: seq<bool>, checks: seq<Check>): (r: seq<bool>)
    requires Fits(|visible|, checks)
    ensures |r| == |visible|
    decreases |checks|
  {
    if checks == [] then visible else AfterChecks(Marked(visible, checks[0]), checks[1..])
  }

  /** After any sequence of checks an element is marked exactly when it was
      marked before or was in view during one of them: a marker once set is
      never taken away. */
  lemma {:induction false} AfterChecksMarks(visible: seq<bool>, checks: seq<Check>, i: nat)
    requires Fits(|visible|, checks) && i < |visible|
    ensures AfterChecks(visible, checks)[i] <==>
      visible[i] || exists k :: 0 <= k < |checks| && InView(checks[k].boxes[i], checks[k].windowTop, checks[k].windowHeight)
    decreases |checks|
  {
    if checks != [] {
      var rest := checks[1..];
      AfterChecksMarks(Marked(visible, checks[0]), rest, i);
      if exists k :: 0 <= k < |checks| && InView(checks[k].boxes[i], checks[k].windowTop, checks[k].windowHeight) {
        var k :| 0 <= k < |checks| && InView(checks[k].boxes[i], checks[k].windowTop, checks[k].windowHeight);
        if k > 0 {
          assert rest[k - 1] == checks[k];
        }
      }
      if exists k :: 0 <= k < |rest| && InView(rest[k].boxes[i], rest[k].windowTop, rest[k].windowHeight) {
        var k :| 0 <= k < |rest| && InView(rest[k].boxes[i], rest[k].windowTop, rest[k].windowHeight);
        assert checks[k + 1] == rest[k];
      }
    }
  }

  /** An element at offset 1000 and 50 high is in view exactly when the
      window's bottom edge is below 1100 and its top above 1050. */
  lemma InViewExample(windowTop: int, windowHeight: int)
    ensures InView(Box(1000, 50), windowTop, windowHeight) <==> windowTop + windowHeight > 1100 && windowTop < 1050
  {
  }

  /** The animated elements, captured once at start-up, as their markers. */
  class AnimatedElements {
    const visible: array<bool>

    constructor (initial: seq<bool>)
      ensures visible[..] == initial && fresh(visible)
    {
      visible := new bool[|initial|](i requires 0 <= i < |initial| => initial[i]);
    }

    /** `checkVisibility`: every element in view gets the marker; none loses it. */
    method CheckVisibility(windowTop: int, windowHeight: int, boxes: seq<Box>)
      requires |boxes| == visible.Length
      modifies visible
      ensures visible[..] == Marked(old(visible[..]), Check(windowTop, windowHeight, boxes))
    {
      ghost var before := visible[..];
      var windowBottom := windowTop + windowHeight;
      var i := 0;
      while i < visible.Length
        invariant 0 <= i <= visible.Length
        invariant forall k :: 0 <= k < i ==> visible[k] == (before[k] || InView(boxes[k], windowTop, windowHeight))
        invariant forall k :: i <= k < visible.Length ==> visible[k] == before[k]
      {
        var elementTop := boxes[i].top;
        var elementHeight := boxes[i].height;
        if elementTop + CONFIG.animationOffset < windowBottom && elementTop + elementHeight > windowTop {
          visible[i] := true;
        }
        i := i + 1;
      }
      assert visible[..] == Marked(before, Check(windowTop, windowHeight, boxes));
    }

    /** `reset`: the marker removed from every animated element. */
    method Reset()
      modifies visible
      ensures forall i :: 0 <= i < visible.Length ==> !visible[i]
    {
      forall i | 0 <= i < visible.Length {
        visible[i] := false;
      }
    }
  }
}
