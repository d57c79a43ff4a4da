/**
 * LazyLoad: images whose real address waits in a `data-src` attribute. With
 * native lazy loading every such image is given its address at once and
 * tagged `loading="lazy"`; otherwise each one is given its address, and loses
 * the attribute, on the first pass that finds it inside the viewport.
 */
module LazyLoad {
  import opened Wrappers
  import opened Utils

  /** An image's `src`, its `data-src` attribute if present, and whether it
      carries `loading="lazy"`. */
  datatype Image = Image(src: string, dataSrc: Option<string>, loadingLazy: bool)

  /** One pass of the fallback loader: the image rectangles and window size
      at that moment. */
  datatype Pass = Pass(rects: seq<Rect>, window: Window)

  /** The image promoted: its real address in `src`, the attribute gone. */
  function Promoted(img: Image): Image
    requires img.dataSrc.Some?
  {
    img.(src := img.dataSrc.value, dataSrc := None)
  }

  /** One image after a fallback pass. An image already promoted is left as
      it is: the loader sets its `src` once more from the value jQuery cached
      when it first read the attribute, which is the value `src` already has. */
  function Loaded(img: Image, r: Rect, w: Window): (out: Image)
    ensures !IsInViewport(r, w) || img.dataSrc.None? ==> out == img
    ensures IsInViewport(r, w) && img.dataSrc.Some? ==> out.src == img.dataSrc.value && out.dataSrc.None?
    ensures out.loadingLazy == img.loadingLazy
  {
    if IsInViewport(r, w) && img.dataSrc.Some? then Promoted(img) else img
  }

  /** All images after one fallback pass. */
  function LoadPass(imgs: seq<Image>, p: Pass): (r: seq<Image>)
    requires |p.rects| == |imgs|
    ensures |r| == |imgs|
  {
    seq(|imgs|, i requires 0 <= i < |imgs| => Loaded(imgs[i], p.rects[i], p.window))
  }

  predicate Fits(n: nat, passes: seq<Pass>) {
    forall k :: 0 <= k < |passes| ==> |passes[k].rects| == n
  }

  /** All images after a sequence of fallback passes (the first one at
      start-up, then one per throttled scroll or resize). */
  function AfterPasses(imgs: seq<Image>, passes: seq<Pass>): (r: seq<Image>)
    requires Fits(|imgs|, passes)
    ensures |r| == |imgs|
    decreases |passes|
  {
    if passes == [] then imgs else AfterPasses(LoadPass(imgs, passes[0]), passes[1..])
  }

  /** Whether image `i` was inside the viewport during one of the passes. */
  ghost predicate EverInView(passes: seq<Pass>, i: nat)
    requires forall k :: 0 <= k < |passes| ==> i < |passes[k].rects|
  {
    exists k :: 0 <= k < |passes| && IsInViewport(passes[k].rects[i], passes[k].window)
  }

  /** After any sequence of passes, an image that had a `data-src` and was
      ever in view ends up promoted from that original address; any other
      image is untouched. So an image that never came into view keeps its
      attribute, and its `src` changes at most once (later passes may write
      the same address again). */
  lemma {:induction false} PromotedOnce(imgs: seq<Image>, passes: seq<Pass>, i: nat)
    requires Fits(|imgs|, passes) && i < |imgs|
    ensures imgs[i].dataSrc.Some? && EverInView(passes, i) ==> AfterPasses(imgs, passes)[i] == Promoted(imgs[i])
    ensures !(imgs[i].dataSrc.Some? && EverInView(passes, i)) ==> AfterPasses(imgs, passes)[i] == imgs[i]
    decreases |passes|
  {
    if passes != [] {
      var rest := passes[1..];
      var next := LoadPass(imgs, passes[0]);
      PromotedOnce(next, rest, i);
      if next[i] != imgs[i] {
        // promoted by the first pass: later passes leave it alone
        assert next[i] == Promoted(imgs[i]);
        assert EverInView(passes, i);
      } else if EverInView(passes, i) && imgs[i].dataSrc.Some? {
        var k :| 0 <= k < |passes| && IsInViewport(passes[k].rects[i], passes[k].window);
        assert k > 0;
        assert rest[k - 1] == passes[k];
        assert EverInView(rest, i);
      } else if EverInView(rest, i) {
        var k :| 0 <= k < |rest| && IsInViewport(rest[k].rects[i], rest[k].window);
        assert passes[k + 1] == rest[k];
      }
    }
  }

  /** `loadImage`, the fallback pass over the images selected at start-up. */
  method LoadImages(lazyImages: array<Image>, rects: seq<Rect>, window: Window)
    requires |rects| == lazyImages.Length
    modifies lazyImages
    ensures lazyImages[..] == LoadPass(old(lazyImages[..]), Pass(rects, window))
  {
    ghost var before := lazyImages[..];
    var i := 0;
    while i < lazyImages.Length
      invariant 0 <= i <= lazyImages.Length
      invariant forall k :: 0 <= k < i ==> lazyImages[k] == Loaded(before[k], rects[k], window)
      invariant forall k :: i <= k < lazyImages.Length ==> lazyImages[k] == before[k]
    {
      var img := lazyImages[i];
      if IsInViewport(rects[i], window) {
        match img.dataSrc
        case Some(address) =>
          lazyImages[i] := img.(src := address, dataSrc := None);
        case None =>
      }
      i := i + 1;
    }
    assert lazyImages[..] == LoadPass(before, Pass(rects, window));
  }

  /** The native path: every image with a `data-src` gets that address and
      `loading="lazy"` at once, wherever it is; the attribute stays. */
  method PromoteAllNative(images: array<Image>)
    modifies images
    ensures forall i :: 0 <= i < images.Length && old(images[i]).dataSrc.Some? ==>
      images[i] == old(images[i]).(src := old(images[i]).dataSrc.value, loadingLazy := true)
    ensures forall i :: 0 <= i < images.Length && old(images[i]).dataSrc.None? ==> images[i] == old(images[i])
  {
    forall i | 0 <= i < images.Length && images[i].dataSrc.Some? {
      images[i] := images[i].(src := images[i].dataSrc.value, loadingLazy := true);
    }
  }

  /** `init`: the strategy is chosen once, by whether the browser supports
      native lazy loading; the fallback runs its first pass at once. */
  method Init(nativeSupported: bool, images: array<Image>, rects: seq<Rect>, window: Window)
    requires |rects| == images.Length
    modifies images
    ensures !nativeSupported ==> images[..] == LoadPass(old(images[..]), Pass(rects, window))
    ensures nativeSupported ==> forall i :: 0 <= i < images.Length && old(images[i]).dataSrc.Some? ==>
      images[i] == old(images[i]).(src := old(images[i]).dataSrc.value, loadingLazy := true)
    ensures nativeSupported ==> forall i :: 0 <= i < images.Length && old(images[i]).dataSrc.None? ==>
      images[i] == old(images[i])
  {
    if nativeSupported {
      PromoteAllNative(images);
    } else {
      LoadImages(images, rects, window);
    }
  }
}
