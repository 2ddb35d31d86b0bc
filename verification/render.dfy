/**
 `NikitaBlendPlugin::render`: checks the output clip's format, fetches the images,
 rejects mismatched formats, optionally swaps the two layers, and runs the processor
 (the average-colour reduction, then the composite kernel) over the render window.
 */
module Render {
  import opened Wrappers
  import opened Pixels
  import opened Geometry
  import opened Cancellation
  import opened Composite
  import opened Average
  import opened Clips
  import opened Identity

  /** Everything `render` reads from the host for one frame. `dst` and `src` are the
      images fetched from the output and source clips; `topImage` is what fetching the
      top-layer clip returns; `swapLayers` and `params` are the parameter values at the
      render time. */
  datatype RenderArgs = RenderArgs(
    context: Context,
    dstClipFormat: PixelFormat,
    dst: Frame,
    src: Frame,
    topConnected: bool,
    topImage: Option<Frame>,
    window: Rect,
    params: Params,
    swapLayers: bool)

  /** The suite status `render` throws. */
  datatype Status = ErrUnsupported | ErrValue

  /** Either a thrown status, or the output image together with the average colour the
      kernel read and whether both loops ran to the end of the window. */
  datatype RenderOutcome = Failed(status: Status) | Rendered(image: Image, avg: Color3, complete: bool)

  /** The top layer `render` fetches: the top-layer clip's image when that clip exists
      and is connected, the source clip's image otherwise. */
  function TopLayerFetched(args: RenderArgs): (top: Option<Frame>)
    ensures args.context == General && args.topConnected ==> top == args.topImage
    ensures args.context == Filter || !args.topConnected ==> top == Some(args.src)
  {
    if args.context == General && args.topConnected then args.topImage else Some(args.src)
  }

  /** A fetched top layer whose format differs from the output image's. */
  predicate TopMismatch(args: RenderArgs) {
    var top := TopLayerFetched(args);
    top.Some? && top.value.format != args.dst.format
  }

  /** The source and top layer handed to the processor, exchanged when `swapLayers` is
      set. After a swap the processor's source may be null. */
  function ProcessorLayers(args: RenderArgs): (layers: (Option<Frame>, Option<Frame>))
    ensures !args.swapLayers ==> layers.0 == Some(args.src) && layers.1 == TopLayerFetched(args)
    ensures args.swapLayers ==> layers.0 == TopLayerFetched(args) && layers.1 == Some(args.src)
    ensures layers.0.None? ==> args.swapLayers
    ensures {layers.0, layers.1} == {Some(args.src), TopLayerFetched(args)}
  {
    if args.swapLayers then (TopLayerFetched(args), Some(args.src))
    else (Some(args.src), TopLayerFetched(args))
  }

  /** The processor's run over window `w` once its images and parameters are set: the
      reduction (only when `useAvgColor` is set) feeds its average to the kernel. The run
      is complete when neither loop that ran was cut short by an abort; only then does
      every window pixel hold the kernel's value. */
  function Process(dst: Image, srcPix: Image, topPix: Image, w: Rect, p: Params,
                   reductionAborted: int -> bool, kernelAborted: int -> bool): (r: RenderOutcome)
    ensures r.Rendered?
    ensures r.avg == PreProcess(p, topPix, w, reductionAborted)
    ensures r.complete <==>
      (!p.useAvgColor || FirstAbort(reductionAborted, w.y1, w.y2) >= w.y2) && FirstAbort(kernelAborted, w.y1, w.y2) >= w.y2
    ensures r.image == CompositeWindow(dst, srcPix, topPix, w, p, r.avg, FirstAbort(kernelAborted, w.y1, w.y2))
    ensures forall c :: c in r.image ==> c in dst || InRect(c, w)
    ensures forall c :: c in dst && !InRect(c, w) ==> c in r.image && r.image[c] == dst[c]
    ensures !p.useAvgColor ==> r.avg == Zero3
    ensures r.complete ==> forall c :: InRect(c, w) ==>
      c in r.image && r.image[c] == ProcessPixel(Lookup(srcPix, c), Lookup(topPix, c), p, r.avg)
  {
    var avg := PreProcess(p, topPix, w, reductionAborted);
    var stop := FirstAbort(kernelAborted, w.y1, w.y2);
    var complete := (!p.useAvgColor || FirstAbort(reductionAborted, w.y1, w.y2) >= w.y2) && stop >= w.y2;
    Rendered(CompositeWindow(dst, srcPix, topPix, w, p, avg, stop), avg, complete)
  }

  /** The whole render action. `reductionAborted` and `kernelAborted` answer the abort
      polls of the average-colour reduction and of the composite kernel, row by row. */
  function Render(args: RenderArgs, reductionAborted: int -> bool, kernelAborted: int -> bool)
    : (r: RenderOutcome)
    ensures r == Failed(ErrUnsupported) <==> !Supported(args.dstClipFormat)
    ensures r == Failed(ErrValue) <==>
      Supported(args.dstClipFormat) && (TopMismatch(args) || args.src.format != args.dst.format)
    ensures r.Rendered? ==>
      var w, p := args.window, args.params;
      var srcPix := PixelsOf(ProcessorLayers(args).0);
      var topPix := PixelsOf(ProcessorLayers(args).1);
      var stop := FirstAbort(kernelAborted, w.y1, w.y2);
      && r.avg == PreProcess(p, topPix, w, reductionAborted)
      && (r.complete <==> (!p.useAvgColor || FirstAbort(reductionAborted, w.y1, w.y2) >= w.y2) && stop >= w.y2)
      && r.image == CompositeWindow(args.dst.pixels, srcPix, topPix, w, p, r.avg, stop)
      && (forall c :: c in r.image ==> c in args.dst.pixels || InRect(c, w))
      && (forall c :: c in args.dst.pixels && !InRect(c, w) ==> c in r.image && r.image[c] == args.dst.pixels[c])
      && (!p.useAvgColor ==> r.avg == Zero3)
      && (r.complete ==> forall c :: InRect(c, w) ==>
            c in r.image && r.image[c] == ProcessPixel(Lookup(srcPix, c), Lookup(topPix, c), p, r.avg))
  {
    if !Supported(args.dstClipFormat) then Failed(ErrUnsupported)
    else if TopMismatch(args) then Failed(ErrValue)
    else if args.src.format != args.dst.format then Failed(ErrValue)
    else
      var (srcFrame, topFrame) := ProcessorLayers(args);
      Process(args.dst.pixels, PixelsOf(srcFrame), PixelsOf(topFrame), args.window, args.params,
              reductionAborted, kernelAborted)
  }

  /** With the top-layer clip connected and delivering an image, swapping the layers
      renders what an unswapped render of the exchanged images would. */
  lemma SwapExchangesLayers(args: RenderArgs, t: Frame, reductionAborted: int -> bool, kernelAborted: int -> bool)
    requires args.context == General && args.topConnected && args.topImage == Some(t)
    requires args.swapLayers
    ensures Render(args, reductionAborted, kernelAborted)
         == Render(args.(src := t, topImage := Some(args.src), swapLayers := false), reductionAborted, kernelAborted)
  {
  }

  /** When the top layer falls back to the source image, swapping changes nothing. */
  lemma SwapIrrelevantWithoutTopClip(args: RenderArgs, reductionAborted: int -> bool, kernelAborted: int -> bool)
    requires args.context == Filter || !args.topConnected
    ensures Render(args.(swapLayers := true), reductionAborted, kernelAborted)
         == Render(args.(swapLayers := false), reductionAborted, kernelAborted)
  {
  }

  /** In the filter context every pixel is blended with itself. */
  lemma FilterContextBlendsSourceWithItself(args: RenderArgs, reductionAborted: int -> bool, kernelAborted: int -> bool, c: Coord)
    requires args.context == Filter
    requires Render(args, reductionAborted, kernelAborted).Rendered?
    requires Render(args, reductionAborted, kernelAborted).complete
    requires InRect(c, args.window)
    ensures Render(args, reductionAborted, kernelAborted).image[c]
         == ProcessPixel(Lookup(args.src.pixels, c), Lookup(args.src.pixels, c), args.params,
                         Render(args, reductionAborted, kernelAborted).avg)
  {
  }

  /** A connected top-layer clip that delivers no image makes the whole window
      transparent black, swapped or not: one of the processor's layers is null. */
  lemma MissingTopLayerBlanksWindow(args: RenderArgs, reductionAborted: int -> bool, kernelAborted: int -> bool, c: Coord)
    requires args.context == General && args.topConnected && args.topImage.None?
    requires Render(args, reductionAborted, kernelAborted).Rendered?
    requires Render(args, reductionAborted, kernelAborted).complete
    requires InRect(c, args.window)
    ensures Render(args, reductionAborted, kernelAborted).image[c] == Transparent
  {
  }

  /** A zero blend without clamping, unswapped, reproduces the source wherever both
      layers have a pixel, as the identity query assumes. */
  lemma BlendZeroRendersSource(args: RenderArgs, reductionAborted: int -> bool, kernelAborted: int -> bool, c: Coord)
    requires args.params.blend == 0.0 && !args.params.clamp && !args.swapLayers
    requires Render(args, reductionAborted, kernelAborted).Rendered?
    requires Render(args, reductionAborted, kernelAborted).complete
    requires InRect(c, args.window) && c in args.src.pixels && c in PixelsOf(TopLayerFetched(args))
    ensures Render(args, reductionAborted, kernelAborted).image[c] == args.src.pixels[c]
  {
    var r := Render(args, reductionAborted, kernelAborted);
    BlendZeroKeepsSource(args.src.pixels[c], PixelsOf(TopLayerFetched(args))[c], args.params, r.avg);
  }

  /** The identity query as written does not look at `swapLayers`: with the layers swapped
      and the top clip delivering an image, a zero blend renders the top layer, while the
      query tells the host to show the source instead. */
  lemma SwappedBlendZeroRendersTopLayer(args: RenderArgs, t: Frame, reductionAborted: int -> bool, kernelAborted: int -> bool,
                                        c: Coord, time: real)
    requires args.context == General && args.topConnected && args.topImage == Some(t)
    requires args.params.blend == 0.0 && !args.params.clamp && args.swapLayers
    requires Render(args, reductionAborted, kernelAborted).Rendered?
    requires Render(args, reductionAborted, kernelAborted).complete
    requires InRect(c, args.window) && c in args.src.pixels && c in t.pixels
    ensures Render(args, reductionAborted, kernelAborted).image[c] == t.pixels[c]
    ensures IsIdentityAsWritten(args.context, args.params.blend, args.topConnected, args.topImage.Some?, time)
         == PassThrough(Source, time)
  {
    var r := Render(args, reductionAborted, kernelAborted);
    BlendZeroKeepsSource(t.pixels[c], args.src.pixels[c], args.params, r.avg);
  }

  /** The image of the clip an identity answer names: the source clip's image, or what the
      top-layer clip delivers. */
  function ClipImage(args: RenderArgs, clip: ClipName): Option<Frame> {
    if clip == TopLayer then args.topImage else Some(args.src)
  }

  /** Whenever the blend is zero (without clamping) and a connected top-layer clip delivers
      an image, the corrected identity query names a clip whose pixel a complete render
      reproduces, wherever both layers have a pixel, swapped or not. */
  lemma IdentityClipIsRendered(args: RenderArgs, reductionAborted: int -> bool, kernelAborted: int -> bool,
                               c: Coord, time: real)
    requires args.params.blend == 0.0 && !args.params.clamp
    requires args.context == General && args.topConnected ==> args.topImage.Some?
    requires Render(args, reductionAborted, kernelAborted).Rendered?
    requires Render(args, reductionAborted, kernelAborted).complete
    requires InRect(c, args.window) && c in args.src.pixels && c in PixelsOf(TopLayerFetched(args))
    ensures var id := IsIdentity(args.context, 0.0, args.swapLayers, args.topConnected, args.topImage.Some?, time);
      && id.PassThrough?
      && ClipImage(args, id.clip).Some?
      && Render(args, reductionAborted, kernelAborted).image[c] == ClipImage(args, id.clip).value.pixels[c]
  {
    var r := Render(args, reductionAborted, kernelAborted);
    var layers := ProcessorLayers(args);
    var s, t := PixelsOf(layers.0), PixelsOf(layers.1);
    assert c in s && c in t;
    BlendZeroKeepsSource(s[c], t[c], args.params, r.avg);
  }

  /** Two images whose depths are different members outside the spelled-out ones still
      fail the source format test. */
  lemma UnknownDepthsStayDistinct(args: RenderArgs, i: nat, j: nat, reductionAborted: int -> bool, kernelAborted: int -> bool)
    requires Supported(args.dstClipFormat)
    requires i != j
    requires args.dst.format.depth == OtherDepth(i) && args.src.format.depth == OtherDepth(j)
    ensures Render(args, reductionAborted, kernelAborted) == Failed(ErrValue)
  {
  }
}
