# Nikita Blend — a Dafny model

This project models the core of the "Nikita Blend" OpenFX image effect. The effect
composites a top layer over a source image with its own blend mode. Each colour channel
of a source pixel is moved by the top pixel's alpha times the difference between the
source pixel's BT.709 luminance and a reference colour. The reference is the top pixel's
own channel, or the average colour of the top layer over the render window when
`useAvgColor` is set. The result is then mixed with the source by `blend` and optionally
clamped to [0,1]; alpha is copied from the source.

Modules, one per file, following the program's structure:

- `Pixels` (`pixels.dfy`): RGBA pixels over reals, `calcLuminance`, the clamp.
- `Geometry` (`geometry.dfy`): coordinates, the half-open render window, images as
  partial maps from coordinates to pixels, and the row-major scan order.
- `Cancellation` (`cancellation.dfy`): the abort poll at the start of each row, as an
  oracle `aborted(y)`, and the row where a loop stops.
- `Composite` (`composite.dfy`): the per-pixel kernel and `multiThreadProcessImages`
  over a window, as loops and as a pure reference image.
- `Average` (`average.dfy`): `calcAvgColor` and `preProcess`, as loops and as folds
  over the window's rows and columns.
- `Clips` (`clips.dfy`): contexts, clip names, pixel formats, fetched images.
- `Identity` (`identity.dfy`): `isIdentity`, as written and corrected.
- `Render` (`render.dfy`): `render`, from the format checks to the processor run.
- `Wrappers` (`wrappers.dfy`): `Option`, for pointers that may be null.

Floats are modelled as reals. A null image is the empty map, because the code treats
"no image" and "no pixel at this address" the same way. `setParams`
(`OFX-plugin/main.cpp:130-134`) is the `Composite.Params` record handed to the
kernel and the reduction.

Blending an opaque pixel over itself at full strength, without the average colour,
turns it into the grey of its own luminance. With the top pixel equal to the source
pixel and alpha 1, each channel becomes `src[c] + (lum - src[c])`. For opaque pure red
that is 0.2126 in every colour channel (`Composite.OpaqueRedOverItself`).

## Model

| member | source | states |
|---|---|---|
| Pixels.Clamp01 | OFX-plugin/main.cpp:110-112 | The clamped value lies in [0,1]. It equals the input when the input is already in [0,1]. It is the nearest point of [0,1] to the input. |
| Pixels.Luminance | OFX-plugin/main.cpp:136-138 | The BT.709 weights 0.2126, 0.7152 and 0.0722 add up to one. So a grey pixel's luminance is its channel value, and the luminance of colour channels in [0,1] lies in [0,1]. |
| Cancellation.FirstAbort | OFX-plugin/main.cpp:83-85 | The row where a row loop that polls abort stops. No row before it was aborted. It is either the end of the window or an aborted row. It never goes past the end. |
| Cancellation.FirstAbortUnique | OFX-plugin/main.cpp:83-85 | Any row meeting that characterisation is the stopping row, so the stopping row is determined by the polls. |
| Geometry.ScanMembers | OFX-plugin/main.cpp:83-90 | The loop nest over rows `[y1, stop)` visits exactly the window's coordinates in those rows. |
| Geometry.ScanRowMajor | OFX-plugin/main.cpp:83-90 | The visit order is strictly row-major: rows top to bottom, each row left to right. No coordinate is visited twice. |
| Geometry.ScanLength | OFX-plugin/main.cpp:83-90 | A full scan of a well-formed window visits width × height coordinates. |
| Geometry.SeparatedWindowsScanDisjoint | OFX-plugin/main.cpp:82-90 | Two separated windows handed to two workers are scanned over disjoint coordinates. |
| Composite.MixChannel | OFX-plugin/main.cpp:104-113 | The composite followed by the mix with the source by `blend` equals the source channel shifted by `blend × topAlpha × (luminance − reference)`. With clamping the written value is the clamp of that shifted value. |
| Composite.ProcessPixel | OFX-plugin/main.cpp:92-121 | A missing source or top pixel gives transparent black (0,0,0,0). Otherwise alpha is the source alpha. Each colour channel is `src + blend × top.a × (luminance(src) − reference)`, clamped to [0,1] when clamping is on, so that every channel is then in [0,1]. The reference is the average colour when `useAvgColor` is set and the top pixel's channel otherwise. |
| Composite.BlendZeroKeepsSource | OFX-plugin/main.cpp:104-108 | With `blend` 0 and no clamping, the source pixel is written unchanged, whatever the top pixel and the average are. |
| Composite.SelfBlendTowardsLuminance | OFX-plugin/main.cpp:104-108 | Blending a pixel over itself at `blend` 1 without the average moves each channel to `(1 − a) × channel + a × luminance`. |
| Composite.NeutralGreyFixedPoint | OFX-plugin/main.cpp:99-115 | A grey pixel blended over itself at `blend` 1 without the average is unchanged. With clamping this needs the grey level in [0,1]. |
| Composite.OpaqueSelfBlendDesaturates | OFX-plugin/main.cpp:99-115 | An opaque pixel blended over itself at `blend` 1 without clamping becomes the grey of its luminance. |
| Composite.OpaqueRedOverItself | OFX-plugin/main.cpp:99-115 | Opaque red over itself at `blend` 1 gives (0.2126, 0.2126, 0.2126, 1), with or without clamping. |
| Composite.AverageUnusedWhenOff | OFX-plugin/main.cpp:106-107 | With `useAvgColor` off, the average colour has no influence on the written pixel. |
| Composite.ProcessRow | OFX-plugin/main.cpp:90-124 | The inner loop writes exactly the columns `[x1, x2)` of its row, in left-to-right order. Each written value is the kernel's pixel for that coordinate. Every other pixel is unchanged. |
| Composite.ProcessWindow | OFX-plugin/main.cpp:82-125 | The loop stops at the first aborted row. It writes exactly the rows before that row, in row-major order, each pixel once, with the kernel's value. No pixel of a later row and no pixel outside the window changes. The result equals the reference image `CompositeWindow`. |
| Composite.TilesCommute | OFX-plugin/main.cpp:82-125 | Processing two windows in either order gives the same destination, so concurrent tiles need no ordering. |
| Composite.RowSplitComposes | OFX-plugin/main.cpp:82-125 | Splitting a window into an upper and a lower tile and processing both equals processing the whole window. |
| Composite.AverageIrrelevantWithoutTop | OFX-plugin/main.cpp:92-121 | Where the top layer has no pixel in the window, the average colour does not affect the output. |
| Average.RowCountZeroIff | OFX-plugin/main.cpp:146-156 | A row contributes no pixel to the count exactly when the top layer has no pixel in it. |
| Average.WindowCountZeroIff | OFX-plugin/main.cpp:142-157 | The count over the scanned rows is zero exactly when the top layer has no pixel in those rows. |
| Average.UniformAverage | OFX-plugin/main.cpp:140-163 | When the top layer has one colour over the window and at least one pixel was counted, the average is that colour. |
| Average.AverageWithinBounds | OFX-plugin/main.cpp:140-163 | Each channel of the average lies between the smallest and largest value of that channel over the top layer's pixels in the window. |
| Average.AccumulateRow | OFX-plugin/main.cpp:146-157 | The inner reduction loop adds exactly the row's top-layer pixels to the running sums and count. |
| Average.AccumulateNextRow | OFX-plugin/main.cpp:142-157 | After one more row, the running sums are those of all rows scanned so far. |
| Average.AccumulateWindow | OFX-plugin/main.cpp:142-158 | The reduction stops at the first aborted row. Its sums and count are those of the top-layer pixels in the rows before that row. |
| Average.CalcAvgColor | OFX-plugin/main.cpp:140-163 | The average is the channel sums divided by the count. The count is zero, so the code divides zero by zero, exactly when the scanned rows hold no top-layer pixel. |
| Average.PreProcess | OFX-plugin/main.cpp:77-80 | Without `useAvgColor` the average stays at its initial zero. With it, and a non-zero count, the average is the mean of the scanned rows. |
| Average.UniformTopLayerAverage | OFX-plugin/main.cpp:140-163 | A top layer of one colour, with at least one pixel among the scanned rows, yields that colour as `preProcess`'s average. |
| Average.ZeroCountAverageNeverRead | OFX-plugin/main.cpp:160-162 | When the reduction ran to the end of the window and counted nothing, the kernel's output is the same whatever stands in for the 0/0 average. |
| Identity.IsIdentityAsWritten | OFX-plugin/main.cpp:265-280 | As written, the query dereferences a null pointer in the filter context. In the general context it answers "pass the source through at the requested time" exactly when `blend` is 0 or a connected top clip delivers no image. |
| Identity.IsIdentity | OFX-plugin/main.cpp:265-280 | Corrected: it never dereferences null. It passes a clip through at the requested time exactly when `blend` is 0, or when in the general context a connected top clip delivers no image. The clip is the top layer exactly when the layers are swapped and a connected top clip delivers an image, and the source otherwise. |
| Identity.CorrectedAgreesInGeneralContext | OFX-plugin/main.cpp:265-280 | In the general context with the layers unswapped, the corrected query gives the code's answer. |
| Identity.FilterContextDereferencesNull | OFX-plugin/main.cpp:268-270 | In the filter context with `blend` 0, the code dereferences null, whereas the corrected query passes the source through. |
| Identity.SwappedIdentityPassesSource | OFX-plugin/main.cpp:272-276 | With the layers swapped, a top image present and `blend` 0, the code passes the source through, whereas the corrected query passes the top layer through. |
| Identity.FilterContextDependsOnBlendOnly | OFX-plugin/main.cpp:272-274 | In the filter context the corrected answer depends on `blend` alone. |
| Render.TopLayerFetched | OFX-plugin/main.cpp:217-221 | In the general context with the top clip connected, the top layer is what that clip delivers, possibly nothing. Otherwise it is the source image. |
| Render.ProcessorLayers | OFX-plugin/main.cpp:242-244 | Unswapped, the processor receives the source and the top layer. Swapped, it receives them exchanged. Its source is null only after a swap. |
| Render.Process | OFX-plugin/main.cpp:246-258 | The average the kernel reads is `preProcess`'s result over the top layer. The kernel's output is the reference image `CompositeWindow` up to the kernel's first aborted row. The run is complete exactly when the reduction (if it runs) and the kernel both reach the end of the window. The run writes only inside the window and leaves the rest of the destination unchanged. A complete run has the kernel's pixel everywhere in the window. |
| Render.Render | OFX-plugin/main.cpp:204-263 | The result is ErrUnsupported exactly when the output clip is not float RGBA; this check comes first. It is ErrValue exactly when the output clip is supported and a fetched top layer or the source has a format other than the output image's. Otherwise the result is the processor run over the processor's layers: the average, completeness, output image and window properties of `Process`. |
| Render.SwapExchangesLayers | OFX-plugin/main.cpp:242-244 | With a connected top clip delivering an image, a swapped render equals an unswapped render of the exchanged images. |
| Render.SwapIrrelevantWithoutTopClip | OFX-plugin/main.cpp:217-244 | When the top layer falls back to the source, swapping changes nothing. |
| Render.FilterContextBlendsSourceWithItself | OFX-plugin/main.cpp:217-221 | In the filter context every window pixel is the source pixel blended over itself. |
| Render.MissingTopLayerBlanksWindow | OFX-plugin/main.cpp:217-244 | A connected top clip that delivers no image makes a complete render transparent black over the whole window, swapped or not. |
| Render.BlendZeroRendersSource | OFX-plugin/main.cpp:272-277 | With `blend` 0, no clamping and no swap, a complete render reproduces the source wherever both layers have a pixel. This is what the identity query relies on. |
| Render.SwappedBlendZeroRendersTopLayer | OFX-plugin/main.cpp:242-244 | With the layers swapped and `blend` 0, the render shows the top layer. The identity query as written, which ignores `swapLayers`, instead passes the source through. |
| Render.IdentityClipIsRendered | OFX-plugin/main.cpp:265-280 | With `blend` 0, no clamping and a top image wherever a connected top clip is asked, the corrected identity query names a clip whose pixels a complete render reproduces, swapped or not. |
| Render.UnknownDepthsStayDistinct | OFX-plugin/main.cpp:234-240 | Source and output images whose depths are different members of the enumeration, even ones not spelled out, make `render` throw ErrValue. |

## Left out

- The plugin factory, descriptors, parameter definitions and host registration (`OFX-plugin/main.cpp:300-410`): host plumbing with no behaviour to prove.
- Fetching images from clips and their lifetime. `render`'s fetched images are inputs to `Render.Render`.
- Render.Render: the source and output images are assumed non-null. The code dereferences both without a check, so a null one is undefined behaviour, not an outcome.
- Render.Render: the destination is assumed to have an address for every pixel of the window. The code writes through `getPixelAddress` without checking it.
- The support library's `ImageProcessor::process`, which calls `preProcess` and splits the window into tiles for worker threads, is not part of this model. `Render.Process` runs the kernel over the whole window as one tile. `Composite.TilesCommute`, `Composite.RowSplitComposes` and `Geometry.SeparatedWindowsScanDisjoint` state why tiling does not change the result.
- Abort is a live host query in the code. Here it is an oracle per row, one for the reduction and one for the kernel.
- Composite.ProcessPixel: computes in exact reals, not 32-bit floats. Rounding, overflow to infinity and NaN propagation are not modelled, and the luminance weights add up to exactly one.
- Composite.Params: `blend` is held as a real. The narrowing of the host's double parameter to float in `setParams` is not modelled.
- Average.CalcAvgColor: the code keeps each channel's running sum in a single 32-bit float over the whole render window, so rounding error grows with the pixel count; over a full HD window the float mean of a uniform layer can be off by around two percent. `Average.UniformAverage`, `Average.AverageWithinBounds` and `Average.UniformTopLayerAverage` are facts about exact arithmetic, not about the float sums.
- Average.PreProcess: where the count is zero the code divides 0 by 0, which yields NaN in floats. The model returns the zero colour there instead. `Average.ZeroCountAverageNeverRead` shows the value is never read when the reduction was not aborted. After an aborted reduction the code's kernel could read NaN where the model reads zero.
- Average.CalcAvgColor: the code keeps the partial sums of an aborted reduction and divides them anyway. The model does the same, and `Render.Render` reports such a render as not complete.
- Clips.BitDepth and Clips.Components: a few members are spelled out. Every other member of the OpenFX enumerations is an `OtherDepth` or `OtherComponents` value with its own identifier, because the headers that define them are not part of this model. The equality tests of `render` still tell every member apart (`Render.UnknownDepthsStayDistinct`).
- The commented-out `changedClip` handler (`OFX-plugin/main.cpp:282-297`) is not compiled, so it is not modelled.
- Identity.IsIdentity: the clamp is not consulted. With `blend` 0 and clamping on, `render` would clamp out-of-range source values that the identity answer passes through unchanged. The model keeps the code's condition.

## Findings

| source | as written | input that shows it | evidently intended | confidence | as-written member | corrected member |
|---|---|---|---|---|---|---|
| OFX-plugin/main.cpp:268-270 | `isIdentity` always fetches from the top-layer clip. That clip pointer is null outside the general context (`OFX-plugin/main.cpp:195-196`), and the plugin declares the filter context (`OFX-plugin/main.cpp:325`). | A filter-context instance asked `isIdentity` at any time, with any `blend`, for example `blend` 0. | Fetch or inspect the top-layer clip only in the general context. Otherwise the answer depends on `blend` alone. | high, not executed | Identity.IsIdentityAsWritten (counterexample: Identity.FilterContextDereferencesNull) | Identity.IsIdentity |
| OFX-plugin/main.cpp:272-276 | With `blend` 0, `isIdentity` always names the source clip. It does not consult `swapLayers`, and with the layers swapped `render` uses the top layer as the processor's source (`OFX-plugin/main.cpp:242-244`). | General context, top clip connected and delivering an image, `swapLayers` on, `blend` 0. The host shows the source clip, while `render` would output the top layer. | Pass through the clip the processor would use as its source: the top layer when the layers are swapped and a top image is present. | medium, not executed | Identity.IsIdentityAsWritten (counterexample: Identity.SwappedIdentityPassesSource, Render.SwappedBlendZeroRendersTopLayer) | Identity.IsIdentity (property: Render.IdentityClipIsRendered) |
