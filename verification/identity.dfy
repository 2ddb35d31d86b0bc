/**
 `NikitaBlendPlugin::isIdentity`: the host asks, before rendering a frame, whether the
 effect would leave its input untouched; a positive answer names the clip and time the
 host shows instead of calling `render`.
 */
module Identity {
  import opened Clips

  /** The answer to the identity query. `NullDereference` is the code calling a member
      through a null clip pointer, after which nothing is defined. */
  datatype IdentityOutcome = PassThrough(clip: ClipName, time: real) | Process | NullDereference

  /** The identity query as the code performs it. It first fetches the top-layer image to
      see whether the clip delivers one; but the top-layer clip pointer is only set in the
      general context and is null in the filter context, so the fetch dereferences null
      there whatever the blend value. `topFetched` says whether the fetch returned an
      image. */
  function IsIdentityAsWritten(ctx: Context, blend: real, topConnected: bool, topFetched: bool, time: real)
    : (r: IdentityOutcome)
    ensures r.NullDereference? <==> ctx == Filter
    ensures ctx == General ==>
      (r.PassThrough? <==> blend == 0.0 || (topConnected && !topFetched))
    ensures r.PassThrough? ==> r.clip == Source && r.time == time
  {
    if ctx == Filter then NullDereference
    else if blend == 0.0 || (topConnected && !topFetched) then PassThrough(Source, time)
    else Process
  }

  /** The identity query as the code evidently intends it. The effect passes a clip
      through when the blend is zero, or when a connected top-layer clip delivers no image;
      the filter context, having no top-layer clip, never needs to ask that clip. The clip
      passed through is the one the processor would use as its source: the top layer when
      the layers are swapped and the top-layer clip delivers an image, the source
      otherwise. */
  function IsIdentity(ctx: Context, blend: real, swapLayers: bool, topConnected: bool, topFetched: bool, time: real)
    : (r: IdentityOutcome)
    ensures !r.NullDereference?
    ensures r.PassThrough? <==> blend == 0.0 || (ctx == General && topConnected && !topFetched)
    ensures r.PassThrough? ==> r.time == time
    ensures r.PassThrough? ==>
      (r.clip == TopLayer <==> swapLayers && ctx == General && topConnected && topFetched)
    ensures r.PassThrough? ==> r.clip != Output
  {
    if blend == 0.0 || (ctx == General && topConnected && !topFetched) then
      PassThrough(if swapLayers && ctx == General && topConnected && topFetched then TopLayer else Source, time)
    else
      Process
  }

  /** In the general context, with the layers unswapped, the corrected query gives the
      code's answer. */
  lemma CorrectedAgreesInGeneralContext(blend: real, topConnected: bool, topFetched: bool, time: real)
    ensures IsIdentity(General, blend, false, topConnected, topFetched, time)
         == IsIdentityAsWritten(General, blend, topConnected, topFetched, time)
  {
  }

  /** In the filter context with the blend at zero the effect is an identity, but the code
      dereferences the null top-layer clip before it can say so. */
  lemma FilterContextDereferencesNull(swapLayers: bool, time: real)
    ensures IsIdentityAsWritten(Filter, 0.0, false, false, time) == NullDereference
    ensures IsIdentity(Filter, 0.0, swapLayers, false, false, time) == PassThrough(Source, time)
  {
  }

  /** In the filter context the corrected answer depends on the blend alone. */
  lemma FilterContextDependsOnBlendOnly(blend: real, swapLayers: bool, topConnected: bool, topFetched: bool, time: real)
    ensures IsIdentity(Filter, blend, swapLayers, topConnected, topFetched, time)
         == (if blend == 0.0 then PassThrough(Source, time) else Process)
  {
  }

  /** With the layers swapped and a top-layer image present, a zero blend makes the code
      pass the source through, where the corrected query passes the top layer through. */
  lemma SwappedIdentityPassesSource(time: real)
    ensures IsIdentityAsWritten(General, 0.0, true, true, time) == PassThrough(Source, time)
    ensures IsIdentity(General, 0.0, true, true, true, time) == PassThrough(TopLayer, time)
  {
  }
}
