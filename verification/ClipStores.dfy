/** The clip store's state changes, and what its clip chain instances mean
    (webrender/src/clip.rs; clients in webrender/src/prim_store/mod.rs). */
module ClipStores {
  import opened ClipChains
  import opened ClipItems
  import opened Geometry
  import opened Options

  datatype ClipChainNode = ClipChainNode(handle: nat, parent: Option<nat>)

  datatype ClipChainInstance = ClipChainInstance(
    first: nat, count: nat, hasNonLocalClips: bool, localClipRect: Rect, picClipRect: Rect, needsMask: bool)

  /** The three ways out of the store that are not modelled: picture and world mapping, either of
      which may fail, and the quick test for clips of other coordinate systems. */
  datatype Mappers = Mappers(toPic: Rect -> Option<Rect>, toWorld: Rect -> Option<Rect>,
      complex: Rect -> (nat -> ClipResult)) {

    function WorldRect(r: Rect): Option<Rect> {
      var pic := toPic(r);
      if pic.None? then None else toWorld(pic.value)
    }
  }

  predicate ActiveAdmits(s: ClipScene, prim: nat, a: Active, p: Point)
    requires a.rect.Some? ==> Converted(s, prim, a.infos)
  {
    a.rect.Some? && a.rect.value.Contains(p) && s.AllAdmit(prim, InfoHandles(a.infos), p)
  }

  ghost predicate Nothing(s: ClipScene, prim: nat, a: Active, primRect: Rect)
    requires a.rect.Some? ==> Converted(s, prim, a.infos)
  {
    forall p: Point :: primRect.Contains(p) ==> !ActiveAdmits(s, prim, a, p)
  }

  /** Region of the primitive that the active rectangle leaves. */
  function Region(a: Active, primRect: Rect): (r: Option<Rect>)
    ensures r.Some? ==> a.rect.Some? && !r.value.IsEmptyOrNegative()
  {
    if a.rect.None? then None else primRect.Intersection(a.rect.value)
  }

  datatype Built = Built(chain: Option<ClipChainInstance>, appended: seq<ClipNodeInstance>, drained: bool)

  function BuildChain(s: ClipScene, prim: nat, m: Mappers, a: Active, first: nat, primRect: Rect): Built
    requires a.rect.Some? ==> Converted(s, prim, a.infos)
  {
    var region := Region(a, primRect);
    if region.None? || m.WorldRect(region.value).None? then Built(None, [], false)
    else
      var o := Sift(s, prim, m.complex(m.WorldRect(region.value).value), region.value, a.infos);
      if o.rejected then Built(None, o.kept, true)
      else
        Built(Some(ClipChainInstance(first, |o.kept|, o.nonLocal, a.rect.value, m.toPic(region.value).value, o.mask)),
              o.kept, true)
  }

  /** The quick test for foreign clips is right for whatever region is asked about. */
  ghost predicate MappersSound(s: ClipScene, prim: nat, m: Mappers, hs: seq<nat>)
    requires s.Handles(prim, hs)
  {
    forall r: Rect :: m.WorldRect(r).Some? ==> ComplexSound(s, prim, m.complex(m.WorldRect(r).value), r, hs)
  }

  /** A primitive whose clips all live in its coordinate system asks nothing of the mappers. */
  lemma {:induction false} OneSystemSound(s: ClipScene, prim: nat, m: Mappers, hs: seq<nat>)
    requires s.Handles(prim, hs) && forall i :: 0 <= i < |hs| ==> s.SameSystem(prim, hs[i])
    ensures MappersSound(s, prim, m, hs)
  {
  }

  predicate ChainAdmits(s: ClipScene, prim: nat, c: ClipChainInstance, kept: seq<ClipNodeInstance>, p: Point)
    requires s.Handles(prim, InstanceHandles(kept))
  {
    c.localClipRect.Contains(p) && s.AllAdmit(prim, InstanceHandles(kept), p)
  }

  /** What a built chain promises about the active clips it was built from. */
  ghost predicate Reduces(s: ClipScene, prim: nat, a: Active, primRect: Rect, c: ClipChainInstance,
      kept: seq<ClipNodeInstance>) {
    && a.rect == Some(c.localClipRect) && Converted(s, prim, a.infos)
    && s.Handles(prim, InstanceHandles(kept))
    && Settled(s, prim, c.localClipRect, InstanceHandles(kept))
    && (forall k <- InstanceHandles(kept) :: k in InfoHandles(a.infos))
    && (forall p: Point :: primRect.Contains(p) ==> (ActiveAdmits(s, prim, a, p) <==> ChainAdmits(s, prim, c, kept, p)))
    && (!c.needsMask ==>
          forall p: Point :: primRect.Contains(p) ==> (ActiveAdmits(s, prim, a, p) <==> c.localClipRect.Contains(p)))
  }

  /** The reduced chain admits the same points of the primitive as the active clips; without a mask
      the local rectangle alone decides; and None means that a mapping failed or nothing shows. */
  lemma {:induction false} BuildMeaning(s: ClipScene, prim: nat, m: Mappers, a: Active, first: nat, primRect: Rect)
    requires a.rect.Some? ==>
               && Converted(s, prim, a.infos) && MappersSound(s, prim, m, InfoHandles(a.infos))
               && Settled(s, prim, a.rect.value, InfoHandles(a.infos))
    ensures var b := BuildChain(s, prim, m, a, first, primRect);
            match b.chain
            case Some(c) => Reduces(s, prim, a, primRect, c, b.appended)
            case None =>
              || Nothing(s, prim, a, primRect)
              || (Region(a, primRect).Some? && m.WorldRect(Region(a, primRect).value).None?)
  {
    var region := Region(a, primRect);
    if region.Some? && m.WorldRect(region.value).Some? {
      var complex := m.complex(m.WorldRect(region.value).value);
      var hs := InfoHandles(a.infos);
      SiftMeaning(s, prim, complex, region.value, a.infos);
      var o := Sift(s, prim, complex, region.value, a.infos);
      var ks := InstanceHandles(o.kept);
      assert forall p: Point :: region.value.Contains(p) <==> primRect.Contains(p) && a.rect.value.Contains(p);
      if !o.rejected {
        SettledSubset(s, prim, a.rect.value, hs, ks);
        if !o.mask {
          forall p: Point | region.value.Contains(p) ensures s.AllAdmit(prim, ks, p) {
            assert forall i :: 0 <= i < |ks| ==> s.Plain(prim, ks[i]);
          }
        }
      }
    }
  }

  /** The picture rectangle is where the picture shows what the local rectangle leaves of the primitive. */
  ghost predicate Mapped(m: Mappers, c: ClipChainInstance, primRect: Rect) {
    var region := primRect.Intersection(c.localClipRect);
    region.Some? && m.toPic(region.value) == Some(c.picClipRect)
  }

  /** What an instance writes down besides its clips: the mapped region, whether a clip of another spatial
      node was looked at, whether a kept clip needs a mask, and what each kept clip shares with the
      primitive. */
  ghost predicate Recorded(s: ClipScene, prim: nat, m: Mappers, c: ClipChainInstance, kept: seq<ClipNodeInstance>,
                           primRect: Rect, hs: seq<nat>)
    requires s.Handles(prim, hs)
  {
    && c.count == |kept| && Mapped(m, c, primRect)
    && (c.hasNonLocalClips <==> exists i :: 0 <= i < |hs| && s.clips[hs[i]].spatialNode != prim)
    && (c.needsMask <==> AnyMasks(s, prim, kept))
    && (forall i <- kept :: i.handle < |s.clips| && TrueFlags(s, prim, i))
  }

  /** Nothing is built: nothing is left of the primitive, a mapping fails, or the quick test rejects. */
  ghost predicate Refuses(s: ClipScene, prim: nat, m: Mappers, local: Option<Rect>, infos: seq<ClipNodeInfo>,
                          primRect: Rect)
    requires local.Some? ==> Converted(s, prim, infos)
  {
    || local.None? || primRect.Intersection(local.value).None?
    || (var region := primRect.Intersection(local.value).value;
        || m.toPic(region).None? || m.toWorld(m.toPic(region).value).None?
        || exists i :: 0 <= i < |infos| && TestedBy(s, prim, m, region, infos)[i].Reject?)
  }

  /** The quick test of each clip. */
  ghost function TestedBy(s: ClipScene, prim: nat, m: Mappers, region: Rect, infos: seq<ClipNodeInfo>)
    : (r: seq<ClipResult>)
    requires Converted(s, prim, infos) && !region.IsEmptyOrNegative()
    requires m.toPic(region).Some? && m.toWorld(m.toPic(region).value).Some?
    ensures |r| == |infos|
  {
    Results(s, prim, m.complex(m.toWorld(m.toPic(region).value).value), region, infos)
  }

  /** The clips that are kept are those that the quick test leaves open. */
  ghost predicate KeepsOpen(s: ClipScene, prim: nat, m: Mappers, c: ClipChainInstance, kept: seq<ClipNodeInstance>,
                            infos: seq<ClipNodeInfo>, primRect: Rect)
    requires Converted(s, prim, infos)
  {
    var region := primRect.Intersection(c.localClipRect);
    && region.Some? && m.toPic(region.value).Some? && m.toWorld(m.toPic(region.value).value).Some?
    && exists at :: SiftsExactly(infos, TestedBy(s, prim, m, region.value, infos),
                                 Sifted(false, kept, c.hasNonLocalClips, c.needsMask), at)
  }

  lemma {:induction false} BuildKeeps(s: ClipScene, prim: nat, m: Mappers, a: Active, first: nat, primRect: Rect)
    requires a.rect.Some? ==> Converted(s, prim, a.infos)
    ensures var b := BuildChain(s, prim, m, a, first, primRect);
            && (b.chain.None? <==> Refuses(s, prim, m, a.rect, a.infos, primRect))
            && (b.chain.Some? ==> KeepsOpen(s, prim, m, b.chain.value, b.appended, a.infos, primRect))
  {
    var region := Region(a, primRect);
    if region.Some? && m.WorldRect(region.value).Some? {
      var complex := m.complex(m.WorldRect(region.value).value);
      var at := SiftIsExact(s, prim, complex, region.value, a.infos);
      assert TestedBy(s, prim, m, region.value, a.infos) == Results(s, prim, complex, region.value, a.infos);
      var o := Sift(s, prim, complex, region.value, a.infos);
      if !o.rejected {
        assert SiftsExactly(a.infos, TestedBy(s, prim, m, region.value, a.infos),
                            Sifted(false, o.kept, o.nonLocal, o.mask), at);
      }
    }
  }

  lemma {:induction false} BuildRecords(s: ClipScene, prim: nat, m: Mappers, a: Active, first: nat, primRect: Rect)
    requires a.rect.Some? ==> Converted(s, prim, a.infos)
    ensures var b := BuildChain(s, prim, m, a, first, primRect);
            b.chain.Some? ==>
              && a.rect == Some(b.chain.value.localClipRect) && b.chain.value.first == first
              && Recorded(s, prim, m, b.chain.value, b.appended, primRect, InfoHandles(a.infos))
  {
    var region := Region(a, primRect);
    if region.Some? && m.WorldRect(region.value).Some? {
      var complex := m.complex(m.WorldRect(region.value).value);
      SiftFlags(s, prim, complex, region.value, a.infos);
      SiftMask(s, prim, complex, region.value, a.infos);
    }
  }

  /** The instance's range in the buffer `before`, its rectangles, and when there is none. */
  lemma {:induction false} ChainFields(s: ClipScene, prim: nat, m: Mappers, a: Active, before: seq<ClipNodeInstance>,
                                       primRect: Rect)
    requires a.rect.Some? ==> Converted(s, prim, a.infos)
    ensures var b := BuildChain(s, prim, m, a, |before|, primRect);
            && (b.chain.None? <==> Refuses(s, prim, m, a.rect, a.infos, primRect))
            && (b.chain.Some? ==>
                  var c := b.chain.value;
                  && a.rect == Some(c.localClipRect) && c.first == |before|
                  && c.first + c.count == |before + b.appended|
                  && (before + b.appended)[c.first..c.first + c.count] == b.appended
                  && Mapped(m, c, primRect))
  {
    BuildKeeps(s, prim, m, a, |before|, primRect);
    BuildRecords(s, prim, m, a, |before|, primRect);
  }

  lemma {:induction false} SettledSubset(s: ClipScene, prim: nat, rect: Rect, hs: seq<nat>, ks: seq<nat>)
    requires s.Handles(prim, hs) && s.Handles(prim, ks) && Settled(s, prim, rect, hs)
    requires forall k <- ks :: k in hs
    ensures Settled(s, prim, rect, ks)
  {
    forall i, p: Point | 0 <= i < |ks| && s.Plain(prim, ks[i]) && rect.Contains(p)
      ensures s.Admitted(prim, ks[i], p)
    {
      assert ks[i] in ks;
      var j :| 0 <= j < |hs| && hs[j] == ks[i];
    }
  }

  lemma {:induction false} MappersSoundSubset(s: ClipScene, prim: nat, m: Mappers, hs: seq<nat>, ks: seq<nat>)
    requires s.Handles(prim, hs) && s.Handles(prim, ks) && MappersSound(s, prim, m, hs)
    requires forall k <- ks :: k in hs
    ensures MappersSound(s, prim, m, ks)
  {
    forall r: Rect | m.WorldRect(r).Some?
      ensures ComplexSound(s, prim, m.complex(m.WorldRect(r).value), r, ks)
    {
      var complex := m.complex(m.WorldRect(r).value);
      forall i, p: Point | 0 <= i < |ks| && !s.SameSystem(prim, ks[i]) && r.Contains(p)
        ensures complex(ks[i]).Accept? ==> s.Admitted(prim, ks[i], p)
        ensures complex(ks[i]).Reject? ==> !s.Admitted(prim, ks[i], p)
      {
        assert ks[i] in ks;
        var j :| 0 <= j < |hs| && hs[j] == ks[i];
      }
    }
  }

  /** What the loop over the active clips ends with, given what it has and what is to come. */
  function After(kept: seq<ClipNodeInstance>, nonLocal: bool, mask: bool, rest: Sifted): Sifted {
    Sifted(rest.rejected, kept + rest.kept, nonLocal || rest.nonLocal, mask || rest.mask)
  }

  /** How one clip moves the loop on. */
  lemma {:induction false} AfterPut(result: ClipResult, item: ClipItemKind, info: ClipNodeInfo, rest: Sifted,
                 kept: seq<ClipNodeInstance>, nonLocal: bool, mask: bool)
    ensures var o := After(kept, nonLocal, mask, Put(result, item, info, rest));
            var far := nonLocal || !info.conversion.Local?;
            match result
            case Reject => o.rejected && o.kept == kept
            case Accept => o == After(kept, far, mask, rest)
            case Partial =>
              var i := CreateInstance(info);
              o == After(kept + [i], far, mask || WantsMask(item, i), rest)
  {
    assert kept + [] == kept;
    assert kept + ([CreateInstance(info)] + rest.kept) == (kept + [CreateInstance(info)]) + rest.kept;
  }

  function Behind(infos: seq<ClipNodeInfo>, rest: Active): Active {
    rest.(infos := infos + rest.infos)
  }

  lemma {:induction false} GatherStep(s: ClipScene, prim: nat, rect: Rect, hs: seq<nat>, infos: seq<ClipNodeInfo>)
    requires s.Handles(prim, hs) && hs != []
    ensures s.Handles(prim, hs[1..])
    ensures Behind(infos, Gather(s, prim, rect, hs)) ==
              match Narrow(s, prim, rect, hs[0])
              case None => Active(None, infos)
              case Some(r) =>
                Behind(infos + [ClipNodeInfo(Convert(s, prim, hs[0]), hs[0])], Gather(s, prim, r, hs[1..]))
  {
    var n := Narrow(s, prim, rect, hs[0]);
    if n.Some? {
      var info := ClipNodeInfo(Convert(s, prim, hs[0]), hs[0]);
      var rest := Gather(s, prim, n.value, hs[1..]);
      assert infos + ([info] + rest.infos) == (infos + [info]) + rest.infos;
    } else {
      assert infos + [] == infos;
    }
  }

  function ChainHandles(nodes: seq<ClipChainNode>, ids: seq<nat>): (hs: seq<nat>)
    requires forall i :: 0 <= i < |ids| ==> ids[i] < |nodes|
    ensures |hs| == |ids| && forall i :: 0 <= i < |ids| ==> hs[i] == nodes[ids[i]].handle
  {
    seq(|ids|, i requires 0 <= i < |ids| && ids[i] < |nodes| => nodes[ids[i]].handle)
  }

  /** The points that a rectangle and a list of clips leave. */
  ghost function Shown(s: ClipScene, prim: nat, rect: Rect, hs: seq<nat>): iset<Point>
    requires s.Handles(prim, hs)
  {
    iset p: Point | rect.Contains(p) && s.AllAdmit(prim, hs, p)
  }

  predicate MappingFails(m: Mappers, within: Option<Rect>, primRect: Rect) {
    var region := if within.None? then None else primRect.Intersection(within.value);
    region.Some? && m.WorldRect(region.value).None?
  }

  /** A chain instance with its kept clips tells the truth about the points of `region`: those that
      it admits are the ones of `shown`, and without a mask its rectangle alone decides. */
  ghost predicate Shows(s: ClipScene, prim: nat, c: ClipChainInstance, kept: seq<ClipNodeInstance>, region: Rect,
                        shown: iset<Point>, hs: seq<nat>) {
    && s.Handles(prim, InstanceHandles(kept))
    && (forall k <- InstanceHandles(kept) :: k in hs)
    && Settled(s, prim, c.localClipRect, InstanceHandles(kept))
    && (forall p: Point :: region.Contains(p) ==> (p in shown <==> ChainAdmits(s, prim, c, kept, p)))
    && (!c.needsMask ==> forall p: Point :: region.Contains(p) ==> (p in shown <==> c.localClipRect.Contains(p)))
  }

  ghost predicate HiddenOrFails(m: Mappers, within: Option<Rect>, region: Rect, shown: iset<Point>) {
    MappingFails(m, within, region) || forall p: Point :: region.Contains(p) ==> p !in shown
  }

  /** The whole reduction, from the list of clips to the chain instance. */
  lemma {:induction false} ReductionMeaning(s: ClipScene, prim: nat, m: Mappers, clipRect: Rect, hs: seq<nat>,
      first: nat, primRect: Rect)
    requires s.Handles(prim, hs) && MappersSound(s, prim, m, hs)
    ensures var a := Gather(s, prim, clipRect, hs);
            && (a.rect.Some? ==> Converted(s, prim, a.infos))
            && var b := BuildChain(s, prim, m, a, first, primRect);
              match b.chain
              case Some(c) => Shows(s, prim, c, b.appended, primRect, Shown(s, prim, clipRect, hs), hs)
              case None => HiddenOrFails(m, a.rect, primRect, Shown(s, prim, clipRect, hs))
  {
    var a := Gather(s, prim, clipRect, hs);
    GatherMeaning(s, prim, clipRect, hs);
    BuildMeaning(s, prim, m, a, first, primRect);
    assert a.rect.Some? ==> forall p: Point :: ActiveAdmits(s, prim, a, p) <==> p in Shown(s, prim, clipRect, hs);
  }

  /** The rectangle is what `clipRect` and the clips that bind have in common. */
  ghost predicate InCommon(s: ClipScene, prim: nat, rect: Rect, clipRect: Rect, hs: seq<nat>)
    requires s.Handles(prim, hs)
  {
    forall p: Point :: rect.Contains(p) <==>
      clipRect.Contains(p) && forall i :: 0 <= i < |hs| ==> BindsAt(s, prim, hs[i], p)
  }

  lemma {:induction false} ReductionRecords(s: ClipScene, prim: nat, m: Mappers, clipRect: Rect, hs: seq<nat>,
      first: nat, primRect: Rect)
    requires s.Handles(prim, hs)
    ensures var a := Gather(s, prim, clipRect, hs);
            && (a.rect.Some? ==> Converted(s, prim, a.infos))
            && var b := BuildChain(s, prim, m, a, first, primRect);
              b.chain.Some? ==>
                && Recorded(s, prim, m, b.chain.value, b.appended, primRect, hs)
                && InCommon(s, prim, b.chain.value.localClipRect, clipRect, hs)
  {
    var a := Gather(s, prim, clipRect, hs);
    GatherMeaning(s, prim, clipRect, hs);
    BuildRecords(s, prim, m, a, first, primRect);
    if a.rect.Some? {
      forall p: Point
        ensures a.rect.value.Contains(p) <==>
                clipRect.Contains(p) && forall i :: 0 <= i < |hs| ==> BindsAt(s, prim, hs[i], p)
      {
        GatherExactly(s, prim, clipRect, hs, p);
      }
    }
  }

  /** What is known of one segment of a primitive with the chain instance `c`. */
  ghost predicate SegmentShows(s: ClipScene, prim: nat, m: Mappers, c: ClipChainInstance, kept: seq<ClipNodeInstance>,
                               segment: Rect, r: Option<ClipChainInstance>, store: seq<ClipNodeInstance>)
    requires s.Handles(prim, InstanceHandles(kept))
  {
    match r
    case Some(d) =>
      d.first + d.count <= |store|
      && SegmentIs(s, prim, m, c, kept, segment, d, store[d.first..d.first + d.count])
    case None =>
      HiddenOrFails(m, Some(c.localClipRect), segment, Shown(s, prim, c.localClipRect, InstanceHandles(kept)))
  }

  /** The segment's instance `d`, whose clips are `own`. */
  ghost predicate SegmentIs(s: ClipScene, prim: nat, m: Mappers, c: ClipChainInstance, kept: seq<ClipNodeInstance>,
                            segment: Rect, d: ClipChainInstance, own: seq<ClipNodeInstance>)
    requires s.Handles(prim, InstanceHandles(kept))
  {
    var hs := InstanceHandles(kept);
    && Shows(s, prim, d, own, segment, Shown(s, prim, c.localClipRect, hs), hs)
    && d.localClipRect == c.localClipRect
    && Recorded(s, prim, m, d, own, segment, hs)
  }

  /** What is known of the first segments. */
  ghost predicate AllSegments(s: ClipScene, prim: nat, m: Mappers, c: ClipChainInstance, kept: seq<ClipNodeInstance>,
                              segments: seq<Rect>, rs: seq<Option<ClipChainInstance>>, store: seq<ClipNodeInstance>)
    requires s.Handles(prim, InstanceHandles(kept))
  {
    |rs| <= |segments| &&
    forall k :: 0 <= k < |rs| ==> SegmentShows(s, prim, m, c, kept, segments[k], rs[k], store)
  }

  lemma {:induction false} SegmentsGrow(s: ClipScene, prim: nat, m: Mappers, c: ClipChainInstance,
      kept: seq<ClipNodeInstance>, segments: seq<Rect>, rs: seq<Option<ClipChainInstance>>,
      store: seq<ClipNodeInstance>, r: Option<ClipChainInstance>, later: seq<ClipNodeInstance>)
    requires s.Handles(prim, InstanceHandles(kept)) && |rs| < |segments| && store <= later
    requires AllSegments(s, prim, m, c, kept, segments, rs, store)
    requires SegmentShows(s, prim, m, c, kept, segments[|rs|], r, later)
    ensures AllSegments(s, prim, m, c, kept, segments, rs + [r], later)
  {
    forall k | 0 <= k < |rs| + 1
      ensures SegmentShows(s, prim, m, c, kept, segments[k], (rs + [r])[k], later)
    {
      if k < |rs| {
        SegmentShowsLater(s, prim, m, c, kept, segments[k], rs[k], store, later);
      }
    }
  }

  lemma {:induction false} SegmentShowsLater(s: ClipScene, prim: nat, m: Mappers, c: ClipChainInstance,
      kept: seq<ClipNodeInstance>, segment: Rect, r: Option<ClipChainInstance>, store: seq<ClipNodeInstance>,
                              later: seq<ClipNodeInstance>)
    requires s.Handles(prim, InstanceHandles(kept))
    requires SegmentShows(s, prim, m, c, kept, segment, r, store) && store <= later
    ensures SegmentShows(s, prim, m, c, kept, segment, r, later)
  {
    if r.Some? {
      var d := r.value;
      assert store[d.first..d.first + d.count] == later[d.first..d.first + d.count];
    }
  }

  /** Reducing a reduced chain once more, for a part of the primitive, loses nothing. */
  lemma {:induction false} SegmentMeaning(s: ClipScene, prim: nat, m: Mappers, c: ClipChainInstance,
      kept: seq<ClipNodeInstance>, infos: seq<ClipNodeInfo>, store: seq<ClipNodeInstance>, segment: Rect)
    requires Converted(s, prim, infos) && InfoHandles(infos) == InstanceHandles(kept)
    requires Settled(s, prim, c.localClipRect, InstanceHandles(kept)) && MappersSound(s, prim, m, InstanceHandles(kept))
    ensures var b := BuildChain(s, prim, m, Active(Some(c.localClipRect), infos), |store|, segment);
            SegmentShows(s, prim, m, c, kept, segment, b.chain, store + b.appended)
  {
    var a := Active(Some(c.localClipRect), infos);
    BuildMeaning(s, prim, m, a, |store|, segment);
    BuildRecords(s, prim, m, a, |store|, segment);
    var b := BuildChain(s, prim, m, a, |store|, segment);
    SegmentFrom(s, prim, m, c, kept, infos, store, segment, b.chain, b.appended);
  }

  lemma {:induction false} SegmentFrom(s: ClipScene, prim: nat, m: Mappers, c: ClipChainInstance,
      kept: seq<ClipNodeInstance>, infos: seq<ClipNodeInfo>, store: seq<ClipNodeInstance>, segment: Rect,
      chain: Option<ClipChainInstance>, own: seq<ClipNodeInstance>)
    requires Converted(s, prim, infos) && InfoHandles(infos) == InstanceHandles(kept)
    requires var a := Active(Some(c.localClipRect), infos);
             match chain
             case Some(d) =>
               && Reduces(s, prim, a, segment, d, own) && Recorded(s, prim, m, d, own, segment, InfoHandles(infos))
               && d.first == |store|
             case None => Nothing(s, prim, a, segment) || MappingFails(m, Some(c.localClipRect), segment)
    ensures SegmentShows(s, prim, m, c, kept, segment, chain, store + own)
  {
    ActiveShown(s, prim, Active(Some(c.localClipRect), infos), InstanceHandles(kept));
    if chain.Some? {
      assert (store + own)[|store|..|store| + |own|] == own;
      SegmentBuilt(s, prim, m, c, kept, infos, segment, chain.value, own);
    }
  }

  lemma {:induction false} ActiveShown(s: ClipScene, prim: nat, a: Active, hs: seq<nat>)
    requires a.rect.Some? && Converted(s, prim, a.infos) && InfoHandles(a.infos) == hs
    ensures forall p: Point :: ActiveAdmits(s, prim, a, p) <==> p in Shown(s, prim, a.rect.value, hs)
  {
  }

  lemma {:induction false} SegmentBuilt(s: ClipScene, prim: nat, m: Mappers, c: ClipChainInstance,
      kept: seq<ClipNodeInstance>, infos: seq<ClipNodeInfo>, segment: Rect, d: ClipChainInstance,
      own: seq<ClipNodeInstance>)
    requires Converted(s, prim, infos) && InfoHandles(infos) == InstanceHandles(kept)
    requires Reduces(s, prim, Active(Some(c.localClipRect), infos), segment, d, own)
    requires Recorded(s, prim, m, d, own, segment, InfoHandles(infos))
    ensures SegmentIs(s, prim, m, c, kept, segment, d, own)
  {
    ActiveShown(s, prim, Active(Some(c.localClipRect), infos), InstanceHandles(kept));
  }

  /** Two reductions in a row still speak of the original clips, on the points of both regions. */
  lemma {:induction false} ReduceTwice(s: ClipScene, prim: nat, m: Mappers, c: ClipChainInstance,
      kept: seq<ClipNodeInstance>, primRect: Rect,
                    shown: iset<Point>, hs: seq<nat>, segment: Rect, r: Option<ClipChainInstance>,
                        store: seq<ClipNodeInstance>)
    requires Shows(s, prim, c, kept, primRect, shown, hs)
    requires SegmentShows(s, prim, m, c, kept, segment, r, store)
    ensures SegmentOfPrimitive(s, prim, m, c, primRect, shown, segment, r, store)
  {
    var hs' := InstanceHandles(kept);
    forall p: Point | primRect.Contains(p) && segment.Contains(p)
      ensures p in shown <==> p in Shown(s, prim, c.localClipRect, hs')
    {
      assert p in shown <==> ChainAdmits(s, prim, c, kept, p);
    }
  }

  /** The points of the primitive inside the segment, told from the original clips. */
  ghost predicate SegmentOfPrimitive(s: ClipScene, prim: nat, m: Mappers, c: ClipChainInstance, primRect: Rect,
                                     shown: iset<Point>, segment: Rect, r: Option<ClipChainInstance>,
                                     store: seq<ClipNodeInstance>) {
    match r
    case Some(d) =>
      && d.first + d.count <= |store|
      && var kept := store[d.first..d.first + d.count];
         && s.Handles(prim, InstanceHandles(kept))
         && (forall p: Point :: primRect.Contains(p) && segment.Contains(p) ==>
               (p in shown <==> ChainAdmits(s, prim, d, kept, p)))
         && (!d.needsMask ==> forall p: Point :: primRect.Contains(p) && segment.Contains(p) ==>
               (p in shown <==> d.localClipRect.Contains(p)))
    case None =>
      || MappingFails(m, Some(c.localClipRect), segment)
      || forall p: Point :: primRect.Contains(p) && segment.Contains(p) ==> p !in shown
  }

  /** All segments of a primitive, from the clips that it started from. */
  lemma {:induction false} ReduceAllTwice(s: ClipScene, prim: nat, m: Mappers, c: ClipChainInstance,
      kept: seq<ClipNodeInstance>, primRect: Rect, shown: iset<Point>, hs: seq<nat>, segments: seq<Rect>,
      rs: seq<Option<ClipChainInstance>>, store: seq<ClipNodeInstance>)
    requires Shows(s, prim, c, kept, primRect, shown, hs)
    requires AllSegments(s, prim, m, c, kept, segments, rs, store)
    ensures forall k :: 0 <= k < |rs| ==>
              SegmentOfPrimitive(s, prim, m, c, primRect, shown, segments[k], rs[k], store)
  {
    forall k | 0 <= k < |rs|
      ensures SegmentOfPrimitive(s, prim, m, c, primRect, shown, segments[k], rs[k], store)
    {
      ReduceTwice(s, prim, m, c, kept, primRect, shown, hs, segments[k], rs[k], store);
    }
  }

  class ClipStore {
    var clipChainNodes: seq<ClipChainNode>
    var clipNodeInstances: seq<ClipNodeInstance>
    var activeClipNodeInfo: seq<ClipNodeInfo>
    var activeLocalClipRect: Option<Rect>

    function ActiveClips(): Active
      reads this
    {
      Active(activeLocalClipRect, activeClipNodeInfo)
    }

    predicate Known(s: ClipScene, prim: nat, ids: seq<nat>)
      reads this
    {
      && (forall i :: 0 <= i < |ids| ==> ids[i] < |clipChainNodes|)
      && s.Handles(prim, ChainHandles(clipChainNodes, ids))
    }

    method AddClipChainNode(handle: nat, parent: Option<nat>) returns (id: nat)
      modifies this`clipChainNodes
      ensures id == |old(clipChainNodes)| && clipChainNodes == old(clipChainNodes) + [ClipChainNode(handle, parent)]
    {
      id := |clipChainNodes|;
      clipChainNodes := clipChainNodes + [ClipChainNode(handle, parent)];
    }

    /** Returns false if nothing of the rectangle is left. */
    method AddClipNodeToCurrentChain(s: ClipScene, prim: nat, h: nat, rect: Rect) returns (ok: bool, narrowed: Rect)
      requires s.Valid() && prim < |s.nodes| && h < |s.clips|
      modifies this`activeClipNodeInfo
      ensures ok == Narrow(s, prim, rect, h).Some?
      ensures ok ==> narrowed == Narrow(s, prim, rect, h).value
      ensures activeClipNodeInfo == old(activeClipNodeInfo) + if ok then [ClipNodeInfo(Convert(s, prim, h), h)] else []
    {
      narrowed := rect;
      var conversion := Convert(s, prim, h);
      var clip := GetLocalClipRect(s.clips[h].item);
      if clip.Some? {
        match conversion
        case Local =>
          var r := rect.Intersection(clip.value);
          if r.None? { return false, rect; }
          narrowed := r.value;
        case ByScaleOffset(t) =>
          var r := rect.Intersection(t.MapRect(clip.value));
          if r.None? { return false, rect; }
          narrowed := r.value;
        case ByTransform =>
      }
      activeClipNodeInfo := activeClipNodeInfo + [ClipNodeInfo(conversion, h)];
      ok := true;
    }

    method SetActiveClips(s: ClipScene, rect: Rect, prim: nat, ids: seq<nat>)
      requires Known(s, prim, ids)
      modifies this`activeClipNodeInfo, this`activeLocalClipRect
      ensures ActiveClips() == Gather(s, prim, rect, ChainHandles(clipChainNodes, ids))
    {
      ghost var hs := ChainHandles(clipChainNodes, ids);
      activeClipNodeInfo := [];
      activeLocalClipRect := None;
      var local := rect;
      for i := 0 to |ids|
        modifies this`activeClipNodeInfo
        invariant activeLocalClipRect == None
        invariant Gather(s, prim, rect, hs) == Behind(activeClipNodeInfo, Gather(s, prim, local, hs[i..]))
      {
        GatherStep(s, prim, local, hs[i..], activeClipNodeInfo);
        assert hs[i..][1..] == hs[i + 1..];
        var ok, narrowed := AddClipNodeToCurrentChain(s, prim, clipChainNodes[ids[i]].handle, local);
        if !ok { return; }
        local := narrowed;
      }
      activeLocalClipRect := Some(local);
    }

    predicate InStore(c: ClipChainInstance)
      reads this
    {
      c.first + c.count <= |clipNodeInstances|
    }

    /** The clips that a chain instance refers to. */
    function Clips(c: ClipChainInstance): seq<ClipNodeInstance>
      requires InStore(c)
      reads this
    {
      clipNodeInstances[c.first..c.first + c.count]
    }

    method SetActiveClipsFromClipChain(c: ClipChainInstance, prim: nat, s: ClipScene)
      requires InStore(c) && s.Handles(prim, InstanceHandles(Clips(c)))
      modifies this`activeClipNodeInfo, this`activeLocalClipRect
      ensures activeLocalClipRect == Some(c.localClipRect)
      ensures InfoHandles(activeClipNodeInfo) == InstanceHandles(Clips(c))
      ensures Converted(s, prim, activeClipNodeInfo)
    {
      activeClipNodeInfo := [];
      activeLocalClipRect := Some(c.localClipRect);
      var range := Clips(c);
      assert forall k :: 0 <= k < |range| ==> InstanceHandles(range)[k] < |s.clips|;
      for i := 0 to |range|
        modifies this`activeClipNodeInfo
        invariant |activeClipNodeInfo| == i
        invariant forall k :: 0 <= k < i ==>
          activeClipNodeInfo[k] == ClipNodeInfo(Convert(s, prim, range[k].handle), range[k].handle)
      {
        var h := range[i].handle;
        assert InstanceHandles(range)[i] == h;
        activeClipNodeInfo := activeClipNodeInfo + [ClipNodeInfo(Convert(s, prim, h), h)];
      }
    }

    /** The loop over the active clips; `rejected` is its early return. */
    method SiftActive(s: ClipScene, prim: nat, complex: nat -> ClipResult, region: Rect)
      returns (rejected: bool, nonLocal: bool, mask: bool)
      requires Converted(s, prim, activeClipNodeInfo) && !region.IsEmptyOrNegative()
      modifies this`activeClipNodeInfo, this`clipNodeInstances
      ensures activeClipNodeInfo == []
      ensures var o := Sift(s, prim, complex, region, old(activeClipNodeInfo));
              && rejected == o.rejected && clipNodeInstances == old(clipNodeInstances) + o.kept
              && (!rejected ==> nonLocal == o.nonLocal && mask == o.mask)
    {
      ghost var o := Sift(s, prim, complex, region, activeClipNodeInfo);
      ghost var kept: seq<ClipNodeInstance> := [];
      nonLocal, mask := false, false;
      while activeClipNodeInfo != []
        invariant Converted(s, prim, activeClipNodeInfo)
        invariant clipNodeInstances == old(clipNodeInstances) + kept
        invariant o == After(kept, nonLocal, mask, Sift(s, prim, complex, region, activeClipNodeInfo))
        decreases |activeClipNodeInfo|
      {
        var info := activeClipNodeInfo[0];
        SiftStep(s, prim, complex, region, activeClipNodeInfo);
        AfterPut(ResultFor(s, complex, info, region), s.clips[info.handle].item, info,
                 Sift(s, prim, complex, region, activeClipNodeInfo[1..]), kept, nonLocal, mask);
        activeClipNodeInfo := activeClipNodeInfo[1..];
        if !info.conversion.Local? { nonLocal := true; }
        match ResultFor(s, complex, info, region)
        case Accept =>
        case Reject =>
          activeClipNodeInfo := [];
          return true, nonLocal, mask;
        case Partial =>
          var instance := CreateInstance(info);
          mask := mask || WantsMask(s.clips[info.handle].item, instance);
          clipNodeInstances := clipNodeInstances + [instance];
          kept := kept + [instance];
      }
      assert kept + [] == kept;
      rejected := false;
    }

    /** Moves the active clips that matter into the instance buffer. */
    method BuildClipChainInstance(s: ClipScene, prim: nat, m: Mappers, primRect: Rect)
      returns (c: Option<ClipChainInstance>)
      requires activeLocalClipRect.Some? ==> Converted(s, prim, activeClipNodeInfo)
      modifies this`activeClipNodeInfo, this`clipNodeInstances
      ensures var b := old(BuildChain(s, prim, m, ActiveClips(), |clipNodeInstances|, primRect));
              && c == b.chain
              && clipNodeInstances == old(clipNodeInstances) + b.appended
              && activeClipNodeInfo == if b.drained then [] else old(activeClipNodeInfo)
      ensures c.Some? ==>
                && Some(c.value.localClipRect) == activeLocalClipRect && c.value.first == |old(clipNodeInstances)|
                && InStore(c.value) && clipNodeInstances == old(clipNodeInstances) + Clips(c.value)
                && Mapped(m, c.value, primRect)
      ensures c.None? <==> old(Refuses(s, prim, m, activeLocalClipRect, activeClipNodeInfo, primRect))
    {
      ChainFields(s, prim, m, ActiveClips(), clipNodeInstances, primRect);
      if activeLocalClipRect.None? { return None; }
      var local := activeLocalClipRect.value;
      var region := primRect.Intersection(local);
      if region.None? { return None; }
      var pic := m.toPic(region.value);
      if pic.None? { return None; }
      var world := m.toWorld(pic.value);
      if world.None? { return None; }
      c := MoveClips(s, prim, m.complex(world.value), region.value, local, pic.value);
    }

    /** The rest of it: the instance, unless a clip rejects the region. */
    method MoveClips(s: ClipScene, prim: nat, complex: nat -> ClipResult, region: Rect, local: Rect, pic: Rect)
      returns (c: Option<ClipChainInstance>)
      requires Converted(s, prim, activeClipNodeInfo) && !region.IsEmptyOrNegative()
      modifies this`activeClipNodeInfo, this`clipNodeInstances
      ensures var o, first := Sift(s, prim, complex, region, old(activeClipNodeInfo)), |old(clipNodeInstances)|;
              && activeClipNodeInfo == [] && clipNodeInstances == old(clipNodeInstances) + o.kept
              && c == if o.rejected then None
                      else Some(ClipChainInstance(first, |o.kept|, o.nonLocal, local, pic, o.mask))
    {
      var first := |clipNodeInstances|;
      var rejected, nonLocal, mask := SiftActive(s, prim, complex, region);
      if rejected { return None; }
      c := Some(ClipChainInstance(first, |clipNodeInstances| - first, nonLocal, local, pic, mask));
    }

    /** A primitive's clips: collect the clips of the stack, then build the chain instance. */
    method BuildPrimitive(s: ClipScene, prim: nat, m: Mappers, clipRect: Rect, ids: seq<nat>, primRect: Rect)
      returns (c: Option<ClipChainInstance>)
      requires Known(s, prim, ids) && MappersSound(s, prim, m, ChainHandles(clipChainNodes, ids))
      modifies this`activeClipNodeInfo, this`activeLocalClipRect, this`clipNodeInstances
      ensures old(clipNodeInstances) <= clipNodeInstances
      ensures c.Some? ==> InStore(c.value)
      ensures var hs := ChainHandles(clipChainNodes, ids);
              match c
              case Some(c) =>
                && Shows(s, prim, c, Clips(c), primRect, Shown(s, prim, clipRect, hs), hs)
                && Recorded(s, prim, m, c, Clips(c), primRect, hs)
                && InCommon(s, prim, c.localClipRect, clipRect, hs)
              case None => HiddenOrFails(m, Gather(s, prim, clipRect, hs).rect, primRect, Shown(s, prim, clipRect, hs))
    {
      SetActiveClips(s, clipRect, prim, ids);
      ghost var first := |clipNodeInstances|;
      ghost var hs := ChainHandles(clipChainNodes, ids);
      ReductionMeaning(s, prim, m, clipRect, hs, first, primRect);
      ReductionRecords(s, prim, m, clipRect, hs, first, primRect);
      ghost var b := BuildChain(s, prim, m, ActiveClips(), first, primRect);
      c := BuildClipChainInstance(s, prim, m, primRect);
      if c.Some? {
        assert Clips(c.value) == b.appended;
        assert Shows(s, prim, c.value, Clips(c.value), primRect, Shown(s, prim, clipRect, hs), hs);
      }
    }

    /** A brush's segments: each starts again from the primitive's chain instance. */
    method BuildSegments(s: ClipScene, prim: nat, m: Mappers, c: ClipChainInstance, segments: seq<Rect>)
      returns (rs: seq<Option<ClipChainInstance>>)
      requires InStore(c) && s.Handles(prim, InstanceHandles(Clips(c)))
      requires Settled(s, prim, c.localClipRect, InstanceHandles(Clips(c)))
      requires MappersSound(s, prim, m, InstanceHandles(Clips(c)))
      modifies this`activeClipNodeInfo, this`activeLocalClipRect, this`clipNodeInstances
      ensures old(clipNodeInstances) <= clipNodeInstances && |rs| == |segments|
      ensures AllSegments(s, prim, m, c, old(Clips(c)), segments, rs, clipNodeInstances)
    {
      ghost var kept := Clips(c);
      rs := [];
      for i := 0 to |segments|
        invariant old(clipNodeInstances) <= clipNodeInstances && |rs| == i && Clips(c) == kept
        invariant AllSegments(s, prim, m, c, kept, segments, rs, clipNodeInstances)
      {
        ghost var store := clipNodeInstances;
        var r := BuildSegment(s, prim, m, c, segments[i], kept);
        SegmentsGrow(s, prim, m, c, kept, segments, rs, store, r, clipNodeInstances);
        rs := rs + [r];
      }
    }

    /** One segment. */
    method BuildSegment(s: ClipScene, prim: nat, m: Mappers, c: ClipChainInstance, segment: Rect,
                        ghost kept: seq<ClipNodeInstance>)
      returns (r: Option<ClipChainInstance>)
      requires InStore(c) && kept == Clips(c) && s.Handles(prim, InstanceHandles(kept))
      requires Settled(s, prim, c.localClipRect, InstanceHandles(kept))
      requires MappersSound(s, prim, m, InstanceHandles(kept))
      modifies this`activeClipNodeInfo, this`activeLocalClipRect, this`clipNodeInstances
      ensures old(clipNodeInstances) <= clipNodeInstances && InStore(c) && Clips(c) == kept
      ensures SegmentShows(s, prim, m, c, kept, segment, r, clipNodeInstances)
    {
      SetActiveClipsFromClipChain(c, prim, s);
      ghost var store := clipNodeInstances;
      SegmentMeaning(s, prim, m, c, kept, activeClipNodeInfo, store, segment);
      r := BuildClipChainInstance(s, prim, m, segment);
      assert clipNodeInstances[c.first..c.first + c.count] == store[c.first..c.first + c.count];
    }

    /** A segmented primitive from its clips: every segment's chain instance agrees with the clips
        that the primitive started from. A single segment takes the primitive's own instance. */
    method PrepareBrush(s: ClipScene, prim: nat, m: Mappers, clipRect: Rect, ids: seq<nat>, primRect: Rect,
        segments: seq<Rect>)
      returns (c: Option<ClipChainInstance>, rs: seq<Option<ClipChainInstance>>)
      requires Known(s, prim, ids) && MappersSound(s, prim, m, ChainHandles(clipChainNodes, ids))
      modifies this`activeClipNodeInfo, this`activeLocalClipRect, this`clipNodeInstances
      ensures var hs := ChainHandles(clipChainNodes, ids);
              match c
              case None => HiddenOrFails(m, Gather(s, prim, clipRect, hs).rect, primRect, Shown(s, prim, clipRect, hs))
              case Some(c) =>
                && |rs| == |segments|
                && InStore(c) && s.Handles(prim, InstanceHandles(Clips(c)))
                && Recorded(s, prim, m, c, Clips(c), primRect, hs)
                && (if |segments| == 1 then rs == [Some(c)]
                    else AllSegments(s, prim, m, c, Clips(c), segments, rs, clipNodeInstances))
                && forall k :: 0 <= k < |rs| ==>
                  SegmentOfPrimitive(s, prim, m, c, primRect, Shown(s, prim, clipRect, hs), segments[k], rs[k],
                      clipNodeInstances)
    {
      ghost var hs := ChainHandles(clipChainNodes, ids);
      c := BuildPrimitive(s, prim, m, clipRect, ids, primRect);
      rs := [];
      if c.Some? && |segments| == 1 {
        rs := [c];
      } else if c.Some? {
        ghost var kept := Clips(c.value);
        MappersSoundSubset(s, prim, m, hs, InstanceHandles(kept));
        rs := BuildSegments(s, prim, m, c.value, segments);
        assert Clips(c.value) == kept;
        ReduceAllTwice(s, prim, m, c.value, kept, primRect, Shown(s, prim, clipRect, hs), hs, segments, rs,
                       clipNodeInstances);
      }
    }
  }
}
