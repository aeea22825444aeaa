/** Reduction of a list of clips to one rectangle and the clips that still matter
    (ClipStore in webrender/src/clip.rs). */
module ClipChains {
  import opened ClipItems
  import opened Geometry
  import opened Options
  import opened Transforms2D

  datatype ClipSpace = ClipSpace(content: ScaleOffset, coordinateSystem: nat)

  datatype ClipNode = ClipNode(item: ClipItemKind, spatialNode: nat)

  /** What a clip store reads but does not own: the spatial nodes and the clips that handles refer
      to. For a clip in another coordinate system than the primitive's, `foreign(prim, handle, p)`
      is an unspecified set of the primitive's points. */
  datatype ClipScene = ClipScene(nodes: seq<ClipSpace>, clips: seq<ClipNode>, foreign: (nat, nat, Point) -> bool) {

    predicate Valid() {
      && (forall i :: 0 <= i < |nodes| ==> nodes[i].content.Positive())
      && (forall i :: 0 <= i < |clips| ==> clips[i].spatialNode < |nodes| && WellFormed(clips[i].item))
    }

    predicate SameSystem(prim: nat, h: nat)
      requires Valid() && prim < |nodes| && h < |clips|
    {
      nodes[prim].coordinateSystem == nodes[clips[h].spatialNode].coordinateSystem
    }

    /** Reference meaning: carry the primitive's point to the coordinate system, then into the
        clip's space, and ask the clip. */
    predicate Admitted(prim: nat, h: nat, p: Point)
      requires Valid() && prim < |nodes| && h < |clips|
    {
      if SameSystem(prim, h) then
        Admits(clips[h].item, nodes[clips[h].spatialNode].content.UnmapPoint(nodes[prim].content.MapPoint(p)))
      else
        foreign(prim, h, p)
    }

    predicate Handles(prim: nat, hs: seq<nat>) {
      Valid() && prim < |nodes| && forall i :: 0 <= i < |hs| ==> hs[i] < |clips|
    }

    predicate AllAdmit(prim: nat, hs: seq<nat>, p: Point)
      requires Handles(prim, hs)
    {
      forall i :: 0 <= i < |hs| ==> Admitted(prim, hs[i], p)
    }

    /** A clip that is an inclusive rectangle in the primitive's coordinate system. */
    predicate Plain(prim: nat, h: nat)
      requires Valid() && prim < |nodes| && h < |clips|
    {
      SameSystem(prim, h) && clips[h].item.Rectangle? && clips[h].item.mode.Clip?
    }
  }

  datatype Conversion = Local | ByScaleOffset(t: ScaleOffset) | ByTransform

  function Convert(s: ClipScene, prim: nat, h: nat): Conversion
    requires s.Valid() && prim < |s.nodes| && h < |s.clips|
  {
    var clip := s.clips[h].spatialNode;
    if prim == clip then Local
    else if s.SameSystem(prim, h) then
      ByScaleOffset(s.nodes[prim].content.Inverse().Accumulate(s.nodes[clip].content))
    else ByTransform
  }

  /** A clip's own space, for the points of the primitive. */
  function Carried(s: ClipScene, prim: nat, h: nat, p: Point): Point
    requires s.Valid() && prim < |s.nodes| && h < |s.clips|
  {
    s.nodes[s.clips[h].spatialNode].content.UnmapPoint(s.nodes[prim].content.MapPoint(p))
  }

  /** Where a conversion takes a point of the primitive. */
  function Through(c: Conversion, p: Point): Point
    requires c.ByScaleOffset? ==> c.t.Positive()
  {
    if c.ByScaleOffset? then c.t.UnmapPoint(p) else p
  }

  /** The combined scale and offset takes the primitive's points to where the clip expects them. */
  lemma {:induction false} ConvertPlace(s: ClipScene, prim: nat, h: nat, p: Point)
    requires s.Valid() && prim < |s.nodes| && h < |s.clips|
    ensures Convert(s, prim, h).ByTransform? <==> !s.SameSystem(prim, h)
    ensures Convert(s, prim, h).ByScaleOffset? ==> Convert(s, prim, h).t.Positive()
    ensures s.SameSystem(prim, h) ==> Through(Convert(s, prim, h), p) == Carried(s, prim, h, p)
  {
    var from, to := s.nodes[prim].content, s.nodes[s.clips[h].spatialNode].content;
    var q := to.UnmapPoint(from.MapPoint(p));
    UnmapMap(from, p);
    UnmapMap(to, from.MapPoint(p));
    if Convert(s, prim, h).ByScaleOffset? {
      InverseMaps(from, from.MapPoint(p));
      var t := from.Inverse().Accumulate(to);
      assert t.Positive();
      AccumulateMaps(from.Inverse(), to, q);
      assert t.MapPoint(q) == p;
      UnmapMap(t, q);
    }
  }

  /** So the clip may be asked there. */
  lemma {:induction false} ConvertCorrect(s: ClipScene, prim: nat, h: nat, p: Point)
    requires s.Valid() && prim < |s.nodes| && h < |s.clips|
    ensures Convert(s, prim, h).ByTransform? <==> !s.SameSystem(prim, h)
    ensures Convert(s, prim, h).ByTransform? ==> s.Admitted(prim, h, p) == s.foreign(prim, h, p)
    ensures Convert(s, prim, h).Local? ==> s.Admitted(prim, h, p) == Admits(s.clips[h].item, p)
    ensures Convert(s, prim, h).ByScaleOffset? ==>
              var t := Convert(s, prim, h).t;
              t.Positive() && s.Admitted(prim, h, p) == Admits(s.clips[h].item, t.UnmapPoint(p))
  {
    ConvertPlace(s, prim, h, p);
  }

  /* ---------------- collecting the active clips ---------------- */

  datatype ClipNodeInfo = ClipNodeInfo(conversion: Conversion, handle: nat)

  /** The local rectangle after one more clip; None if nothing is left of it. */
  function Narrow(s: ClipScene, prim: nat, rect: Rect, h: nat): Option<Rect>
    requires s.Valid() && prim < |s.nodes| && h < |s.clips|
  {
    var own := GetLocalClipRect(s.clips[h].item);
    match Convert(s, prim, h)
    case Local => if own.Some? then rect.Intersection(own.value) else Some(rect)
    case ByScaleOffset(t) => if own.Some? then rect.Intersection(t.MapRect(own.value)) else Some(rect)
    case ByTransform => Some(rect)
  }

  /** Narrowing drops no point that the clip admits, adds none, and settles a plain clip for good. */
  lemma {:induction false} NarrowMeaning(s: ClipScene, prim: nat, rect: Rect, h: nat, p: Point)
    requires s.Valid() && prim < |s.nodes| && h < |s.clips|
    ensures var r := Narrow(s, prim, rect, h);
            && (rect.Contains(p) && s.Admitted(prim, h, p) ==> r.Some? && r.value.Contains(p))
            && (r.Some? && r.value.Contains(p) ==>
                  rect.Contains(p) && (s.Plain(prim, h) ==> s.Admitted(prim, h, p)))
  {
    ConvertCorrect(s, prim, h, p);
    var own := GetLocalClipRect(s.clips[h].item);
    var c := Convert(s, prim, h);
    if c.ByScaleOffset? && own.Some? {
      MapRectContains(c.t, own.value, p);
    }
  }

  /** A clip of the primitive's system whose rectangle binds holds the point. */
  predicate BindsAt(s: ClipScene, prim: nat, h: nat, p: Point)
    requires s.Valid() && prim < |s.nodes| && h < |s.clips|
  {
    s.nodes[prim].coordinateSystem == s.nodes[s.clips[h].spatialNode].coordinateSystem ==>
      Binds(s.clips[h].item, Carried(s, prim, h, p))
  }

  lemma {:induction false} NarrowExactly(s: ClipScene, prim: nat, rect: Rect, h: nat, p: Point)
    requires s.Valid() && prim < |s.nodes| && h < |s.clips|
    ensures var r := Narrow(s, prim, rect, h);
            r.Some? && r.value.Contains(p) <==> rect.Contains(p) && BindsAt(s, prim, h, p)
  {
    ConvertPlace(s, prim, h, p);
    var own := GetLocalClipRect(s.clips[h].item);
    var c := Convert(s, prim, h);
    OfferedIff(s.clips[h].item, Carried(s, prim, h, p));
    if c.ByScaleOffset? && own.Some? {
      MapRectContains(c.t, own.value, p);
    }
  }

  datatype Active = Active(rect: Option<Rect>, infos: seq<ClipNodeInfo>)

  function Gather(s: ClipScene, prim: nat, rect: Rect, hs: seq<nat>): Active
    requires s.Handles(prim, hs)
    decreases |hs|
  {
    if hs == [] then Active(Some(rect), [])
    else
      match Narrow(s, prim, rect, hs[0])
      case None => Active(None, [])
      case Some(r) =>
        var rest := Gather(s, prim, r, hs[1..]);
        rest.(infos := [ClipNodeInfo(Convert(s, prim, hs[0]), hs[0])] + rest.infos)
  }

  function InfoHandles(infos: seq<ClipNodeInfo>): (hs: seq<nat>)
    ensures |hs| == |infos| && forall i :: 0 <= i < |hs| ==> hs[i] == infos[i].handle
  {
    seq(|infos|, i requires 0 <= i < |infos| => infos[i].handle)
  }

  /** Infos whose conversions are the right ones for the primitive. */
  predicate Converted(s: ClipScene, prim: nat, infos: seq<ClipNodeInfo>) {
    && s.Handles(prim, InfoHandles(infos))
    && forall i :: 0 <= i < |infos| ==> infos[i].conversion == Convert(s, prim, infos[i].handle)
  }

  /** Inside the rectangle, plain clips need no further look. */
  ghost predicate Settled(s: ClipScene, prim: nat, rect: Rect, hs: seq<nat>)
    requires s.Handles(prim, hs)
  {
    forall i, p: Point :: 0 <= i < |hs| && s.Plain(prim, hs[i]) && rect.Contains(p) ==> s.Admitted(prim, hs[i], p)
  }

  lemma {:induction false} GatherMeaning(s: ClipScene, prim: nat, rect: Rect, hs: seq<nat>)
    requires s.Handles(prim, hs)
    ensures var a := Gather(s, prim, rect, hs);
            match a.rect
            case None => forall p: Point :: rect.Contains(p) ==> !s.AllAdmit(prim, hs, p)
            case Some(r) =>
              && InfoHandles(a.infos) == hs && Converted(s, prim, a.infos) && Settled(s, prim, r, hs)
              && (forall p: Point :: r.Contains(p) ==> rect.Contains(p))
              && (forall p: Point :: rect.Contains(p) && s.AllAdmit(prim, hs, p) ==> r.Contains(p))
    decreases |hs|
  {
    if hs != [] {
      var n := Narrow(s, prim, rect, hs[0]);
      forall p: Point
        ensures rect.Contains(p) && s.Admitted(prim, hs[0], p) ==> n.Some? && n.value.Contains(p)
        ensures n.Some? && n.value.Contains(p) ==>
                  rect.Contains(p) && (s.Plain(prim, hs[0]) ==> s.Admitted(prim, hs[0], p))
      {
        NarrowMeaning(s, prim, rect, hs[0], p);
      }
      AllAdmitSplit(s, prim, hs);
      if n.Some? {
        GatherMeaning(s, prim, n.value, hs[1..]);
      }
    }
  }

  /** The collected rectangle is exactly what the first rectangle and those that bind have in common. */
  lemma {:induction false} GatherExactly(s: ClipScene, prim: nat, rect: Rect, hs: seq<nat>, p: Point)
    requires s.Handles(prim, hs)
    ensures var r := Gather(s, prim, rect, hs).rect;
            r.Some? && r.value.Contains(p) <==>
              rect.Contains(p) && forall i :: 0 <= i < |hs| ==> BindsAt(s, prim, hs[i], p)
    decreases |hs|
  {
    if hs != [] {
      NarrowExactly(s, prim, rect, hs[0], p);
      AllAdmitSplit(s, prim, hs);
      assert forall i :: 0 < i < |hs| ==> hs[i] == hs[1..][i - 1];
      assert forall i :: 0 <= i < |hs| - 1 ==> hs[1..][i] == hs[i + 1];
      var n := Narrow(s, prim, rect, hs[0]);
      if n.Some? {
        GatherExactly(s, prim, n.value, hs[1..], p);
      }
    }
  }

  lemma {:induction false} AllAdmitSplit(s: ClipScene, prim: nat, hs: seq<nat>)
    requires s.Handles(prim, hs) && hs != []
    ensures s.Handles(prim, hs[1..])
    ensures forall p: Point :: s.AllAdmit(prim, hs, p) <==> s.Admitted(prim, hs[0], p) && s.AllAdmit(prim, hs[1..], p)
  {
    forall p: Point
      ensures s.AllAdmit(prim, hs, p) <==> s.Admitted(prim, hs[0], p) && s.AllAdmit(prim, hs[1..], p)
    {
      if s.Admitted(prim, hs[0], p) && s.AllAdmit(prim, hs[1..], p) {
        forall i | 0 <= i < |hs| ensures s.Admitted(prim, hs[i], p) {
          assert i > 0 ==> hs[i] == hs[1..][i - 1];
        }
      }
      if s.AllAdmit(prim, hs, p) {
        forall i | 0 <= i < |hs[1..]| ensures s.Admitted(prim, hs[1..][i], p) {
          assert hs[1..][i] == hs[i + 1];
        }
      }
    }
  }

  /* ---------------- sifting the active clips ---------------- */

  datatype ClipNodeInstance = ClipNodeInstance(handle: nat, sameSpatialNode: bool, sameCoordSystem: bool)

  function InstanceHandles(kept: seq<ClipNodeInstance>): (hs: seq<nat>)
    ensures |hs| == |kept| && forall i :: 0 <= i < |hs| ==> hs[i] == kept[i].handle
  {
    seq(|kept|, i requires 0 <= i < |kept| => kept[i].handle)
  }

  function CreateInstance(info: ClipNodeInfo): ClipNodeInstance {
    ClipNodeInstance(info.handle, info.conversion.Local?, !info.conversion.ByTransform?)
  }

  /** The quick test of a clip against the primitive's region. `complex` answers for clips of other
      coordinate systems. */
  function ResultFor(s: ClipScene, complex: nat -> ClipResult, info: ClipNodeInfo, region: Rect): ClipResult
    requires s.Valid() && info.handle < |s.clips| && !region.IsEmptyOrNegative()
    requires info.conversion.ByScaleOffset? ==> info.conversion.t.Positive()
  {
    var item := s.clips[info.handle].item;
    match info.conversion
    case Local => GetClipResult(item, region)
    case ByScaleOffset(t) => UnmapRectArea(t, region); GetClipResult(item, t.UnmapRect(region))
    case ByTransform => complex(info.handle)
  }

  /** The assumption on `complex`: what it settles is settled for the whole region. */
  ghost predicate ComplexSound(s: ClipScene, prim: nat, complex: nat -> ClipResult, region: Rect, hs: seq<nat>)
    requires s.Handles(prim, hs)
  {
    forall i, p: Point :: 0 <= i < |hs| && !s.SameSystem(prim, hs[i]) && region.Contains(p) ==>
      && (complex(hs[i]).Accept? ==> s.Admitted(prim, hs[i], p))
      && (complex(hs[i]).Reject? ==> !s.Admitted(prim, hs[i], p))
  }

  lemma {:induction false} ResultMeaning(s: ClipScene, prim: nat, complex: nat -> ClipResult, info: ClipNodeInfo,
      region: Rect, p: Point)
    requires s.Valid() && prim < |s.nodes| && info.handle < |s.clips| && !region.IsEmptyOrNegative()
    requires info.conversion == Convert(s, prim, info.handle)
    requires region.Contains(p) && ComplexSound(s, prim, complex, region, [info.handle])
    ensures info.conversion.ByScaleOffset? ==> info.conversion.t.Positive()
    ensures ResultFor(s, complex, info, region).Accept? ==> s.Admitted(prim, info.handle, p)
    ensures ResultFor(s, complex, info, region).Reject? ==> !s.Admitted(prim, info.handle, p)
  {
    ConvertCorrect(s, prim, info.handle, p);
    if info.conversion.ByScaleOffset? {
      var t := info.conversion.t;
      UnmapRectArea(t, region);
      UnmapRectContains(t, region, p);
    } else if info.conversion.ByTransform? {
      assert [info.handle][0] == info.handle;
    }
  }

  /** A partial clip needs a mask unless the primitive's own local rectangle takes care of it. */
  predicate WantsMask(item: ClipItemKind, instance: ClipNodeInstance) {
    if item.Rectangle? && item.mode.Clip? then !instance.sameCoordSystem else true
  }

  datatype Sifted = Sifted(rejected: bool, kept: seq<ClipNodeInstance>, nonLocal: bool, mask: bool)

  /** One clip before the rest; nothing after a rejection counts. */
  function Put(result: ClipResult, item: ClipItemKind, info: ClipNodeInfo, rest: Sifted): Sifted {
    var far := !info.conversion.Local?;
    match result
    case Reject => Sifted(true, [], far, false)
    case Accept => rest.(nonLocal := far || rest.nonLocal)
    case Partial =>
      var i := CreateInstance(info);
      Sifted(rest.rejected, [i] + rest.kept, far || rest.nonLocal, WantsMask(item, i) || rest.mask)
  }

  /** Clips in order, up to the first that rejects the region. */
  function Sift(s: ClipScene, prim: nat, complex: nat -> ClipResult, region: Rect, infos: seq<ClipNodeInfo>): Sifted
    requires Converted(s, prim, infos) && !region.IsEmptyOrNegative()
    decreases |infos|
  {
    if infos == [] then Sifted(false, [], false, false)
    else
      ConvertCorrect(s, prim, infos[0].handle, Point(0.0, 0.0));
      ConvertedSplit(s, prim, infos);
      Put(ResultFor(s, complex, infos[0], region), s.clips[infos[0].handle].item, infos[0],
          Sift(s, prim, complex, region, infos[1..]))
  }

  lemma {:induction false} ConvertedSplit(s: ClipScene, prim: nat, infos: seq<ClipNodeInfo>)
    requires Converted(s, prim, infos) && infos != []
    ensures Converted(s, prim, infos[1..])
    ensures InfoHandles(infos[1..]) == InfoHandles(infos)[1..]
  {
    forall i | 0 <= i < |infos[1..]|
      ensures InfoHandles(infos[1..])[i] < |s.clips|
      ensures infos[1..][i].conversion == Convert(s, prim, infos[1..][i].handle)
    {
      assert infos[1..][i] == infos[i + 1] && InfoHandles(infos)[i + 1] < |s.clips|;
    }
  }

  lemma {:induction false} SiftStep(s: ClipScene, prim: nat, complex: nat -> ClipResult, region: Rect,
      infos: seq<ClipNodeInfo>)
    requires Converted(s, prim, infos) && infos != [] && !region.IsEmptyOrNegative()
    ensures Converted(s, prim, infos[1..]) && infos[0].handle < |s.clips|
    ensures infos[0].conversion.ByScaleOffset? ==> infos[0].conversion.t.Positive()
    ensures Sift(s, prim, complex, region, infos)
         == Put(ResultFor(s, complex, infos[0], region), s.clips[infos[0].handle].item, infos[0],
                Sift(s, prim, complex, region, infos[1..]))
  {
    assert InfoHandles(infos)[0] < |s.clips|;
    ConvertCorrect(s, prim, infos[0].handle, Point(0.0, 0.0));
    ConvertedSplit(s, prim, infos);
  }

  predicate AllPlain(s: ClipScene, prim: nat, hs: seq<nat>)
    requires s.Handles(prim, hs)
  {
    forall i :: 0 <= i < |hs| ==> s.Plain(prim, hs[i])
  }

  ghost predicate SameAdmission(s: ClipScene, prim: nat, region: Rect, hs: seq<nat>, ks: seq<nat>)
    requires s.Handles(prim, hs) && s.Handles(prim, ks)
  {
    forall p: Point :: region.Contains(p) ==> (s.AllAdmit(prim, hs, p) <==> s.AllAdmit(prim, ks, p))
  }

  /** Over the region the kept clips say the same as all clips; a rejection means that no point of
      the region passes; and without a mask only plain clips are kept. */
  lemma {:induction false} SiftMeaning(s: ClipScene, prim: nat, complex: nat -> ClipResult, region: Rect,
      infos: seq<ClipNodeInfo>)
    requires Converted(s, prim, infos) && !region.IsEmptyOrNegative()
    requires ComplexSound(s, prim, complex, region, InfoHandles(infos))
    ensures var o := Sift(s, prim, complex, region, infos);
            var hs := InfoHandles(infos);
            && s.Handles(prim, InstanceHandles(o.kept))
            && (o.rejected ==> forall p: Point :: region.Contains(p) ==> !s.AllAdmit(prim, hs, p))
            && (!o.rejected ==> SameAdmission(s, prim, region, hs, InstanceHandles(o.kept)))
            && (!o.rejected && !o.mask ==> AllPlain(s, prim, InstanceHandles(o.kept)))
            && (forall k <- InstanceHandles(o.kept) :: k in hs)
    decreases |infos|
  {
    if infos != [] {
      var hs := InfoHandles(infos);
      var h := hs[0];
      ConvertedSplit(s, prim, infos);
      AllAdmitSplit(s, prim, hs);
      SoundSplit(s, prim, complex, region, hs);
      forall p: Point | region.Contains(p)
        ensures ResultFor(s, complex, infos[0], region).Accept? ==> s.Admitted(prim, h, p)
        ensures ResultFor(s, complex, infos[0], region).Reject? ==> !s.Admitted(prim, h, p)
      {
        ResultMeaning(s, prim, complex, infos[0], region, p);
      }
      ConvertCorrect(s, prim, h, Point(0.0, 0.0));
      SiftMeaning(s, prim, complex, region, infos[1..]);
      if ResultFor(s, complex, infos[0], region).Partial? {
        SiftKeeps(s, prim, complex, region, infos);
      }
    }
  }

  lemma {:induction false} SoundSplit(s: ClipScene, prim: nat, complex: nat -> ClipResult, region: Rect, hs: seq<nat>)
    requires s.Handles(prim, hs) && hs != [] && ComplexSound(s, prim, complex, region, hs)
    ensures ComplexSound(s, prim, complex, region, [hs[0]])
    ensures s.Handles(prim, hs[1..]) && ComplexSound(s, prim, complex, region, hs[1..])
  {
    forall i, p: Point | 0 <= i < |hs[1..]| && !s.SameSystem(prim, hs[1..][i]) && region.Contains(p)
      ensures complex(hs[1..][i]).Accept? ==> s.Admitted(prim, hs[1..][i], p)
      ensures complex(hs[1..][i]).Reject? ==> !s.Admitted(prim, hs[1..][i], p)
    {
      assert hs[1..][i] == hs[i + 1];
    }
  }

  /** The step of SiftMeaning for a clip that stays in the list. */
  lemma {:induction false} SiftKeeps(s: ClipScene, prim: nat, complex: nat -> ClipResult, region: Rect,
      infos: seq<ClipNodeInfo>)
    requires Converted(s, prim, infos) && infos != [] && !region.IsEmptyOrNegative()
    requires Converted(s, prim, infos[1..])
    requires infos[0].conversion.ByScaleOffset? ==> infos[0].conversion.t.Positive()
    requires ResultFor(s, complex, infos[0], region).Partial?
    ensures var o, o' := Sift(s, prim, complex, region, infos), Sift(s, prim, complex, region, infos[1..]);
            && InstanceHandles(o.kept) == [infos[0].handle] + InstanceHandles(o'.kept)
            && InstanceHandles(o.kept)[1..] == InstanceHandles(o'.kept)
            && (s.Handles(prim, InstanceHandles(o'.kept)) ==>
                  && s.Handles(prim, InstanceHandles(o.kept))
                  && forall p: Point :: s.AllAdmit(prim, InstanceHandles(o.kept), p)
                       <==> s.Admitted(prim, infos[0].handle, p) && s.AllAdmit(prim, InstanceHandles(o'.kept), p))
  {
    var o, o' := Sift(s, prim, complex, region, infos), Sift(s, prim, complex, region, infos[1..]);
    assert o.kept == [CreateInstance(infos[0])] + o'.kept;
    assert InstanceHandles(o.kept) == [infos[0].handle] + InstanceHandles(o'.kept);
    if s.Handles(prim, InstanceHandles(o'.kept)) {
      assert InfoHandles(infos)[0] < |s.clips|;
      AllAdmitSplit(s, prim, InstanceHandles(o.kept));
    }
  }
  /** The flags of an instance tell the truth about the spatial nodes. */
  predicate TrueFlags(s: ClipScene, prim: nat, i: ClipNodeInstance)
    requires s.Valid() && prim < |s.nodes| && i.handle < |s.clips|
  {
    && i.sameSpatialNode == (s.clips[i.handle].spatialNode == prim)
    && i.sameCoordSystem == s.SameSystem(prim, i.handle)
  }

  /** Kept instances carry true flags, and the chain is marked as non-local exactly if some clip
      that was looked at lives on another spatial node. */
  lemma {:induction false} SiftFlags(s: ClipScene, prim: nat, complex: nat -> ClipResult, region: Rect,
      infos: seq<ClipNodeInfo>)
    requires Converted(s, prim, infos) && !region.IsEmptyOrNegative()
    ensures var o := Sift(s, prim, complex, region, infos);
            && (forall i <- o.kept :: i.handle < |s.clips| && TrueFlags(s, prim, i))
            && (!o.rejected ==>
                  (o.nonLocal <==> exists i :: 0 <= i < |infos| && s.clips[infos[i].handle].spatialNode != prim))
    decreases |infos|
  {
    if infos != [] {
      assert InfoHandles(infos)[0] < |s.clips|;
      ConvertCorrect(s, prim, infos[0].handle, Point(0.0, 0.0));
      ConvertedSplit(s, prim, infos);
      SiftFlags(s, prim, complex, region, infos[1..]);
      assert forall i :: 0 < i < |infos| ==> infos[i] == infos[1..][i - 1];
      assert forall i :: 0 <= i < |infos| - 1 ==> infos[1..][i] == infos[i + 1];
    }
  }

  /** A clip is kept exactly if its result is open, in the order of the list; the list is rejected
      exactly if one of its results rejects. */
  ghost predicate SiftsExactly(infos: seq<ClipNodeInfo>, results: seq<ClipResult>, o: Sifted, at: seq<nat>)
    requires |infos| == |results|
  {
    && (o.rejected <==> exists i :: 0 <= i < |results| && results[i].Reject?)
    && |at| == |o.kept| && (forall j, k :: 0 <= j < k < |at| ==> at[j] < at[k])
    && (forall k :: 0 <= k < |at| ==> at[k] < |infos| && o.kept[k] == CreateInstance(infos[at[k]]))
    && (!o.rejected ==> forall i :: 0 <= i < |infos| ==> (results[i].Partial? <==> i in at))
  }

  lemma {:induction false} PutExactly(infos: seq<ClipNodeInfo>, results: seq<ClipResult>, item: ClipItemKind,
      o: Sifted, rest: seq<nat>) returns (at: seq<nat>)
    requires |infos| == |results| > 0 && SiftsExactly(infos[1..], results[1..], o, rest)
    ensures SiftsExactly(infos, results, Put(results[0], item, infos[0], o), at)
  {
    var later := seq(|rest|, k requires 0 <= k < |rest| => rest[k] + 1);
    OnlyLater(results);
    Shifted(infos, results, o, rest, later);
    match results[0]
    case Reject => at := [];
    case Accept => at := later;
    case Partial =>
      at := [0] + later;
      PutFirst(infos, results, item, o, rest, later, at);
  }

  lemma {:induction false} PutFirst(infos: seq<ClipNodeInfo>, results: seq<ClipResult>, item: ClipItemKind,
      o: Sifted, rest: seq<nat>, later: seq<nat>, at: seq<nat>)
    requires |infos| == |results| > 0 && SiftsExactly(infos[1..], results[1..], o, rest) && results[0].Partial?
    requires |later| == |rest| && forall k :: 0 <= k < |rest| ==> later[k] == rest[k] + 1
    requires at == [0] + later
    ensures SiftsExactly(infos, results, Put(results[0], item, infos[0], o), at)
  {
    OnlyLater(results);
    Shifted(infos, results, o, rest, later);
    var kept := Put(results[0], item, infos[0], o).kept;
    assert kept == [CreateInstance(infos[0])] + o.kept;
    forall k | 0 <= k < |at| ensures at[k] < |infos| && kept[k] == CreateInstance(infos[at[k]]) {
      if k > 0 {
        assert at[k] == later[k - 1] && kept[k] == o.kept[k - 1];
      }
    }
    forall j, k | 0 <= j < k < |at| ensures at[j] < at[k] {
      assert at[k] == later[k - 1] && (j > 0 ==> at[j] == later[j - 1]);
    }
    forall i | 0 <= i < |infos| && !o.rejected ensures results[i].Partial? <==> i in at {
      assert at[0] == 0;
      assert i in at <==> i == 0 || i in later;
    }
  }

  lemma {:induction false} OnlyLater(results: seq<ClipResult>)
    requires results != []
    ensures (exists i :: 0 <= i < |results| && results[i].Reject?) <==>
            results[0].Reject? || exists i :: 0 <= i < |results[1..]| && results[1..][i].Reject?
  {
    if i :| 0 <= i < |results| && results[i].Reject? {
      assert i > 0 ==> results[1..][i - 1].Reject?;
    }
    if i :| 0 <= i < |results[1..]| && results[1..][i].Reject? {
      assert results[i + 1].Reject?;
    }
  }

  /** The places of the rest of a list, counted in the whole. */
  lemma {:induction false} Shifted(infos: seq<ClipNodeInfo>, results: seq<ClipResult>, o: Sifted, rest: seq<nat>,
      later: seq<nat>)
    requires |infos| == |results| > 0 && SiftsExactly(infos[1..], results[1..], o, rest)
    requires |later| == |rest| && forall k :: 0 <= k < |rest| ==> later[k] == rest[k] + 1
    ensures forall k :: 0 <= k < |later| ==> 0 < later[k] < |infos| && o.kept[k] == CreateInstance(infos[later[k]])
    ensures !o.rejected ==> forall i :: 0 < i < |infos| ==> (results[i].Partial? <==> i in later)
  {
    forall k | 0 <= k < |later|
      ensures 0 < later[k] < |infos| && o.kept[k] == CreateInstance(infos[later[k]])
    {
      assert infos[later[k]] == infos[1..][rest[k]];
    }
    if !o.rejected {
      forall i | 0 < i < |infos| ensures results[i].Partial? <==> i in later {
        assert results[i] == results[1..][i - 1];
        if i - 1 in rest {
          var k :| 0 <= k < |rest| && rest[k] == i - 1;
          assert later[k] == i;
        }
        if i in later {
          var k :| 0 <= k < |later| && later[k] == i;
          assert rest[k] == i - 1;
        }
      }
    }
  }

  ghost function Results(s: ClipScene, prim: nat, complex: nat -> ClipResult, region: Rect, infos: seq<ClipNodeInfo>)
    : (r: seq<ClipResult>)
    requires Converted(s, prim, infos) && !region.IsEmptyOrNegative()
    ensures |r| == |infos|
    ensures forall i :: 0 <= i < |infos| ==>
              && infos[i].handle < |s.clips|
              && (infos[i].conversion.ByScaleOffset? ==> infos[i].conversion.t.Positive())
              && r[i] == ResultFor(s, complex, infos[i], region)
  {
    if infos == [] then [] else
      SiftStep(s, prim, complex, region, infos);
      [ResultFor(s, complex, infos[0], region)] + Results(s, prim, complex, region, infos[1..])
  }

  lemma {:induction false} SiftIsExact(s: ClipScene, prim: nat, complex: nat -> ClipResult, region: Rect,
      infos: seq<ClipNodeInfo>) returns (at: seq<nat>)
    requires Converted(s, prim, infos) && !region.IsEmptyOrNegative()
    ensures SiftsExactly(infos, Results(s, prim, complex, region, infos), Sift(s, prim, complex, region, infos), at)
    decreases |infos|
  {
    if infos == [] {
      at := [];
    } else {
      SiftStep(s, prim, complex, region, infos);
      var rest := SiftIsExact(s, prim, complex, region, infos[1..]);
      var results := Results(s, prim, complex, region, infos);
      assert results[1..] == Results(s, prim, complex, region, infos[1..]);
      at := PutExactly(infos, results, s.clips[infos[0].handle].item, Sift(s, prim, complex, region, infos[1..]), rest);
    }
  }

  /** A kept clip that the primitive's own rectangle does not take care of. */
  predicate Masks(s: ClipScene, prim: nat, i: ClipNodeInstance)
    requires s.Valid() && prim < |s.nodes| && i.handle < |s.clips|
  {
    var clip := s.clips[i.handle];
    !(&& clip.item.Rectangle? && clip.item.mode.Clip?
      && s.nodes[clip.spatialNode].coordinateSystem == s.nodes[prim].coordinateSystem)
  }

  ghost predicate AnyMasks(s: ClipScene, prim: nat, kept: seq<ClipNodeInstance>)
    requires s.Valid() && prim < |s.nodes|
  {
    exists i :: 0 <= i < |kept| && kept[i].handle < |s.clips| && Masks(s, prim, kept[i])
  }

  lemma {:induction false} AnyMasksFirst(s: ClipScene, prim: nat, first: ClipNodeInstance, kept: seq<ClipNodeInstance>)
    requires s.Valid() && prim < |s.nodes| && first.handle < |s.clips|
    ensures AnyMasks(s, prim, [first] + kept) <==> Masks(s, prim, first) || AnyMasks(s, prim, kept)
  {
    var all := [first] + kept;
    assert all[0] == first && all[1..] == kept;
    if i :| 0 <= i < |kept| && kept[i].handle < |s.clips| && Masks(s, prim, kept[i]) {
      assert all[i + 1] == kept[i];
    }
  }

  /** A mask is asked for exactly if such a clip is kept. */
  lemma {:induction false} SiftMask(s: ClipScene, prim: nat, complex: nat -> ClipResult, region: Rect,
      infos: seq<ClipNodeInfo>)
    requires Converted(s, prim, infos) && !region.IsEmptyOrNegative()
    ensures var o := Sift(s, prim, complex, region, infos);
            !o.rejected ==> (o.mask <==> AnyMasks(s, prim, o.kept))
    decreases |infos|
  {
    if infos != [] {
      SiftStep(s, prim, complex, region, infos);
      ConvertCorrect(s, prim, infos[0].handle, Point(0.0, 0.0));
      SiftMask(s, prim, complex, region, infos[1..]);
      assert InfoHandles(infos)[0] == infos[0].handle && infos[0].conversion == Convert(s, prim, infos[0].handle);
      var first := CreateInstance(infos[0]);
      AnyMasksFirst(s, prim, first, Sift(s, prim, complex, region, infos[1..]).kept);
    }
  }

  lemma {:induction false} RegionSettled(c: Conversion, region: Rect, own: Rect, rect: Rect)
    requires c.ByScaleOffset? ==> c.t.Positive()
    requires own == if c.ByScaleOffset? then c.t.UnmapRect(region) else region
    ensures AllInside(own, rect) <==> forall p: Point :: region.Contains(p) ==> rect.Contains(Through(c, p))
    ensures AllOutside(own, rect) <==> forall p: Point :: region.Contains(p) ==> !rect.Contains(Through(c, p))
  {
    if c.ByScaleOffset? {
      forall p: Point ensures own.Contains(Through(c, p)) <==> region.Contains(p) {
        UnmapRectContains(c.t, region, p);
      }
      forall q: Point
        ensures own.Contains(q) <==> region.Contains(c.t.MapPoint(q)) && Through(c, c.t.MapPoint(q)) == q
      {
        UnmapMap(c.t, q);
        UnmapRectContains(c.t, region, c.t.MapPoint(q));
      }
    }
  }

  /** For rectangles in the primitive's system the quick test is exact: such a clip is kept exactly if
      it cuts the region, and settled one way or the other if it does not. */
  lemma {:induction false} RectangleResult(s: ClipScene, prim: nat, complex: nat -> ClipResult, info: ClipNodeInfo,
      region: Rect)
    requires s.Valid() && prim < |s.nodes| && info.handle < |s.clips| && !region.IsEmptyOrNegative()
    requires info.conversion == Convert(s, prim, info.handle) && s.SameSystem(prim, info.handle)
    requires s.clips[info.handle].item.Rectangle?
    requires info.conversion.ByScaleOffset? ==> info.conversion.t.Positive()
    ensures var r := ResultFor(s, complex, info, region);
            && (r.Accept? <==> forall p: Point :: region.Contains(p) ==> s.Admitted(prim, info.handle, p))
            && (r.Reject? <==> forall p: Point :: region.Contains(p) ==> !s.Admitted(prim, info.handle, p))
  {
    var item := s.clips[info.handle].item;
    forall p: Point
      ensures s.Admitted(prim, info.handle, p) == (item.rect.Contains(Through(info.conversion, p)) == item.mode.Clip?)
    {
      ConvertCorrect(s, prim, info.handle, p);
    }
    ConvertCorrect(s, prim, info.handle, Point(0.0, 0.0));
    var own := if info.conversion.ByScaleOffset? then info.conversion.t.UnmapRect(region) else region;
    if info.conversion.ByScaleOffset? {
      UnmapRectArea(info.conversion.t, region);
    }
    ClipResultIff(item, own);
    RegionSettled(info.conversion, region, own, item.rect);
  }
}
