/** The list of blended batches. Instances arrive in painter's order and may be appended to an
    earlier batch; the list must keep overlapping instances in their order of arrival. */
module AlphaBatching {
  import opened Geometry
  import opened Options
  import opened Sequences
  import opened BatchKeys

  /** Instances whose bounding rectangles intersect stand in submission order. */
  ghost predicate Ordered(s: seq<Instance>) {
    forall i, j :: 0 <= i < j < |s| && s[i].rect.Intersects(s[j].rect) ==> s[i].order < s[j].order
  }

  ghost predicate AllBefore(s: seq<Instance>, order: nat) {
    forall x :: x in s ==> x.order < order
  }

  predicate Hits(rects: seq<Rect>, r: Rect) {
    exists q :: q in rects && q.Intersects(r)
  }

  /** No rectangle of the batches after `b` meets `r`. */
  ghost predicate ClearAfter(itemRects: seq<seq<Rect>>, b: int, r: Rect) {
    forall c :: 0 <= c < |itemRects| && b < c ==> !Hits(itemRects[c], r)
  }

  /** Batch `b` may take an instance with this key and rectangle: it lies in the lookback window,
      its key is compatible, and nothing drawn after it is in the way. A multipass instance must
      not meet the batch's own rectangles either. */
  ghost predicate Candidate(batches: seq<PrimitiveBatch>, itemRects: seq<seq<Rect>>, lookback: nat,
                            key: BatchKey, r: Rect, b: int)
    requires |batches| == |itemRects|
  {
    && 0 <= b < |batches| && |batches| - lookback <= b
    && batches[b].key.IsCompatibleWith(key)
    && ClearAfter(itemRects, b, r)
    && (key.blendMode.SubpixelWithBgColor? ==> !Hits(itemRects[b], r))
  }

  /** The instance belongs to the z id, with its bounding rectangle, or keeps clear of it. */
  predicate Beside(x: Instance, z: int, r: Rect) {
    (x.z == z && x.rect == r) || !x.rect.Intersects(r)
  }

  /** Two instances of the list share one z id and its rectangle, or do not meet. */
  ghost predicate Apart(s: seq<Instance>) {
    forall x, y :: x in s && y in s ==> Beside(x, y.z, y.rect)
  }

  /** A batch that is drawn in several passes may be drawn pass by pass. */
  ghost predicate PassSafe(b: PrimitiveBatch) {
    b.key.blendMode.SubpixelWithBgColor? ==> Apart(b.instances)
  }

  ghost predicate AllPassSafe(batches: seq<PrimitiveBatch>) {
    forall b :: 0 <= b < |batches| ==> PassSafe(batches[b])
  }

  /** An instance of this z id and rectangle may join the batch. */
  ghost predicate MayJoin(b: PrimitiveBatch, z: Option<int>, r: Rect) {
    b.key.blendMode.SubpixelWithBgColor? ==> z.Some? && forall x :: x in b.instances ==> Beside(x, z.value, r)
  }

  /** Drawing the batch suits its instances, its rectangles bound them, and it can be drawn pass by
      pass. */
  ghost predicate BatchOk(b: PrimitiveBatch, rects: seq<Rect>) {
    && b.Suits() && PassSafe(b)
    && forall x :: x in b.instances ==> x.rect in rects
  }

  function LastRect(rects: seq<Rect>): Rect
    requires rects != []
  {
    rects[|rects| - 1]
  }

  /** The current batch, if any, may be appended to without another look. */
  ghost predicate CurrentOk(batches: seq<PrimitiveBatch>, itemRects: seq<seq<Rect>>, current: Option<nat>,
      z: Option<int>)
    requires |batches| == |itemRects|
  {
    current.Some? ==>
      && current.value < |batches| && itemRects[current.value] != []
      && ClearAfter(itemRects, current.value, LastRect(itemRects[current.value]))
      && MayJoin(batches[current.value], z, LastRect(itemRects[current.value]))
  }

  lemma {:induction false} Joined(b: PrimitiveBatch, rects: seq<Rect>, inst: Instance)
    requires BatchOk(b, rects) && MayJoin(b, Some(inst.z), inst.rect)
    requires b.key.IsCompatibleWith(inst.key) && inst.features <= b.features && inst.rect in rects
    ensures BatchOk(b.(instances := b.instances + [inst]), rects)
    ensures MayJoin(b.(instances := b.instances + [inst]), Some(inst.z), inst.rect)
  {
    var after := b.(instances := b.instances + [inst]);
    assert forall x :: x in after.instances ==> x in b.instances || x == inst;
  }

  class AlphaBatchList {
    var batches: seq<PrimitiveBatch>
    var itemRects: seq<seq<Rect>>
    var currentBatchIndex: Option<nat>
    var currentZId: Option<int>
    const breakAdvancedBlendBatches: bool
    const lookbackCount: nat

    constructor (breakAdvanced: bool, lookback: nat)
      ensures Valid() && Drawn() == [] && batches == [] && currentBatchIndex.None?
      ensures breakAdvancedBlendBatches == breakAdvanced && lookbackCount == lookback
    {
      batches, itemRects := [], [];
      currentBatchIndex, currentZId := Option.None, Option.None;
      breakAdvancedBlendBatches, lookbackCount := breakAdvanced, lookback;
    }

    /** The instances in the order the renderer draws them. */
    ghost function Drawn(): seq<Instance>
      reads this
    {
      Flatten(InstanceLists(batches))
    }

    ghost predicate Valid()
      reads this
    {
      && |batches| == |itemRects|
      && (forall b :: 0 <= b < |batches| ==> BatchOk(batches[b], itemRects[b]))
      && CurrentOk(batches, itemRects, currentBatchIndex, currentZId)
      && Ordered(Drawn())
    }

    /** The bounding rectangle for which the current batch was selected. */
    function CurrentRect(): Rect
      requires currentBatchIndex.Some? && currentBatchIndex.value < |itemRects|
      requires itemRects[currentBatchIndex.value] != []
      reads this
    {
      LastRect(itemRects[currentBatchIndex.value])
    }

    /** The selection loop is bypassed: same z id, and the current batch takes the key. */
    predicate FastPath(key: BatchKey, zId: int)
      requires currentBatchIndex.Some? ==> currentBatchIndex.value < |batches|
      reads this
    {
      && currentZId == Some(zId)
      && currentBatchIndex.Some?
      && batches[currentBatchIndex.value].key.IsCompatibleWith(key)
    }

    /** What the selection loop must answer: the latest candidate, or a new batch at the end. */
    ghost predicate Selects(key: BatchKey, rect: Rect, index: nat)
      requires |batches| == |itemRects|
      reads this
    {
      && index <= |batches|
      && (index < |batches| ==> Candidate(batches, itemRects, lookbackCount, key, rect, index))
      && if key.blendMode.Advanced? && breakAdvancedBlendBatches then index == |batches|
         else forall b :: Candidate(batches, itemRects, lookbackCount, key, rect, b) ==> b <= index < |batches|
    }

    /** Where a submission goes: by the fast path to the current batch, else where the selection says. */
    ghost predicate PlaceOf(key: BatchKey, rect: Rect, zId: int, index: nat)
      requires Valid()
      reads this
    {
      && index <= |batches|
      && if FastPath(key, zId) then currentBatchIndex == Some(index) else Selects(key, rect, index)
    }

    /** Looks back for a batch for a multipass (subpixel with background) instance. */
    method FindMultipassBatch(key: BatchKey, rect: Rect) returns (selected: Option<nat>)
      requires Valid() && key.blendMode.SubpixelWithBgColor?
      ensures selected.Some? ==> Candidate(batches, itemRects, lookbackCount, key, rect, selected.value)
      ensures forall b :: Candidate(batches, itemRects, lookbackCount, key, rect, b) ==>
                            selected.Some? && b <= selected.value
    {
      var i, taken := |batches|, 0;
      while 0 < i && taken < lookbackCount
        invariant 0 <= i <= |batches| && taken == |batches| - i
        invariant ClearAfter(itemRects, i - 1, rect)
        invariant forall b :: i <= b < |batches| ==>
                                !Candidate(batches, itemRects, lookbackCount, key, rect, b)
      {
        i, taken := i - 1, taken + 1;
        for k := 0 to |itemRects[i]|
          invariant forall q :: q in itemRects[i][..k] ==> !q.Intersects(rect)
        {
          if itemRects[i][k].Intersects(rect) {
            assert itemRects[i][k] in itemRects[i];
            return Option.None;
          }
        }
        assert !Hits(itemRects[i], rect);
        if batches[i].key.IsCompatibleWith(key) {
          return Some(i);
        }
      }
      return Option.None;
    }

    /** Looks back for a batch for an ordinary blended instance. A compatible batch is taken
        before its own rectangles are looked at. */
    method FindDefaultBatch(key: BatchKey, rect: Rect) returns (selected: Option<nat>)
      requires Valid() && !key.blendMode.SubpixelWithBgColor?
      ensures selected.Some? ==> Candidate(batches, itemRects, lookbackCount, key, rect, selected.value)
      ensures forall b :: Candidate(batches, itemRects, lookbackCount, key, rect, b) ==>
                            selected.Some? && b <= selected.value
    {
      var i, taken := |batches|, 0;
      while 0 < i && taken < lookbackCount
        invariant 0 <= i <= |batches| && taken == |batches| - i
        invariant ClearAfter(itemRects, i - 1, rect)
        invariant forall b :: i <= b < |batches| ==>
                                !Candidate(batches, itemRects, lookbackCount, key, rect, b)
      {
        i, taken := i - 1, taken + 1;
        if batches[i].key.IsCompatibleWith(key) {
          return Some(i);
        }
        for k := 0 to |itemRects[i]|
          invariant forall q :: q in itemRects[i][..k] ==> !q.Intersects(rect)
        {
          if itemRects[i][k].Intersects(rect) {
            assert itemRects[i][k] in itemRects[i];
            return Option.None;
          }
        }
        assert !Hits(itemRects[i], rect);
      }
      return Option.None;
    }

    /** The three ways of choosing an earlier batch, by blend mode. */
    method SelectBatch(key: BatchKey, rect: Rect) returns (selected: Option<nat>)
      requires Valid()
      ensures selected.Some? ==> Candidate(batches, itemRects, lookbackCount, key, rect, selected.value)
      ensures if key.blendMode.Advanced? && breakAdvancedBlendBatches then selected.None? else
              forall b :: Candidate(batches, itemRects, lookbackCount, key, rect, b) ==>
                            selected.Some? && b <= selected.value
    {
      if key.blendMode.SubpixelWithBgColor? {
        selected := FindMultipassBatch(key, rect);
      } else if key.blendMode.Advanced? && breakAdvancedBlendBatches {
        // Do not try to find a batch.
        selected := Option.None;
      } else {
        selected := FindDefaultBatch(key, rect);
      }
    }

    /** Appends an empty batch with this key. */
    method PushNewBatch(key: BatchKey)
      requires Valid()
      modifies `batches, `itemRects
      ensures batches == old(batches) + [NewBatch(key)] && itemRects == old(itemRects) + [[]]
      ensures Drawn() == old(Drawn())
      ensures currentBatchIndex.Some? ==> CurrentRect() == old(CurrentRect())
    {
      FlattenConcat(InstanceLists(batches), [[]]);
      assert InstanceLists(batches + [NewBatch(key)]) == InstanceLists(batches) + [[]];
      batches := batches + [NewBatch(key)];
      itemRects := itemRects + [[]];
    }

    /** A batch asks for every feature that one of its items needs. */
    method RequestFeatures(index: nat, features: set<Feature>)
      requires Valid() && index < |batches|
      modifies `batches
      ensures Valid() && Drawn() == old(Drawn())
      ensures |batches| == |old(batches)| && itemRects == old(itemRects)
      ensures forall b :: 0 <= b < |batches| && b != index ==> batches[b] == old(batches)[b]
      ensures batches[index] == old(batches)[index].(features := old(batches)[index].features + features)
    {
      ghost var before := InstanceLists(batches);
      batches := batches[index := batches[index].(features := batches[index].features + features)];
      assert InstanceLists(batches) == before;
    }

    /** The selection, when the fast path is not taken. */
    method ChooseBatch(key: BatchKey, rect: Rect, zId: int) returns (index: nat)
      requires Valid()
      modifies this
      ensures Valid() && Drawn() == old(Drawn())
      ensures currentBatchIndex == Some(index) && currentZId == Some(zId) && CurrentRect() == rect
      ensures batches[index].key.IsCompatibleWith(key) && old(Selects(key, rect, index))
      ensures batches == if index < |old(batches)| then old(batches) else old(batches) + [NewBatch(key)]
    {
      var selected := SelectBatch(key, rect);
      if selected == Option.None {
        selected := Some(|batches|);
        PushNewBatch(key);
      }
      index := selected.value;
      currentBatchIndex := selected;
      itemRects := itemRects[index := itemRects[index] + [rect]];
      currentZId := Some(zId);
    }

    /** Selects the batch that the caller's instances go to. The requires clause on the fast path is
        the source's debug assertion: segments that share a z id share their bounding rectangle. */
    method SetParamsAndGetBatch(key: BatchKey, features: set<Feature>, rect: Rect, zId: int) returns (index: nat)
      requires Valid()
      requires FastPath(key, zId) ==> CurrentRect() == rect
      modifies this
      ensures Valid() && Drawn() == old(Drawn())
      ensures currentBatchIndex == Some(index) && currentZId == Some(zId) && CurrentRect() == rect
      ensures batches[index].key.IsCompatibleWith(key) && features <= batches[index].features
      ensures old(PlaceOf(key, rect, zId, index)) && (old(FastPath(key, zId)) ==> itemRects == old(itemRects))
      ensures batches == Requested(old(batches), index, key, features)
    {
      if currentZId != Some(zId) || currentBatchIndex == Option.None
         || !batches[currentBatchIndex.value].key.IsCompatibleWith(key) {
        index := ChooseBatch(key, rect, zId);
      } else {
        index := currentBatchIndex.value;
      }
      RequestFeatures(index, features);
    }

    /** Appends an instance to the batch just selected. */
    method PushInstance(inst: Instance)
      requires Valid() && currentBatchIndex.Some? && currentZId == Some(inst.z) && inst.rect == CurrentRect()
      requires var b := batches[currentBatchIndex.value];
               b.key.IsCompatibleWith(inst.key) && inst.features <= b.features
      requires AllBefore(Drawn(), inst.order)
      modifies `batches
      ensures Valid()
      ensures multiset(Drawn()) == old(multiset(Drawn())) + multiset{inst}
      ensures var i := currentBatchIndex.value;
              batches == old(batches)[i := old(batches)[i].(instances := old(batches)[i].instances + [inst])]
    {
      var i := currentBatchIndex.value;
      AppendKeepsOrder(batches, itemRects, i, inst);
      Joined(batches[i], itemRects[i], inst);
      batches := batches[i := batches[i].(instances := batches[i].instances + [inst])];
    }

    /** One submission: select the batch, then append to it. */
    method PushSingleInstance(inst: Instance) returns (ghost index: nat)
      requires Valid() && AllBefore(Drawn(), inst.order)
      requires FastPath(inst.key, inst.z) ==> CurrentRect() == inst.rect
      modifies this
      ensures Valid() && multiset(Drawn()) == old(multiset(Drawn())) + multiset{inst}
      ensures old(PlaceOf(inst.key, inst.rect, inst.z, index)) && batches == Received(old(batches), index, inst)
      ensures currentBatchIndex == Some(index) && currentZId == Some(inst.z) && CurrentRect() == inst.rect
      ensures inst in batches[index].instances
      ensures forall b, x :: 0 <= b < |batches| && x in batches[b].instances ==> DrawnTogether(batches[b].key, x.key)
    {
      index := SetParamsAndGetBatch(inst.key, inst.features, inst.rect, inst.z);
      PushInstance(inst);
      forall b, x | 0 <= b < |batches| && x in batches[b].instances ensures DrawnTogether(batches[b].key, x.key) {
        assert BatchOk(batches[b], itemRects[b]);
        CompatibleIff(batches[b].key, x.key);
      }
    }
  }

  /** No rectangle of a later batch, or for a multipass item of the batch itself, shares a point with `r`. */
  ghost predicate NothingMeets(itemRects: seq<seq<Rect>>, b: int, multipass: bool, r: Rect) {
    forall c, k :: 0 <= c < |itemRects| && 0 <= k < |itemRects[c]| && (b < c || (multipass && b == c)) ==>
      !Meet(itemRects[c][k], r)
  }

  /** Exactly when a batch may take an item, by what its key says and by the points of the rectangles. */
  lemma {:induction false} CandidateIff(batches: seq<PrimitiveBatch>, itemRects: seq<seq<Rect>>, lookback: nat,
                                        key: BatchKey, r: Rect, b: int)
    requires |batches| == |itemRects| && !r.IsEmptyOrNegative()
    requires forall c, k :: 0 <= c < |itemRects| && 0 <= k < |itemRects[c]| ==> !itemRects[c][k].IsEmptyOrNegative()
    ensures Candidate(batches, itemRects, lookback, key, r, b) <==>
            && 0 <= b < |batches| && |batches| <= b + lookback
            && DrawnTogether(batches[b].key, key)
            && NothingMeets(itemRects, b, key.blendMode == SubpixelWithBgColor, r)
  {
    forall c | 0 <= c < |itemRects|
      ensures Hits(itemRects[c], r) <==> exists k :: 0 <= k < |itemRects[c]| && Meet(itemRects[c][k], r)
    {
      HitsIff(itemRects[c], r);
    }
    if 0 <= b < |batches| {
      CompatibleIff(batches[b].key, key);
    }
  }

  lemma {:induction false} HitsIff(rects: seq<Rect>, r: Rect)
    requires !r.IsEmptyOrNegative() && forall k :: 0 <= k < |rects| ==> !rects[k].IsEmptyOrNegative()
    ensures Hits(rects, r) <==> exists k :: 0 <= k < |rects| && Meet(rects[k], r)
  {
    forall k | 0 <= k < |rects| ensures rects[k].Intersects(r) <==> Meet(rects[k], r) {
      IntersectsIff(rects[k], r);
    }
  }

  /** A latecomer may go in front of the instances in `back` exactly when it overlaps none of them. */
  lemma {:induction false} InsertInOrder(front: seq<Instance>, back: seq<Instance>, inst: Instance)
    requires Ordered(front + back) && AllBefore(front + back, inst.order)
    ensures Ordered(front + [inst] + back) <==> forall x :: x in back ==> !inst.rect.Intersects(x.rect)
  {
    var s, t, n := front + back, front + [inst] + back, |front|;
    assert forall k :: n < k < |t| ==> t[k] in back;
    if forall x :: x in back ==> !inst.rect.Intersects(x.rect) {
      forall j, k | 0 <= j < k < |t| && t[j].rect.Intersects(t[k].rect)
        ensures t[j].order < t[k].order
      {
        if j == n {
          // Excluded: nothing in `back` meets the new rectangle.
        } else if k == n {
          assert t[j] == s[j];
          assert s[j] in s;
        } else {
          var j', k' := if j < n then j else j - 1, if k < n then k else k - 1;
          assert t[j] == s[j'] && t[k] == s[k'];
        }
      }
    } else {
      var i :| 0 <= i < |back| && inst.rect.Intersects(back[i].rect);
      assert t[n] == inst && t[n + 1 + i] == back[i];
      assert s[n + i] == back[i];
      assert s[n + i] in s;
    }
  }

  /** Appending to batch `i` keeps the order when nothing after `i` meets the new rectangle. */
  lemma {:induction false} AppendKeepsOrder(batches: seq<PrimitiveBatch>, itemRects: seq<seq<Rect>>, i: nat,
      inst: Instance)
    requires |batches| == |itemRects| && i < |batches|
    requires forall b :: 0 <= b < |batches| ==> BatchOk(batches[b], itemRects[b])
    requires ClearAfter(itemRects, i, inst.rect)
    requires Ordered(Flatten(InstanceLists(batches)))
    requires AllBefore(Flatten(InstanceLists(batches)), inst.order)
    ensures var after := Flatten(InstanceLists(batches[i := batches[i].(instances := batches[i].instances + [inst])]));
            Ordered(after) && multiset(after) == multiset(Flatten(InstanceLists(batches))) + multiset{inst}
  {
    var lists := InstanceLists(batches);
    var after := InstanceLists(batches[i := batches[i].(instances := batches[i].instances + [inst])]);
    assert after == lists[i := lists[i] + [inst]];
    FlattenAppend(lists, i, inst);
    var front, back := Flatten(lists[..i]) + lists[i], Flatten(lists[i + 1..]);
    forall x | x in back ensures !inst.rect.Intersects(x.rect) {
      var b := FlattenMember(lists[i + 1..], x);
      assert x in batches[i + 1 + b].instances;
      assert !Hits(itemRects[i + 1 + b], inst.rect);
    }
    InsertInOrder(front, back, inst);
  }
}
