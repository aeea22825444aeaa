/** A builder routes each submission to the opaque or the blended list; its finished batches are
    drawn on their own, or merged with those of other builders. */
module BatchBuilding {
  import opened Geometry
  import opened Options
  import opened Sequences
  import opened BatchKeys
  import opened AlphaBatching
  import opened OpaqueBatching
  import opened Painter
  import opened BatchMerging

  /** The lists hold exactly the submissions of `history`, the blended ones in a safe order. */
  ghost predicate Faithful(history: seq<Instance>, solids: seq<Instance>, blended: seq<Instance>) {
    && (forall i :: 0 <= i < |history| ==> history[i].order == i)
    && multiset(solids) == multiset(OpaqueOf(history))
    && multiset(blended) == multiset(BlendedOf(history))
    && Ordered(blended)
  }

  /** The blended list after an instance went to batch `index`. */
  ghost predicate BlendedAt(list: AlphaBatchList, before: seq<PrimitiveBatch>, index: nat, inst: Instance)
    requires index <= |before|
    reads list
  {
    && list.batches == Received(before, index, inst) && |list.itemRects| > index && list.itemRects[index] != []
    && list.currentBatchIndex == Some(index) && list.currentZId == Some(inst.z)
    && LastRect(list.itemRects[index]) == inst.rect
  }

  class AlphaBatchBuilder {
    const alphaBatchList: AlphaBatchList
    const opaqueBatchList: OpaqueBatchList
    /** Numbers the submissions, so that a drawn instance can be traced back. */
    var submitted: nat
    ghost var history: seq<Instance>

    constructor (screenWidth: nat, screenHeight: nat, breakAdvanced: bool, lookback: nat)
      ensures Valid() && history == []
      ensures fresh(alphaBatchList) && fresh(opaqueBatchList)
      ensures alphaBatchList.batches == [] && alphaBatchList.currentBatchIndex.None?
      ensures alphaBatchList.breakAdvancedBlendBatches == breakAdvanced
      ensures alphaBatchList.lookbackCount == opaqueBatchList.lookbackCount == lookback
      ensures opaqueBatchList.pixelAreaThresholdForNewBatch * 4.0 == (screenWidth * screenHeight) as real
    {
      var alphas := new AlphaBatchList(breakAdvanced, lookback);
      var opaques := new OpaqueBatchList((screenWidth * screenHeight) as real / 4.0, lookback);
      alphaBatchList, opaqueBatchList, submitted, history := alphas, opaques, 0, [];
    }

    ghost predicate Valid()
      reads this, alphaBatchList, opaqueBatchList
    {
      && alphaBatchList.Valid() && opaqueBatchList.Valid() && submitted == |history|
      && Faithful(history, opaqueBatchList.Drawn(), alphaBatchList.Drawn())
    }

    /** Where an instance went: an opaque one leaves the blended list alone, any other goes to the batch
        that the look-back chooses and leaves the opaque list alone. */
    twostate predicate Dispatched(inst: Instance, index: nat)
      reads alphaBatchList, opaqueBatchList
    {
      if inst.key.blendMode == BlendMode.None then unchanged(alphaBatchList)
      else
        && unchanged(opaqueBatchList) && old(alphaBatchList.Valid())
        && old(alphaBatchList.PlaceOf(inst.key, inst.rect, inst.z, index))
        && BlendedAt(alphaBatchList, old(alphaBatchList.batches), index, inst)
    }

    /** Submits one instance; the requires clause is the debug assertion on segments of a primitive. */
    method PushSingleInstance(key: BatchKey, features: set<Feature>, rect: Rect, zId: int)
      returns (ghost index: nat)
      requires Valid()
      requires !key.IsOpaque() && alphaBatchList.FastPath(key, zId) ==> alphaBatchList.CurrentRect() == rect
      modifies `history, `submitted, alphaBatchList, opaqueBatchList
      ensures Valid()
      ensures history == old(history) + [Instance(|old(history)|, key, rect, zId, features)]
      ensures Dispatched(Instance(|old(history)|, key, rect, zId, features), index)
    {
      var inst := Instance(submitted, key, rect, zId, features);
      index := Route(inst, history);
      history := history + [inst];
      submitted := submitted + 1;
    }

    /** To the opaque list or to the blended one, by blend mode. */
    method Route(inst: Instance, ghost before: seq<Instance>) returns (ghost index: nat)
      requires alphaBatchList.Valid() && opaqueBatchList.Valid() && inst.order == |before|
      requires Faithful(before, opaqueBatchList.Drawn(), alphaBatchList.Drawn())
      requires !IsOpaque(inst) && alphaBatchList.FastPath(inst.key, inst.z) ==>
            alphaBatchList.CurrentRect() == inst.rect
      modifies alphaBatchList, opaqueBatchList
      ensures alphaBatchList.Valid() && opaqueBatchList.Valid()
      ensures Faithful(before + [inst], opaqueBatchList.Drawn(), alphaBatchList.Drawn())
      ensures Dispatched(inst, index)
    {
      index := 0;
      ghost var solids, blended := opaqueBatchList.Drawn(), alphaBatchList.Drawn();
      FaithfulBounds(before, solids, blended);
      if inst.key.IsOpaque() {
        var _ := opaqueBatchList.PushSingleInstance(inst);
      } else {
        index := alphaBatchList.PushSingleInstance(inst);
      }
      HistoryGrows(before, solids, blended, opaqueBatchList.Drawn(), alphaBatchList.Drawn(), inst);
    }

    /** Reverses the opaque instances; the builder is as faithful as before. */
    method FinalizeOpaque()
      requires Valid()
      modifies opaqueBatchList
      ensures Valid() && opaqueBatchList.batches == AllReversed(old(opaqueBatchList.batches))
    {
      opaqueBatchList.Finalize();
    }

    /** Finishes the builder: an unscissored task joins the shared container, a scissored one gets
        a container of its own. */
    method Build(containers: seq<AlphaBatchContainer>, merged: AlphaBatchContainer, taskRect: Rect,
                 taskScissorRect: Option<Rect>)
      returns (containers': seq<AlphaBatchContainer>)
      requires Valid() && AllSuitBlend(merged.opaqueBatches) && AllSuitBlend(merged.alphaBatches)
      modifies opaqueBatchList, merged
      ensures AllSuitBlend(merged.opaqueBatches) && AllSuitBlend(merged.alphaBatches)
      ensures Valid() && history == old(history)
      ensures taskScissorRect.None? ==>
                && containers' == containers
                && merged.alphaBatches == MergeAll(old(merged.alphaBatches), alphaBatchList.batches, 0)
                && merged.opaqueBatches
                     == MergeEach(old(merged.opaqueBatches), AllReversed(old(opaqueBatchList.batches)))
                && merged.taskRect == Union(old(merged.taskRect), taskRect)
                && Merged(history, old(merged.Solids()), old(merged.Blended()), merged.Solids(), merged.Blended())
      ensures taskScissorRect.Some? ==>
                && |containers'| == |containers| + 1 && containers'[..|containers|] == containers
                && Faithful(history, containers'[|containers|].Solids(), containers'[|containers|].Blended())
                && AllSuitBlend(containers'[|containers|].alphaBatches)
                && AllPassSafe(containers'[|containers|].alphaBatches)
                && containers'[|containers|].alphaBatches == alphaBatchList.batches
                && containers'[|containers|].opaqueBatches == AllReversed(old(opaqueBatchList.batches))
                && containers'[|containers|].taskRect == taskRect
                && containers'[|containers|].taskScissorRect == taskScissorRect
                && merged.Solids() == old(merged.Solids()) && merged.Blended() == old(merged.Blended())
    {
      FinalizeOpaque();
      if taskScissorRect.None? {
        MergeInto(merged, taskRect);
        containers' := containers;
      } else {
        var c := OwnContainer(taskRect, taskScissorRect);
        containers' := containers + [c];
      }
    }

    method MergeInto(merged: AlphaBatchContainer, taskRect: Rect)
      requires Valid() && AllSuitBlend(merged.opaqueBatches) && AllSuitBlend(merged.alphaBatches)
      modifies merged
      ensures AllSuitBlend(merged.opaqueBatches) && AllSuitBlend(merged.alphaBatches)
      ensures Merged(history, old(merged.Solids()), old(merged.Blended()), merged.Solids(), merged.Blended())
      ensures merged.alphaBatches == MergeAll(old(merged.alphaBatches), alphaBatchList.batches, 0)
      ensures merged.opaqueBatches == MergeEach(old(merged.opaqueBatches), opaqueBatchList.batches)
      ensures merged.taskRect == Union(old(merged.taskRect), taskRect)
    {
      ghost var own, shown := opaqueBatchList.Drawn(), alphaBatchList.Drawn();
      assert Faithful(history, own, shown);
      merged.Merge(opaqueBatchList.batches, alphaBatchList.batches, taskRect);
    }

    method OwnContainer(taskRect: Rect, taskScissorRect: Option<Rect>) returns (c: AlphaBatchContainer)
      requires Valid()
      ensures fresh(c) && Faithful(history, c.Solids(), c.Blended())
      ensures AllSuitBlend(c.alphaBatches) && AllPassSafe(c.alphaBatches)
      ensures c.alphaBatches == alphaBatchList.batches && c.opaqueBatches == opaqueBatchList.batches
      ensures c.taskRect == taskRect && c.taskScissorRect == taskScissorRect
    {
      c := new AlphaBatchContainer.Of(opaqueBatchList.batches, alphaBatchList.batches, taskScissorRect, taskRect);
    }
  }

  /** The builders' lists are their own. */
  ghost predicate Separate(builders: seq<AlphaBatchBuilder>) {
    forall i, j :: 0 <= i < j < |builders| ==> builders[i].opaqueBatchList != builders[j].opaqueBatchList
  }

  ghost predicate AllValid(builders: seq<AlphaBatchBuilder>)
    reads builders, set b | b in builders :: b.alphaBatchList, set b | b in builders :: b.opaqueBatchList
  {
    forall i :: 0 <= i < |builders| ==> builders[i].Valid()
  }

  ghost function Histories(builders: seq<AlphaBatchBuilder>): (r: seq<seq<Instance>>)
    reads builders
    ensures |r| == |builders| && forall i :: 0 <= i < |r| ==> r[i] == builders[i].history
  {
    seq(|builders|, i requires 0 <= i < |builders| reads builders => builders[i].history)
  }

  ghost function AlphaLists(builders: seq<AlphaBatchBuilder>): (r: seq<seq<PrimitiveBatch>>)
    reads set b | b in builders :: b.alphaBatchList
    ensures |r| == |builders| && forall i :: 0 <= i < |r| ==> r[i] == builders[i].alphaBatchList.batches
  {
    seq(|builders|, i requires 0 <= i < |builders| reads set b | b in builders :: b.alphaBatchList =>
      builders[i].alphaBatchList.batches)
  }

  /** A run of merges with the batches it ends with. */
  ghost predicate RunTo(histories: seq<seq<Instance>>, lists: seq<seq<PrimitiveBatch>>, k: nat, states: seq<Lists>,
                        shown: Lists, batches: seq<PrimitiveBatch>)
  {
    && k <= |histories| == |lists|
    && MergeRun(histories[..k], states) && states[k] == shown && batches == ContainerOf(lists[..k])
  }

  lemma {:induction false} RunGrows(histories: seq<seq<Instance>>, lists: seq<seq<PrimitiveBatch>>, k: nat,
      states: seq<Lists>, before: Lists, batches: seq<PrimitiveBatch>, after: Lists)
    requires k < |histories| && RunTo(histories, lists, k, states, before, batches)
    requires MergedNext(histories[k], before, after)
    ensures RunTo(histories, lists, k + 1, states + [after], after, MergeAll(batches, lists[k], 0))
  {
    forall i | 0 <= i < k + 1
      ensures MergedNext(histories[..k + 1][i], (states + [after])[i], (states + [after])[i + 1])
    {
      if i < k {
        assert MergedNext(histories[..k][i], states[i], states[i + 1]);
      }
    }
    assert lists[..k + 1][..k] == lists[..k];
  }

  lemma {:induction false} HeldHistories(builders: seq<AlphaBatchBuilder>, histories: seq<seq<Instance>>,
      lists: seq<seq<PrimitiveBatch>>)
    requires Holding(builders, histories, lists)
    ensures Histories(builders) == histories && AlphaLists(builders) == lists
  {
    assert forall i :: 0 <= i < |builders| ==> HoldsOne(builders[i], histories[i], lists[i]);
  }

  lemma {:induction false} RunStarts(histories: seq<seq<Instance>>, lists: seq<seq<PrimitiveBatch>>)
    requires |histories| == |lists|
    ensures RunTo(histories, lists, 0, [Lists([], [])], Lists([], []), [])
  {
    assert histories[..0] == [] && lists[..0] == [];
  }

  lemma {:induction false} RunEnds(histories: seq<seq<Instance>>, lists: seq<seq<PrimitiveBatch>>, states: seq<Lists>,
      shown: Lists, batches: seq<PrimitiveBatch>)
    requires RunTo(histories, lists, |histories|, states, shown, batches)
    ensures MergeRun(histories, states) && states[|histories|] == shown && batches == ContainerOf(lists)
  {
    assert histories[..|histories|] == histories && lists[..|lists|] == lists;
  }

  /** Builds unscissored tasks one after the other into a container of their own. */
  method BuildAll(builders: seq<AlphaBatchBuilder>, taskRects: seq<Rect>)
    returns (merged: AlphaBatchContainer, ghost states: seq<Lists>)
    requires AllValid(builders) && Separate(builders) && |taskRects| == |builders|
    modifies set b | b in builders :: b.opaqueBatchList
    ensures fresh(merged) && AllSuitBlend(merged.alphaBatches) && Histories(builders) == old(Histories(builders))
    ensures MergeRun(Histories(builders), states)
    ensures AlphaLists(builders) == old(AlphaLists(builders))
    ensures merged.alphaBatches == ContainerOf(AlphaLists(builders))
    ensures states[|builders|] == Lists(merged.Solids(), merged.Blended())
  {
    merged := new AlphaBatchContainer(Option.None);
    states := [Lists([], [])];
    ghost var histories, lists := Histories(builders), AlphaLists(builders);
    RunStarts(histories, lists);
    var containers := [];
    for k := 0 to |builders|
      invariant fresh(merged) && AllSuitBlend(merged.opaqueBatches) && AllSuitBlend(merged.alphaBatches)
      invariant Holding(builders, histories, lists)
      invariant RunTo(histories, lists, k, states, Lists(merged.Solids(), merged.Blended()), merged.alphaBatches)
    {
      containers, states := BuildOne(builders, k, containers, merged, taskRects[k], histories, lists, states);
    }
    RunEnds(histories, lists, states, Lists(merged.Solids(), merged.Blended()), merged.alphaBatches);
    HeldHistories(builders, histories, lists);
  }

  /** One more builder joins the container. */
  method BuildNext(b: AlphaBatchBuilder, containers: seq<AlphaBatchContainer>, merged: AlphaBatchContainer,
                   taskRect: Rect, ghost histories: seq<seq<Instance>>, ghost lists: seq<seq<PrimitiveBatch>>,
                   ghost k: nat, ghost states: seq<Lists>)
    returns (containers': seq<AlphaBatchContainer>, ghost states': seq<Lists>)
    requires b.Valid() && k < |histories| == |lists|
    requires histories[k] == b.history && lists[k] == b.alphaBatchList.batches
    requires RunTo(histories, lists, k, states, Lists(merged.Solids(), merged.Blended()), merged.alphaBatches)
    requires AllSuitBlend(merged.opaqueBatches) && AllSuitBlend(merged.alphaBatches)
    modifies b.opaqueBatchList, merged
    ensures b.Valid() && AllSuitBlend(merged.opaqueBatches) && AllSuitBlend(merged.alphaBatches)
    ensures RunTo(histories, lists, k + 1, states', Lists(merged.Solids(), merged.Blended()), merged.alphaBatches)
  {
    ghost var before, batches := Lists(merged.Solids(), merged.Blended()), merged.alphaBatches;
    containers' := b.Build(containers, merged, taskRect, Option.None);
    ghost var after := Lists(merged.Solids(), merged.Blended());
    states' := states + [after];
    RunGrows(histories, lists, k, states, before, batches, after);
  }

  /** The builders hold these histories and blended batches. */
  ghost predicate Holding(builders: seq<AlphaBatchBuilder>, histories: seq<seq<Instance>>,
                          lists: seq<seq<PrimitiveBatch>>)
    reads builders, set b | b in builders :: b.alphaBatchList, set b | b in builders :: b.opaqueBatchList
  {
    && |builders| == |histories| == |lists|
    && forall i :: 0 <= i < |builders| ==> HoldsOne(builders[i], histories[i], lists[i])
  }

  ghost predicate HoldsOne(b: AlphaBatchBuilder, history: seq<Instance>, list: seq<PrimitiveBatch>)
    reads b, b.alphaBatchList, b.opaqueBatchList
  {
    b.Valid() && b.history == history && b.alphaBatchList.batches == list
  }

  /** The other builders are left as they are. */
  method BuildOne(builders: seq<AlphaBatchBuilder>, k: nat, containers: seq<AlphaBatchContainer>,
                  merged: AlphaBatchContainer, taskRect: Rect, ghost histories: seq<seq<Instance>>,
                  ghost lists: seq<seq<PrimitiveBatch>>, ghost states: seq<Lists>)
    returns (containers': seq<AlphaBatchContainer>, ghost states': seq<Lists>)
    requires Holding(builders, histories, lists) && Separate(builders) && k < |builders|
    requires RunTo(histories, lists, k, states, Lists(merged.Solids(), merged.Blended()), merged.alphaBatches)
    requires AllSuitBlend(merged.opaqueBatches) && AllSuitBlend(merged.alphaBatches)
    modifies builders[k].opaqueBatchList, merged
    ensures Holding(builders, histories, lists)
    ensures AllSuitBlend(merged.opaqueBatches) && AllSuitBlend(merged.alphaBatches)
    ensures RunTo(histories, lists, k + 1, states', Lists(merged.Solids(), merged.Blended()), merged.alphaBatches)
  {
    assert HoldsOne(builders[k], histories[k], lists[k]);
    containers', states' := BuildNext(builders[k], containers, merged, taskRect, histories, lists, k, states);
    forall i | 0 <= i < |builders| ensures HoldsOne(builders[i], histories[i], lists[i]) {
      assert old(HoldsOne(builders[i], histories[i], lists[i]));
      assert i != k ==> builders[i].opaqueBatchList != builders[k].opaqueBatchList;
    }
  }

  /** A faithful builder's instances were added to what the container held. */
  ghost predicate Merged(history: seq<Instance>, solids: seq<Instance>, blended: seq<Instance>,
                         solids': seq<Instance>, blended': seq<Instance>)
  {
    exists own: seq<Instance>, shown: seq<Instance> ::
      && Faithful(history, own, shown)
      && multiset(solids') == multiset(solids) + multiset(own)
      && Shuffle(blended, shown, blended')
  }

  lemma {:induction false} FaithfulBounds(history: seq<Instance>, solids: seq<Instance>, blended: seq<Instance>)
    requires Faithful(history, solids, blended)
    ensures AllBefore(blended, |history|)
  {
    SameMembers(blended, BlendedOf(history));
  }

  lemma {:induction false} HistoryGrows(history: seq<Instance>, solids: seq<Instance>, blended: seq<Instance>,
                     solids': seq<Instance>, blended': seq<Instance>, inst: Instance)
    requires Faithful(history, solids, blended) && inst.order == |history| && Ordered(blended')
    requires if IsOpaque(inst) then multiset(solids') == multiset(solids) + multiset{inst} && blended' == blended
             else multiset(blended') == multiset(blended) + multiset{inst} && solids' == solids
    ensures Faithful(history + [inst], solids', blended')
  {
    AppendToHistory(history, inst);
  }

  /** A faithful pair of lists renders what the painter's algorithm paints, at every point. */
  lemma {:induction false} BuilderPaintsHistory<C>(scene: Scene<C>, history: seq<Instance>, solids: seq<Instance>,
                                blended: seq<Instance>, p: Point, c: C)
    requires Bounded(scene) && WellLayered(scene, history, p)
    requires Faithful(history, solids, blended)
    ensures Render(scene, solids, blended, p, c) == Paint(scene, history, p, c)
  {
    FaithfulEverywhere(scene, history, solids, blended, p);
    PaintersEquivalence(scene, history, solids, blended, p, c);
  }

  lemma {:induction false} FaithfulEverywhere<C>(scene: Scene<C>, history: seq<Instance>, solids: seq<Instance>,
                              blended: seq<Instance>, p: Point)
    requires Bounded(scene) && Faithful(history, solids, blended)
    ensures FaithfulAt(scene, history, solids, blended, p)
  {
    OrderedShowsHistory(scene, history, blended, p);
    var keep := Keep(scene, p, true);
    FilterPermutation(solids, OpaqueOf(history), keep);
    FilterTwice(history, x => IsOpaque(x), keep);
    SameMembers(solids, OpaqueOf(history));
    SameMembers(blended, BlendedOf(history));
  }

  lemma {:induction false} MergedMembers(solids: seq<Instance>, blended: seq<Instance>, own: seq<Instance>,
      shown: seq<Instance>, solids': seq<Instance>, blended': seq<Instance>)
    requires multiset(solids') == multiset(solids) + multiset(own) && Shuffle(blended, shown, blended')
    requires forall x :: x in solids || x in own ==> IsOpaque(x)
    requires forall x :: x in blended || x in shown ==> !IsOpaque(x)
    ensures forall x :: x in solids' ==> IsOpaque(x)
    ensures forall x :: x in blended' ==> !IsOpaque(x)
  {
    ShuffleMembers(blended, shown, blended');
    SameMembers(blended', blended + shown);
    SameMembers(solids', solids + own);
  }

  /** Opaque instances that do not touch the point add nothing there. */
  lemma {:induction false} KeptBeside<C>(scene: Scene<C>, solids: seq<Instance>, own: seq<Instance>,
                                         solids': seq<Instance>, p: Point)
    requires multiset(solids') == multiset(solids) + multiset(own)
    requires multiset(Filter(own, Keep(scene, p, true))) == multiset{}
    ensures multiset(Filter(solids', Keep(scene, p, true))) == multiset(Filter(solids, Keep(scene, p, true)))
  {
    FilterSum(solids, own, solids', Keep(scene, p, true));
  }

  /** One more merge: at a point that one of the two sides leaves alone, the container is faithful to
      the other. */
  lemma {:induction false} MergeFaithfulAt<C>(scene: Scene<C>, history: seq<Instance>, other: seq<Instance>,
                               solids: seq<Instance>, blended: seq<Instance>,
                               solids': seq<Instance>, blended': seq<Instance>, p: Point)
    requires Bounded(scene) && FaithfulAt(scene, history, solids, blended, p)
    requires Merged(other, solids, blended, solids', blended')
    ensures LeavesAlone(scene, other, p) ==> FaithfulAt(scene, history, solids', blended', p)
    ensures LeavesAlone(scene, history, p) ==> FaithfulAt(scene, other, solids', blended', p)
  {
    var own, shown :| Faithful(other, own, shown)
                      && multiset(solids') == multiset(solids) + multiset(own) && Shuffle(blended, shown, blended');
    FaithfulEverywhere(scene, other, own, shown, p);
    MergedMembers(solids, blended, own, shown, solids', blended');
    if LeavesAlone(scene, other, p) {
      NothingKept(scene, other, p);
      KeptBeside(scene, solids, own, solids', p);
      ShuffleFilter(blended, shown, blended', Keep(scene, p, false));
    }
    if LeavesAlone(scene, history, p) {
      NothingKept(scene, history, p);
      KeptBeside(scene, own, solids, solids', p);
      ShuffleFilter(blended, shown, blended', Keep(scene, p, false));
    }
  }

  ghost predicate LeavesAlone<C>(scene: Scene<C>, history: seq<Instance>, p: Point) {
    forall x :: x in history ==> !scene.covers(x, p)
  }

  /** What a container shows, before and after every merge. */
  datatype Lists = Lists(solids: seq<Instance>, blended: seq<Instance>)

  /** Builders with these histories, merged one after the other into an empty container. */
  ghost predicate MergeRun(histories: seq<seq<Instance>>, states: seq<Lists>) {
    && |states| == |histories| + 1 && states[0] == Lists([], [])
    && forall i :: 0 <= i < |histories| ==> MergedNext(histories[i], states[i], states[i + 1])
  }

  ghost predicate MergedNext(history: seq<Instance>, before: Lists, after: Lists) {
    Merged(history, before.solids, before.blended, after.solids, after.blended)
  }

  /** Only task `k` touches the point. */
  ghost predicate OnlyTask<C>(scene: Scene<C>, histories: seq<seq<Instance>>, k: nat, p: Point) {
    forall i :: 0 <= i < |histories| && i != k ==> LeavesAlone(scene, histories[i], p)
  }

  lemma {:induction false} RunFaithfulAt<C>(scene: Scene<C>, histories: seq<seq<Instance>>, states: seq<Lists>,
                                            k: nat, n: nat, p: Point)
    requires Bounded(scene) && MergeRun(histories, states) && OnlyTask(scene, histories, k, p)
    requires k < |histories| && n <= |histories|
    ensures FaithfulAt(scene, if k < n then histories[k] else [], states[n].solids, states[n].blended, p)
  {
    if n == 0 {
      NothingYet(scene, p);
    } else {
      RunFaithfulAt(scene, histories, states, k, n - 1, p);
      assert MergedNext(histories[n - 1], states[n - 1], states[n]);
      var history := if k < n - 1 then histories[k] else [];
      NextFaithfulAt(scene, history, histories[n - 1], states[n - 1], states[n], p, n - 1 == k);
    }
  }

  lemma {:induction false} NothingYet<C>(scene: Scene<C>, p: Point)
    ensures FaithfulAt(scene, [], [], [], p)
  {
  }

  /** The next task of a run is the one that touches the point, or leaves it alone. */
  lemma {:induction false} NextFaithfulAt<C>(scene: Scene<C>, history: seq<Instance>, other: seq<Instance>,
                                             before: Lists, after: Lists, p: Point, own: bool)
    requires Bounded(scene) && FaithfulAt(scene, history, before.solids, before.blended, p)
    requires MergedNext(other, before, after)
    requires if own then history == [] else LeavesAlone(scene, other, p)
    ensures FaithfulAt(scene, if own then other else history, after.solids, after.blended, p)
  {
    MergeFaithfulAt(scene, history, other, before.solids, before.blended, after.solids, after.blended, p);
  }

  /** Any sequence of merges: at a point that one task alone touches, that task's own picture appears,
      whatever came before or after. */
  lemma {:induction false} MergePaintsEachTask<C>(scene: Scene<C>, histories: seq<seq<Instance>>, states: seq<Lists>,
                                                  k: nat, p: Point, c: C)
    requires Bounded(scene) && MergeRun(histories, states) && OnlyTask(scene, histories, k, p)
    requires k < |histories| && WellLayered(scene, histories[k], p)
    ensures var end := states[|histories|];
            && FaithfulAt(scene, histories[k], end.solids, end.blended, p)
            && Render(scene, end.solids, end.blended, p, c) == Paint(scene, histories[k], p, c)
  {
    var end := states[|histories|];
    RunFaithfulAt(scene, histories, states, k, |histories|, p);
    PaintersEquivalence(scene, histories[k], end.solids, end.blended, p, c);
  }

  lemma {:induction false} NothingKept<C>(scene: Scene<C>, history: seq<Instance>, p: Point)
    requires LeavesAlone(scene, history, p)
    ensures Filter(history, Keep(scene, p, true)) == [] && Filter(history, Keep(scene, p, false)) == []
  {
    if history != [] {
      assert history[0] in history;
      assert forall x :: x in history[1..] ==> x in history;
      NothingKept(scene, history[1..], p);
    }
  }

  lemma {:induction false} FilterSum(a: seq<Instance>, b: seq<Instance>, c: seq<Instance>, keep: Instance -> bool)
    requires multiset(c) == multiset(a) + multiset(b)
    ensures multiset(Filter(c, keep)) == multiset(Filter(a, keep)) + multiset(Filter(b, keep))
  {
    FilterPermutation(c, a + b, keep);
    FilterConcat(a, b, keep);
  }
}
