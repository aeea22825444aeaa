/** The list of opaque batches. The depth buffer resolves overlap, so order does not matter here;
    what must survive is every instance, in a batch that suits it. */
module OpaqueBatching {
  import opened Geometry
  import opened Options
  import opened Sequences
  import opened BatchKeys

  class OpaqueBatchList {
    var batches: seq<PrimitiveBatch>
    var currentBatchIndex: Option<nat>
    const pixelAreaThresholdForNewBatch: real
    const lookbackCount: nat

    constructor (threshold: real, lookback: nat)
      ensures Valid() && Drawn() == [] && batches == []
      ensures pixelAreaThresholdForNewBatch == threshold && lookbackCount == lookback
    {
      batches, currentBatchIndex := [], Option.None;
      pixelAreaThresholdForNewBatch, lookbackCount := threshold, lookback;
    }

    ghost function Drawn(): seq<Instance>
      reads this
    {
      Flatten(InstanceLists(batches))
    }

    ghost predicate Valid()
      reads this
    {
      && (forall b :: 0 <= b < |batches| ==> batches[b].Suits())
      && (currentBatchIndex.Some? ==> currentBatchIndex.value < |batches|)
    }

    /** A large item is worth breaking a batch for: it only looks at the last batch. */
    function Window(rect: Rect): nat {
      if rect.w * rect.h > pixelAreaThresholdForNewBatch then 1 else lookbackCount
    }

    /** The latest batch of the window that takes the key, or a new one. */
    ghost predicate Selects(key: BatchKey, rect: Rect, index: nat)
      reads this
    {
      && index <= |batches|
      && (index < |batches| ==>
            |batches| - Window(rect) <= index && batches[index].key.IsCompatibleWith(key))
      && (forall b :: index < b < |batches| && |batches| - Window(rect) <= b ==>
                        !batches[b].key.IsCompatibleWith(key))
      && (index == |batches| ==>
            forall b :: 0 <= b < |batches| && |batches| - Window(rect) <= b ==> !batches[b].key.IsCompatibleWith(key))
    }

    method SelectBatch(key: BatchKey, rect: Rect) returns (selected: Option<nat>)
      requires Valid()
      ensures selected.Some? ==> selected.value < |batches|
      ensures Selects(key, rect, if selected.Some? then selected.value else |batches|)
      ensures rect.w * rect.h > pixelAreaThresholdForNewBatch ==>
                selected == if batches != [] && batches[|batches| - 1].key.IsCompatibleWith(key)
                            then Some(|batches| - 1) else Option.None
      ensures rect.w * rect.h <= pixelAreaThresholdForNewBatch ==>
                forall b: nat :: b < |batches| && |batches| - lookbackCount <= b ==>
                  batches[b].key.IsCompatibleWith(key) ==>
                    selected.Some? && b <= selected.value && |batches| - lookbackCount <= selected.value
    {
      if rect.w * rect.h > pixelAreaThresholdForNewBatch {
        if batches != [] && batches[|batches| - 1].key.IsCompatibleWith(key) {
          return Some(|batches| - 1);
        }
      } else {
        var i, taken := |batches|, 0;
        while 0 < i && taken < lookbackCount
          invariant 0 <= i <= |batches| && taken == |batches| - i <= lookbackCount
          invariant forall b :: i <= b < |batches| ==> !batches[b].key.IsCompatibleWith(key)
        {
          i, taken := i - 1, taken + 1;
          if batches[i].key.IsCompatibleWith(key) {
            return Some(i);
          }
        }
      }
      return Option.None;
    }

    method RequestFeatures(index: nat, features: set<Feature>)
      requires Valid() && index < |batches|
      modifies `batches
      ensures Valid() && Drawn() == old(Drawn())
      ensures batches ==
                old(batches)[index := old(batches)[index].(features := old(batches)[index].features + features)]
    {
      ghost var before := InstanceLists(batches);
      batches := batches[index := batches[index].(features := batches[index].features + features)];
      assert InstanceLists(batches) == before;
    }

    /** The selection, when the current batch does not take the key. */
    method ChooseBatch(key: BatchKey, rect: Rect) returns (index: nat)
      requires Valid()
      modifies this
      ensures Valid() && Drawn() == old(Drawn()) && currentBatchIndex == Some(index)
      ensures batches[index].key.IsCompatibleWith(key) && old(Selects(key, rect, index))
      ensures batches == if index < |old(batches)| then old(batches) else old(batches) + [NewBatch(key)]
    {
      var selected := SelectBatch(key, rect);
      if selected == Option.None {
        selected := Some(|batches|);
        FlattenConcat(InstanceLists(batches), [[]]);
        assert InstanceLists(batches + [NewBatch(key)]) == InstanceLists(batches) + [[]];
        batches := batches + [NewBatch(key)];
      }
      index := selected.value;
      currentBatchIndex := selected;
    }

    method SetParamsAndGetBatch(key: BatchKey, features: set<Feature>, rect: Rect) returns (index: nat)
      requires Valid()
      modifies this
      ensures Valid() && Drawn() == old(Drawn()) && currentBatchIndex == Some(index)
      ensures batches[index].key.IsCompatibleWith(key) && features <= batches[index].features
      ensures if old(currentBatchIndex.Some? && batches[currentBatchIndex.value].key.IsCompatibleWith(key))
              then Some(index) == old(currentBatchIndex)
              else old(Selects(key, rect, index))
      ensures index <= |old(batches)| && batches == Requested(old(batches), index, key, features)
    {
      if currentBatchIndex == Option.None || !batches[currentBatchIndex.value].key.IsCompatibleWith(key) {
        index := ChooseBatch(key, rect);
      } else {
        index := currentBatchIndex.value;
      }
      RequestFeatures(index, features);
    }

    method PushInstance(inst: Instance)
      requires Valid() && currentBatchIndex.Some?
      requires var b := batches[currentBatchIndex.value];
               b.key.IsCompatibleWith(inst.key) && inst.features <= b.features
      modifies `batches
      ensures Valid()
      ensures multiset(Drawn()) == old(multiset(Drawn())) + multiset{inst}
      ensures var i := currentBatchIndex.value;
              batches == old(batches)[i := old(batches)[i].(instances := old(batches)[i].instances + [inst])]
    {
      var i := currentBatchIndex.value;
      var lists := InstanceLists(batches);
      FlattenAppend(lists, i, inst);
      batches := batches[i := batches[i].(instances := batches[i].instances + [inst])];
      assert InstanceLists(batches) == lists[i := lists[i] + [inst]];
    }

    method PushSingleInstance(inst: Instance) returns (ghost index: nat)
      requires Valid()
      modifies this
      ensures Valid() && multiset(Drawn()) == old(multiset(Drawn())) + multiset{inst}
      ensures currentBatchIndex == Some(index) && inst in batches[index].instances
      ensures index <= |old(batches)| && batches == Received(old(batches), index, inst)
      ensures forall b, x :: 0 <= b < |batches| && x in batches[b].instances ==> DrawnTogether(batches[b].key, x.key)
    {
      index := SetParamsAndGetBatch(inst.key, inst.features, inst.rect);
      PushInstance(inst);
      forall b, x | 0 <= b < |batches| && x in batches[b].instances ensures DrawnTogether(batches[b].key, x.key) {
        CompatibleIff(batches[b].key, x.key);
      }
    }

    /** Reverses every batch, to draw front to back. */
    method Finalize()
      requires Valid()
      modifies `batches
      ensures Valid() && batches == AllReversed(old(batches))
      ensures forall b :: 0 <= b < |batches| ==> FrontToBack(old(batches)[b], batches[b])
      ensures multiset(Drawn()) == old(multiset(Drawn()))
    {
      ghost var was := batches;
      for i := 0 to |batches|
        invariant |batches| == |was|
        invariant forall b :: 0 <= b < |batches| ==> batches[b] == if b < i then Reversed(was[b]) else was[b]
      {
        batches := batches[i := batches[i].(instances := Reverse(batches[i].instances))];
      }
      assert batches == AllReversed(was);
      ReversedHolds(was);
    }
  }

  function Reversed(b: PrimitiveBatch): PrimitiveBatch {
    b.(instances := Reverse(b.instances))
  }

  /** The same batch, with its last instance first. */
  ghost predicate FrontToBack(before: PrimitiveBatch, after: PrimitiveBatch) {
    && after.key == before.key && after.features == before.features
    && |after.instances| == |before.instances|
    && forall k :: 0 <= k < |after.instances| ==> after.instances[k] == before.instances[|before.instances| - 1 - k]
  }

  /** Every batch reversed. */
  function AllReversed(batches: seq<PrimitiveBatch>): seq<PrimitiveBatch> {
    seq(|batches|, b requires 0 <= b < |batches| => Reversed(batches[b]))
  }

  lemma {:induction false} IsFrontToBack(b: PrimitiveBatch)
    ensures FrontToBack(b, Reversed(b))
  {
    forall k | 0 <= k < |b.instances|
      ensures Reverse(b.instances)[k] == b.instances[|b.instances| - 1 - k]
    {
      ReverseAt(b.instances, k);
    }
  }

  lemma {:induction false} ReversedHolds(batches: seq<PrimitiveBatch>)
    requires forall b :: 0 <= b < |batches| ==> batches[b].Suits()
    ensures forall b :: 0 <= b < |batches| ==> AllReversed(batches)[b].Suits()
    ensures multiset(Flatten(InstanceLists(AllReversed(batches)))) == multiset(Flatten(InstanceLists(batches)))
    ensures forall b :: 0 <= b < |batches| ==> FrontToBack(batches[b], AllReversed(batches)[b])
  {
    FlattenRearranged(InstanceLists(batches), InstanceLists(AllReversed(batches)));
    forall b | 0 <= b < |batches|
      ensures AllReversed(batches)[b].Suits() && FrontToBack(batches[b], AllReversed(batches)[b])
    {
      SuitsReversed(batches[b]);
      IsFrontToBack(batches[b]);
    }
  }

  lemma {:induction false} SuitsReversed(b: PrimitiveBatch)
    requires b.Suits()
    ensures Reversed(b).Suits()
  {
    forall x | x in Reverse(b.instances) ensures x in b.instances {
      assert x in multiset(Reverse(b.instances));
    }
  }

  /** Rearranging inside each part rearranges the flattened list. */
  lemma {:induction false} FlattenRearranged<T>(a: seq<seq<T>>, b: seq<seq<T>>)
    requires |a| == |b|
    requires forall i :: 0 <= i < |a| ==> multiset(a[i]) == multiset(b[i])
    ensures multiset(Flatten(a)) == multiset(Flatten(b))
  {
    if a != [] {
      FlattenRearranged(a[1..], b[1..]);
    }
  }
}
