/** Merging the batches of one builder into a container that several builders share. */
module BatchMerging {
  import opened Geometry
  import opened Options
  import opened Sequences
  import opened BatchKeys

  /** `c` is an interleaving of `a` and `b` that keeps the order of each. */
  ghost predicate Shuffle<T>(a: seq<T>, b: seq<T>, c: seq<T>) {
    if c == [] then a == [] && b == [] else
      || (a != [] && a[0] == c[0] && Shuffle(a[1..], b, c[1..]))
      || (b != [] && b[0] == c[0] && Shuffle(a, b[1..], c[1..]))
  }

  lemma {:induction false} ShuffleLeft<T>(a: seq<T>)
    ensures Shuffle(a, [], a)
  {
    if a != [] { ShuffleLeft(a[1..]); }
  }

  lemma {:induction false} ShuffleRight<T>(a: seq<T>)
    ensures Shuffle([], a, a)
  {
    if a != [] { ShuffleRight(a[1..]); }
  }

  lemma {:induction false} ShuffleExtendLeft<T>(a: seq<T>, b: seq<T>, c: seq<T>, d: seq<T>)
    requires Shuffle(a, b, c)
    ensures Shuffle(a + d, b, c + d)
  {
    if c == [] {
      assert a + d == d && c + d == d;
      ShuffleLeft(d);
    } else {
      assert (c + d)[1..] == c[1..] + d;
      if a != [] && a[0] == c[0] && Shuffle(a[1..], b, c[1..]) {
        ShuffleExtendLeft(a[1..], b, c[1..], d);
        assert (a + d)[1..] == a[1..] + d;
      } else {
        ShuffleExtendLeft(a, b[1..], c[1..], d);
      }
    }
  }

  lemma {:induction false} ShuffleExtendRight<T>(a: seq<T>, b: seq<T>, c: seq<T>, d: seq<T>)
    requires Shuffle(a, b, c)
    ensures Shuffle(a, b + d, c + d)
  {
    if c == [] {
      assert b + d == d && c + d == d;
      ShuffleRight(d);
    } else {
      assert (c + d)[1..] == c[1..] + d;
      if a != [] && a[0] == c[0] && Shuffle(a[1..], b, c[1..]) {
        ShuffleExtendRight(a[1..], b, c[1..], d);
      } else {
        ShuffleExtendRight(a, b[1..], c[1..], d);
        assert (b + d)[1..] == b[1..] + d;
      }
    }
  }

  /** Where one side contributes nothing, a shuffle shows the other side unchanged. */
  lemma {:induction false} ShuffleFilter<T(!new)>(a: seq<T>, b: seq<T>, c: seq<T>, keep: T -> bool)
    requires Shuffle(a, b, c)
    ensures Filter(b, keep) == [] ==> Filter(c, keep) == Filter(a, keep)
    ensures Filter(a, keep) == [] ==> Filter(c, keep) == Filter(b, keep)
  {
    if c != [] {
      if a != [] && a[0] == c[0] && Shuffle(a[1..], b, c[1..]) {
        ShuffleFilter(a[1..], b, c[1..], keep);
      } else {
        ShuffleFilter(a, b[1..], c[1..], keep);
      }
    }
  }

  lemma {:induction false} ShuffleMembers<T>(a: seq<T>, b: seq<T>, c: seq<T>)
    requires Shuffle(a, b, c)
    ensures multiset(c) == multiset(a) + multiset(b)
  {
    if c != [] {
      assert c == [c[0]] + c[1..];
      if a != [] && a[0] == c[0] && Shuffle(a[1..], b, c[1..]) {
        ShuffleMembers(a[1..], b, c[1..]);
        assert a == [a[0]] + a[1..];
      } else {
        ShuffleMembers(a, b[1..], c[1..]);
        assert b == [b[0]] + b[1..];
      }
    }
  }

  /** The first batch at or after `start` whose key is compatible. */
  method Position(batches: seq<PrimitiveBatch>, start: nat, key: BatchKey) returns (index: Option<nat>)
    requires start <= |batches|
    ensures index.Some? ==> start <= index.value < |batches| && batches[index.value].key.IsCompatibleWith(key)
    ensures forall b :: start <= b < (if index.Some? then index.value else |batches|) ==>
                          !batches[b].key.IsCompatibleWith(key)
  {
    for i := start to |batches|
      invariant forall b :: start <= b < i ==> !batches[b].key.IsCompatibleWith(key)
    {
      if batches[i].key.IsCompatibleWith(key) {
        return Some(i);
      }
    }
    return Option.None;
  }

  function MergeBatch(a: PrimitiveBatch, b: PrimitiveBatch): PrimitiveBatch {
    a.(instances := a.instances + b.instances, features := a.features + b.features)
  }

  /** Merging loses no instance, and a feature is asked for exactly if it was in one of the two. */
  lemma {:induction false} MergedIs(a: PrimitiveBatch, b: PrimitiveBatch, f: Feature)
    ensures var m := MergeBatch(a, b);
            && m.key == a.key && m.instances == a.instances + b.instances
            && (f in m.features <==> f in a.features || f in b.features)
  {
  }

  function FirstAt(batches: seq<PrimitiveBatch>, start: nat, key: BatchKey): (i: nat)
    requires start <= |batches|
    ensures start <= i <= |batches|
    decreases |batches| - start
  {
    if start == |batches| || batches[start].key.IsCompatibleWith(key) then start else FirstAt(batches, start + 1, key)
  }

  lemma {:induction false} FirstAtIs(batches: seq<PrimitiveBatch>, start: nat, key: BatchKey, i: nat)
    requires start <= i <= |batches| && (i < |batches| ==> batches[i].key.IsCompatibleWith(key))
    requires forall b :: start <= b < i ==> !batches[b].key.IsCompatibleWith(key)
    ensures FirstAt(batches, start, key) == i
    decreases i - start
  {
    if start < i {
      FirstAtIs(batches, start + 1, key, i);
    }
  }

  /** The list after one batch has been merged into it, not before batch `start`. */
  function MergedOne(batches: seq<PrimitiveBatch>, other: PrimitiveBatch, start: nat): (r: seq<PrimitiveBatch>)
    requires start <= |batches|
  {
    var i := FirstAt(batches, start, other.key);
    if i < |batches| then batches[i := MergeBatch(batches[i], other)] else batches + [other]
  }

  /** The opaque list after batches have been merged into it: each goes to the first that takes it. */
  function MergeEach(batches: seq<PrimitiveBatch>, others: seq<PrimitiveBatch>): seq<PrimitiveBatch> {
    if others == [] then batches
    else MergedOne(MergeEach(batches, others[..|others| - 1]), others[|others| - 1], 0)
  }

  lemma {:induction false} MergedOneHolds(batches: seq<PrimitiveBatch>, other: PrimitiveBatch, start: nat)
    requires start <= |batches|
    ensures multiset(Flatten(InstanceLists(MergedOne(batches, other, start))))
         == multiset(Flatten(InstanceLists(batches))) + multiset(other.instances)
  {
    var lists, i := InstanceLists(batches), FirstAt(batches, start, other.key);
    var after := InstanceLists(MergedOne(batches, other, start));
    if i < |batches| {
      FlattenExtend(lists, i, other.instances);
      assert after == lists[i := lists[i] + other.instances];
    } else {
      FlattenConcat(lists, [other.instances]);
      assert after == lists + [other.instances];
    }
  }

  lemma {:induction false} MergeEachHolds(batches: seq<PrimitiveBatch>, others: seq<PrimitiveBatch>)
    ensures multiset(Flatten(InstanceLists(MergeEach(batches, others))))
         == multiset(Flatten(InstanceLists(batches))) + multiset(Flatten(InstanceLists(others)))
  {
    if others != [] {
      var n := |others| - 1;
      MergeEachHolds(batches, others[..n]);
      MergedOneHolds(MergeEach(batches, others[..n]), others[n], 0);
      assert InstanceLists(others)[..n] == InstanceLists(others[..n]);
      assert InstanceLists(others)[..n + 1] == InstanceLists(others);
      FlattenNext(InstanceLists(others), n);
    }
  }

  /** Where the next batch may go. */
  function NextStart(batches: seq<PrimitiveBatch>, other: PrimitiveBatch, start: nat): (r: nat)
    requires start <= |batches|
    ensures start <= r <= |MergedOne(batches, other, start)|
  {
    var i := FirstAt(batches, start, other.key);
    if i < |batches| then i else i + 1
  }

  /** The list after all batches of a builder have been merged into it. */
  function MergeAll(batches: seq<PrimitiveBatch>, others: seq<PrimitiveBatch>, start: nat): seq<PrimitiveBatch>
    requires start <= |batches|
    decreases |others|
  {
    if others == [] then batches
    else MergeAll(MergedOne(batches, others[0], start), others[1..], NextStart(batches, others[0], start))
  }

  /** Which batch each of a builder's batches goes to; batch keys alone decide. */
  function Landings(batches: seq<PrimitiveBatch>, others: seq<PrimitiveBatch>, start: nat): (r: seq<nat>)
    requires start <= |batches|
    ensures |r| == |others|
    decreases |others|
  {
    if others == [] then []
    else [FirstAt(batches, start, others[0].key)]
         + Landings(MergedOne(batches, others[0], start), others[1..], NextStart(batches, others[0], start))
  }

  /** The batches of a container that several builders' batches were merged into, one after the other. */
  function ContainerOf(lists: seq<seq<PrimitiveBatch>>): seq<PrimitiveBatch> {
    if lists == [] then [] else MergeAll(ContainerOf(lists[..|lists| - 1]), lists[|lists| - 1], 0)
  }

  lemma {:induction false} MergeAllSuits(batches: seq<PrimitiveBatch>, others: seq<PrimitiveBatch>, start: nat)
    requires start <= |batches| && AllSuitBlend(batches) && AllSuitBlend(others)
    ensures AllSuitBlend(MergeAll(batches, others, start))
    decreases |others|
  {
    if others != [] {
      MergedOneSuits(batches, others[0], start);
      MergeAllSuits(MergedOne(batches, others[0], start), others[1..], NextStart(batches, others[0], start));
    }
  }

  lemma {:induction false} ContainerSuits(lists: seq<seq<PrimitiveBatch>>)
    requires forall i :: 0 <= i < |lists| ==> AllSuitBlend(lists[i])
    ensures AllSuitBlend(ContainerOf(lists))
  {
    if lists != [] {
      ContainerSuits(lists[..|lists| - 1]);
      MergeAllSuits(ContainerOf(lists[..|lists| - 1]), lists[|lists| - 1], 0);
    }
  }

  lemma {:induction false} MergedOneSuits(batches: seq<PrimitiveBatch>, other: PrimitiveBatch, start: nat)
    requires start <= |batches| && AllSuitBlend(batches) && other.SuitsBlend()
    ensures AllSuitBlend(MergedOne(batches, other, start))
  {
    var i := FirstAt(batches, start, other.key);
    if i < |batches| {
      FirstCompatible(batches, start, other.key);
      assert MergeBatch(batches[i], other).SuitsBlend();
    }
  }

  lemma {:induction false} FirstCompatible(batches: seq<PrimitiveBatch>, start: nat, key: BatchKey)
    requires start <= |batches|
    ensures var i := FirstAt(batches, start, key); i < |batches| ==> batches[i].key.IsCompatibleWith(key)
    decreases |batches| - start
  {
    if start < |batches| && !batches[start].key.IsCompatibleWith(key) {
      FirstCompatible(batches, start + 1, key);
    }
  }

  /** One merged batch, told by what the keys have in common: it joins the first batch from `start` on that
      it can be drawn with, and the next one may join it too; or it goes to the end, and the next one
      goes behind it. */
  lemma {:induction false} MergesIntoFirst(batches: seq<PrimitiveBatch>, other: PrimitiveBatch, start: nat)
    requires start <= |batches|
    ensures var i, after := FirstAt(batches, start, other.key), MergedOne(batches, other, start);
            && start <= i <= |batches|
            && (forall b :: start <= b < i ==> !DrawnTogether(batches[b].key, other.key))
            && if i == |batches| then after == batches + [other] && NextStart(batches, other, start) == |after|
               else
                 && DrawnTogether(batches[i].key, other.key) && NextStart(batches, other, start) == i
                 && |after| == |batches| && (forall b :: 0 <= b < |after| && b != i ==> after[b] == batches[b])
                 && after[i].key == batches[i].key && after[i].instances == batches[i].instances + other.instances
    decreases |batches| - start
  {
    if start < |batches| {
      CompatibleIff(batches[start].key, other.key);
      if !batches[start].key.IsCompatibleWith(other.key) {
        MergesIntoFirst(batches, other, start + 1);
      }
    }
  }

  /** What is known between two merges: the first `m` lists interleave the old instances `front`
      with everything merged so far, and the lists after them are untouched. */
  ghost predicate MergedUpTo(lists: seq<seq<Instance>>, m: nat, front: seq<Instance>, done: seq<Instance>,
                             was: seq<Instance>)
  {
    && m <= |lists|
    && Shuffle(front, done, Flatten(lists[..m]))
    && front + Flatten(lists[m..]) == was
  }

  /** The next batch goes into a list that is not before the last one it went to. */
  lemma {:induction false} MergedInto(lists: seq<seq<Instance>>, i: nat, m: nat, front: seq<Instance>,
                                      done: seq<Instance>, was: seq<Instance>, inserted: seq<Instance>)
    returns (front': seq<Instance>)
    requires i < |lists| && m <= i + 1 && MergedUpTo(lists, m, front, done, was)
    ensures MergedUpTo(lists[i := lists[i] + inserted], i + 1, front', done + inserted, was)
  {
    front' := MergeStep(lists, m, i + 1, front, done, inserted, was);
    var after := lists[i := lists[i] + inserted];
    assert after[..i + 1] == lists[..i] + [lists[i] + inserted];
    assert after[i + 1..] == lists[i + 1..];
  }

  lemma {:induction false} MergedBehind(lists: seq<seq<Instance>>, m: nat, front: seq<Instance>,
                                        done: seq<Instance>, was: seq<Instance>, inserted: seq<Instance>)
    returns (front': seq<Instance>)
    requires MergedUpTo(lists, m, front, done, was)
    ensures MergedUpTo(lists + [inserted], |lists| + 1, front', done + inserted, was)
  {
    EmptyTail(lists, m);
    var longer: seq<seq<Instance>> := lists + [[]];
    assert longer[|lists|] + inserted == inserted;
    assert longer[|lists| := inserted] == lists + [inserted];
    front' := MergedInto(longer, |lists|, m, front, done, was, inserted);
  }

  lemma {:induction false} MergeOneStep(batches: seq<PrimitiveBatch>, other: PrimitiveBatch, start: nat, m: nat,
                                        front: seq<Instance>, done: seq<Instance>, was: seq<Instance>)
    returns (m': nat, front': seq<Instance>)
    requires start <= |batches| && m <= start + 1 && MergedUpTo(InstanceLists(batches), m, front, done, was)
    ensures m' <= NextStart(batches, other, start) + 1
    ensures MergedUpTo(InstanceLists(MergedOne(batches, other, start)), m', front', done + other.instances, was)
  {
    var i, lists := FirstAt(batches, start, other.key), InstanceLists(batches);
    if i < |batches| {
      front' := MergedInto(lists, i, m, front, done, was, other.instances);
      m' := i + 1;
      assert InstanceLists(MergedOne(batches, other, start)) == lists[i := lists[i] + other.instances];
    } else {
      front' := MergedBehind(lists, m, front, done, was, other.instances);
      m' := |lists| + 1;
      assert InstanceLists(MergedOne(batches, other, start)) == lists + [other.instances];
    }
  }

  function Union(a: Rect, b: Rect): (r: Rect)
    ensures forall p: Point :: a.Contains(p) || b.Contains(p) ==> r.Contains(p)
    ensures forall q: Rect :: q.ContainsRect(a) && q.ContainsRect(b) ==> q.ContainsRect(r)
  {
    if a.IsEmptyOrNegative() then b else if b.IsEmptyOrNegative() then a else
      var x := if a.x < b.x then a.x else b.x;
      var y := if a.y < b.y then a.y else b.y;
      var x1 := if a.x + a.w < b.x + b.w then b.x + b.w else a.x + a.w;
      var y1 := if a.y + a.h < b.y + b.h then b.y + b.h else a.y + a.h;
      Rect(x, y, x1 - x, y1 - y)
  }

  class AlphaBatchContainer {
    var opaqueBatches: seq<PrimitiveBatch>
    var alphaBatches: seq<PrimitiveBatch>
    const taskScissorRect: Option<Rect>
    var taskRect: Rect

    constructor (scissor: Option<Rect>)
      ensures opaqueBatches == [] && alphaBatches == [] && taskScissorRect == scissor
      ensures taskRect == Rect(0.0, 0.0, 0.0, 0.0)
    {
      opaqueBatches, alphaBatches, taskScissorRect, taskRect := [], [], scissor, Rect(0.0, 0.0, 0.0, 0.0);
    }

    constructor Of(opaques: seq<PrimitiveBatch>, alphas: seq<PrimitiveBatch>, scissor: Option<Rect>, task: Rect)
      ensures opaqueBatches == opaques && alphaBatches == alphas && taskScissorRect == scissor && taskRect == task
      ensures multiset(Solids()) == multiset(Flatten(InstanceLists(opaques)))
    {
      opaqueBatches, alphaBatches, taskScissorRect, taskRect := opaques, alphas, scissor, task;
      new;
      FlattenReverse(InstanceLists(opaques));
    }

    /** The renderer draws the opaque batches from last to first. */
    ghost function Solids(): seq<Instance>
      reads this
    {
      Flatten(Reverse(InstanceLists(opaqueBatches)))
    }

    ghost function Blended(): seq<Instance>
      reads this
    {
      Flatten(InstanceLists(alphaBatches))
    }

    method MergeOneOpaque(other: PrimitiveBatch)
      requires AllSuitBlend(opaqueBatches) && other.SuitsBlend()
      modifies `opaqueBatches
      ensures AllSuitBlend(opaqueBatches) && opaqueBatches == MergedOne(old(opaqueBatches), other, 0)
      ensures multiset(Flatten(InstanceLists(opaqueBatches)))
              == old(multiset(Flatten(InstanceLists(opaqueBatches)))) + multiset(other.instances)
    {
      var index := Position(opaqueBatches, 0, other.key);
      FirstAtIs(opaqueBatches, 0, other.key, if index.Some? then index.value else |opaqueBatches|);
      MergedOneSuits(opaqueBatches, other, 0);
      MergedOneHolds(opaqueBatches, other, 0);
      if index.Some? {
        var i := index.value;
        opaqueBatches := opaqueBatches[i := MergeBatch(opaqueBatches[i], other)];
      } else {
        opaqueBatches := opaqueBatches + [other];
      }
    }

    method MergeOpaque(others: seq<PrimitiveBatch>)
      requires AllSuitBlend(opaqueBatches) && AllSuitBlend(others)
      modifies `opaqueBatches
      ensures AllSuitBlend(opaqueBatches) && opaqueBatches == MergeEach(old(opaqueBatches), others)
      ensures multiset(Flatten(InstanceLists(opaqueBatches)))
              == old(multiset(Flatten(InstanceLists(opaqueBatches)))) + multiset(Flatten(InstanceLists(others)))
    {
      for k := 0 to |others|
        invariant AllSuitBlend(opaqueBatches) && opaqueBatches == MergeEach(old(opaqueBatches), others[..k])
      {
        assert others[..k + 1][..k] == others[..k];
        MergeOneOpaque(others[k]);
      }
      assert others[..|others|] == others;
      MergeEachHolds(old(opaqueBatches), others);
    }

    /** A builder's batch goes into the first compatible batch that is not before the one its
        previous batch went to, else to the end. */
    method MergeOneAlpha(other: PrimitiveBatch, minBatchIndex: nat) returns (minBatchIndex': nat)
      requires AllSuitBlend(alphaBatches) && other.SuitsBlend() && minBatchIndex <= |alphaBatches|
      modifies `alphaBatches
      ensures AllSuitBlend(alphaBatches)
      ensures alphaBatches == MergedOne(old(alphaBatches), other, minBatchIndex)
      ensures minBatchIndex' == NextStart(old(alphaBatches), other, minBatchIndex)
    {
      var index := Position(alphaBatches, minBatchIndex, other.key);
      FirstAtIs(alphaBatches, minBatchIndex, other.key, if index.Some? then index.value else |alphaBatches|);
      MergedOneSuits(alphaBatches, other, minBatchIndex);
      if index.Some? {
        var i := index.value;
        alphaBatches := alphaBatches[i := MergeBatch(alphaBatches[i], other)];
        minBatchIndex' := i;
      } else {
        alphaBatches := alphaBatches + [other];
        minBatchIndex' := |alphaBatches|;
      }
    }

    method MergeAlpha(others: seq<PrimitiveBatch>)
      requires AllSuitBlend(alphaBatches) && AllSuitBlend(others)
      modifies `alphaBatches
      ensures AllSuitBlend(alphaBatches)
      ensures alphaBatches == MergeAll(old(alphaBatches), others, 0)
      ensures Shuffle(old(Blended()), Flatten(InstanceLists(others)), Blended())
    {
      ghost var was, first := Blended(), alphaBatches;
      var minBatchIndex := 0;
      ghost var front, m: nat := [], 0;
      assert InstanceLists(alphaBatches)[0..] == InstanceLists(alphaBatches);
      for k := 0 to |others|
        invariant AllSuitBlend(alphaBatches)
        invariant 0 <= minBatchIndex <= |alphaBatches| && m <= minBatchIndex + 1
        invariant MergeAll(alphaBatches, others[k..], minBatchIndex) == MergeAll(first, others, 0)
        invariant MergedUpTo(InstanceLists(alphaBatches), m, front, Flatten(InstanceLists(others)[..k]), was)
      {
        FlattenNext(InstanceLists(others), k);
        m, front := MergeOneStep(alphaBatches, others[k], minBatchIndex, m, front,
            Flatten(InstanceLists(others)[..k]), was);
        assert others[k..][1..] == others[k + 1..];
        minBatchIndex := MergeOneAlpha(others[k], minBatchIndex);
      }
      MergedWhole(InstanceLists(alphaBatches), m, front, InstanceLists(others), was);
    }

    method Merge(opaqueOthers: seq<PrimitiveBatch>, alphaOthers: seq<PrimitiveBatch>, otherTaskRect: Rect)
      requires AllSuitBlend(opaqueBatches) && AllSuitBlend(opaqueOthers)
      requires AllSuitBlend(alphaBatches) && AllSuitBlend(alphaOthers)
      modifies this
      ensures AllSuitBlend(opaqueBatches) && AllSuitBlend(alphaBatches)
      ensures multiset(Solids()) == old(multiset(Solids())) + multiset(Flatten(InstanceLists(opaqueOthers)))
      ensures Shuffle(old(Blended()), Flatten(InstanceLists(alphaOthers)), Blended())
      ensures alphaBatches == MergeAll(old(alphaBatches), alphaOthers, 0)
      ensures opaqueBatches == MergeEach(old(opaqueBatches), opaqueOthers)
      ensures taskRect == Union(old(taskRect), otherTaskRect)
    {
      taskRect := Union(taskRect, otherTaskRect);
      MergeSolids(opaqueOthers);
      MergeAlpha(alphaOthers);
    }

    /** The opaque part, as the renderer draws it. */
    method MergeSolids(opaqueOthers: seq<PrimitiveBatch>)
      requires AllSuitBlend(opaqueBatches) && AllSuitBlend(opaqueOthers)
      modifies `opaqueBatches
      ensures AllSuitBlend(opaqueBatches) && opaqueBatches == MergeEach(old(opaqueBatches), opaqueOthers)
      ensures multiset(Solids()) == old(multiset(Solids())) + multiset(Flatten(InstanceLists(opaqueOthers)))
    {
      FlattenReverse(InstanceLists(opaqueBatches));
      MergeOpaque(opaqueOthers);
      FlattenReverse(InstanceLists(opaqueBatches));
    }
  }

  lemma {:induction false} MergedWhole(lists: seq<seq<Instance>>, m: nat, front: seq<Instance>,
                                       others: seq<seq<Instance>>, was: seq<Instance>)
    requires MergedUpTo(lists, m, front, Flatten(others[..|others|]), was)
    ensures Shuffle(was, Flatten(others), Flatten(lists))
  {
    assert others[..|others|] == others;
    ShuffleExtendLeft(front, Flatten(others), Flatten(lists[..m]), Flatten(lists[m..]));
    FlattenConcat(lists[..m], lists[m..]);
    assert lists == lists[..m] + lists[m..];
  }

  lemma {:induction false} FlattenNext<T>(lists: seq<seq<T>>, k: nat)
    requires k < |lists|
    ensures Flatten(lists[..k + 1]) == Flatten(lists[..k]) + lists[k]
  {
    assert lists[..k + 1] == lists[..k] + [lists[k]];
    FlattenConcat(lists[..k], [lists[k]]);
  }

  lemma {:induction false} FlattenExtend<T>(lists: seq<seq<T>>, i: nat, more: seq<T>)
    requires i < |lists|
    ensures multiset(Flatten(lists[i := lists[i] + more])) == multiset(Flatten(lists)) + multiset(more)
  {
    var after := lists[i := lists[i] + more];
    FlattenAround(lists, i);
    FlattenAround(after, i);
    assert after[..i] == lists[..i] && after[i + 1..] == lists[i + 1..];
  }

  lemma {:induction false} FlattenReverse<T>(lists: seq<seq<T>>)
    ensures multiset(Flatten(Reverse(lists))) == multiset(Flatten(lists))
  {
    if lists != [] {
      FlattenReverse(lists[1..]);
      FlattenConcat(Reverse(lists[1..]), [lists[0]]);
    }
  }

  lemma {:induction false} EmptyTail<T>(lists: seq<seq<T>>, m: nat)
    requires m <= |lists|
    ensures Flatten((lists + [[]])[m..]) == Flatten(lists[m..])
    ensures (lists + [[]])[..m] == lists[..m]
  {
    assert (lists + [[]])[m..] == lists[m..] + [[]];
    FlattenConcat(lists[m..], [[]]);
  }

  /** One merged batch: the old instances up to list `m'` join the front, then the new ones follow. */
  lemma {:induction false} MergeStep<T>(lists: seq<seq<T>>, m: nat, m': nat, front: seq<T>, done: seq<T>,
      inserted: seq<T>, was: seq<T>)
    returns (front': seq<T>)
    requires m <= m' <= |lists| && 0 < m'
    requires Shuffle(front, done, Flatten(lists[..m]))
    requires front + Flatten(lists[m..]) == was
    ensures Shuffle(front', done + inserted, Flatten(lists[..m' - 1] + [lists[m' - 1] + inserted]))
    ensures front' + Flatten(lists[m'..]) == was
  {
    front' := MergeFront(lists, m, m', front, done, was);
    ShuffleExtendRight(front', done, Flatten(lists[..m']), inserted);
    FlattenLast(lists[..m' - 1], lists[m' - 1], inserted);
    assert lists[..m'] == lists[..m' - 1] + [lists[m' - 1]];
  }

  /** The old instances up to list `m'` join the front. */
  lemma {:induction false} MergeFront<T>(lists: seq<seq<T>>, m: nat, m': nat, front: seq<T>, done: seq<T>, was: seq<T>)
    returns (front': seq<T>)
    requires m <= m' <= |lists|
    requires Shuffle(front, done, Flatten(lists[..m])) && front + Flatten(lists[m..]) == was
    ensures Shuffle(front', done, Flatten(lists[..m'])) && front' + Flatten(lists[m'..]) == was
  {
    var moved, rest := Flatten(lists[m..m']), Flatten(lists[m'..]);
    front' := front + moved;
    FlattenTwoCuts(lists, m, m');
    assert front + moved + rest == front + (moved + rest);
    ShuffleExtendLeft(front, done, Flatten(lists[..m]), moved);
  }

  lemma {:induction false} FlattenTwoCuts<T>(lists: seq<seq<T>>, m: nat, m': nat)
    requires m <= m' <= |lists|
    ensures Flatten(lists[..m']) == Flatten(lists[..m]) + Flatten(lists[m..m'])
    ensures Flatten(lists[m..]) == Flatten(lists[m..m']) + Flatten(lists[m'..])
  {
    assert lists[m..] == lists[m..m'] + lists[m'..];
    FlattenConcat(lists[m..m'], lists[m'..]);
    assert lists[..m'] == lists[..m] + lists[m..m'];
    FlattenConcat(lists[..m], lists[m..m']);
  }

  lemma {:induction false} FlattenLast<T>(init: seq<seq<T>>, last: seq<T>, more: seq<T>)
    ensures Flatten(init + [last + more]) == Flatten(init + [last]) + more
  {
    FlattenConcat(init, [last]);
    FlattenConcat(init, [last + more]);
    assert Flatten(init) + last + more == Flatten(init) + (last + more);
  }
}
