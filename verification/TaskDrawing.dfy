/** Whole tasks through the builders: a task of its own draws its submissions in order, and two merged
    tasks show how texts can come to interleave (webrender/src/batch.rs, webrender/src/renderer.rs). */
module TaskDrawing {
  import opened Geometry
  import opened Options
  import opened Sequences
  import opened BatchKeys
  import opened AlphaBatching
  import opened Painter
  import opened Multipass
  import opened BatchMerging
  import opened BatchBuilding
  import opened BatchDrawing

  datatype Submission = Submission(key: BatchKey, features: set<Feature>, rect: Rect, z: int)

  function HistoryOf(list: seq<Submission>): (r: seq<Instance>)
    ensures |r| == |list|
  {
    seq(|list|, i requires 0 <= i < |list| =>
      Instance(i, list[i].key, list[i].rect, list[i].z, list[i].features))
  }

  /** A z id stands for one primitive, and the rectangle is the primitive's. */
  predicate OneRectPerZ(list: seq<Submission>) {
    forall i, j :: 0 <= i < j < |list| && list[i].z == list[j].z ==> list[i].rect == list[j].rect
  }

  /** The current batch, if any, was chosen for submission `last`. */
  ghost predicate ChosenFor(b: AlphaBatchBuilder, list: seq<Submission>, last: nat, upto: nat)
    requires b.alphaBatchList.Valid() && upto <= |list|
    reads b, b.alphaBatchList
  {
    var alphas := b.alphaBatchList;
    alphas.currentBatchIndex.Some? ==>
      last < upto && alphas.currentZId == Some(list[last].z) && alphas.CurrentRect() == list[last].rect
  }

  method PushAll(b: AlphaBatchBuilder, list: seq<Submission>)
    requires b.Valid() && b.history == [] && b.alphaBatchList.currentBatchIndex.None? && OneRectPerZ(list)
    modifies b`history, b`submitted, b.alphaBatchList, b.opaqueBatchList
    ensures b.Valid() && b.history == HistoryOf(list)
  {
    ghost var last := 0;
    for i := 0 to |list|
      invariant b.Valid() && b.history == HistoryOf(list[..i]) && ChosenFor(b, list, last, i)
    {
      HistoryNext(list, i);
      PushOne(b, list, i, last);
      if !list[i].key.IsOpaque() { last := i; }
    }
    assert list[..|list|] == list;
  }

  lemma {:induction false} HistoryNext(list: seq<Submission>, i: nat)
    requires i < |list|
    ensures var s := list[i];
            HistoryOf(list[..i + 1]) == HistoryOf(list[..i]) + [Instance(i, s.key, s.rect, s.z, s.features)]
  {
  }

  /** One submission of a list. */
  method PushOne(b: AlphaBatchBuilder, list: seq<Submission>, i: nat, ghost last: nat)
    requires b.Valid() && OneRectPerZ(list) && i < |list| && i == |b.history|
    requires ChosenFor(b, list, last, i)
    modifies b`history, b`submitted, b.alphaBatchList, b.opaqueBatchList
    ensures b.Valid() && ChosenFor(b, list, if list[i].key.IsOpaque() then last else i, i + 1)
    ensures var s := list[i];
            b.history == old(b.history) + [Instance(i, s.key, s.rect, s.z, s.features)]
  {
    var s := list[i];
    var _ := b.PushSingleInstance(s.key, s.features, s.rect, s.z);
  }

  /** A task in a container of its own: whatever is submitted, the renderer draws the submissions in
      their order. */
  method DrawTask<C(!new)>(list: seq<Submission>, screenWidth: nat, screenHeight: nat, breakAdvanced: bool,
                           lookback: nat, taskRect: Rect, scissor: Rect, ghost d: Drawing<C>)
    returns (container: AlphaBatchContainer)
    requires OneRectPerZ(list) && Bounded(InTurn(d))
    ensures forall p: Point, c: C ::
              WellLayered(InTurn(d), HistoryOf(list), p) && OncePerZ(d, HistoryOf(list), p) ==>
                Draws(d, HistoryOf(list), container.Solids(), container.alphaBatches, p, c)
  {
    var b := new AlphaBatchBuilder(screenWidth, screenHeight, breakAdvanced, lookback);
    PushAll(b, list);
    var merged := new AlphaBatchContainer(Option.None);
    var containers := b.Build([], merged, taskRect, Some(scissor));
    container := containers[0];
    forall p: Point, c: C | WellLayered(InTurn(d), HistoryOf(list), p) && OncePerZ(d, HistoryOf(list), p)
      ensures Draws(d, HistoryOf(list), container.Solids(), container.alphaBatches, p, c)
    {
      BuilderDrawsHistory(d, HistoryOf(list), container.Solids(), container.alphaBatches, p, c);
    }
  }

  /* ---------------- many tasks ---------------- */

  lemma {:induction false} BuildersHold(builders: seq<AlphaBatchBuilder>, histories: seq<seq<Instance>>,
      lists: seq<seq<PrimitiveBatch>>)
    requires Holding(builders, histories, lists)
    ensures Hold(histories, lists)
    ensures forall i :: 0 <= i < |lists| ==> AllPassSafe(lists[i]) && Ordered(Flatten(InstanceLists(lists[i])))
  {
    forall i | 0 <= i < |lists|
      ensures AllSuitBlend(lists[i]) && AllPassSafe(lists[i]) && Ordered(Flatten(InstanceLists(lists[i])))
      ensures multiset(Flatten(InstanceLists(lists[i]))) == multiset(BlendedOf(histories[i]))
    {
      assert HoldsOne(builders[i], histories[i], lists[i]);
    }
  }

  /** The texts of task `k` that show at the point land in different batches. */
  ghost predicate TextsApart<C>(d: Drawing<C>, histories: seq<seq<Instance>>, lists: seq<seq<PrimitiveBatch>>, k: nat,
                                p: Point)
    requires k < |histories| == |lists|
  {
    LandApart(d, lists[k], Landings(ContainerOf(lists[..k]), lists[k], 0), p, TopDepth(InTurn(d), histories[k], p))
  }

  /** The point is task `k`'s alone, and well layered in it. */
  ghost predicate TaskAlone<C>(d: Drawing<C>, histories: seq<seq<Instance>>, k: nat, p: Point) {
    && k < |histories| && OnlyTask(InTurn(d), histories, k, p)
    && WellLayered(InTurn(d), histories[k], p) && OncePerZ(d, histories[k], p)
  }

  /** Tasks that share a container: exactly when the renderer draws a task's picture. */
  method DrawTasks<C(!new)>(builders: seq<AlphaBatchBuilder>, taskRects: seq<Rect>, ghost d: Drawing<C>)
    returns (merged: AlphaBatchContainer, ghost histories: seq<seq<Instance>>, ghost lists: seq<seq<PrimitiveBatch>>)
    requires AllValid(builders) && Separate(builders) && |taskRects| == |builders| && Bounded(InTurn(d))
    modifies set b | b in builders :: b.opaqueBatchList
    ensures histories == old(Histories(builders)) && lists == old(AlphaLists(builders))
    ensures forall k: nat, p: Point :: TaskAlone(d, histories, k, p) ==>
              (Draws(Record(d.covers), histories[k], merged.Solids(), merged.alphaBatches, p, [])
               <==> TextsApart(d, histories, lists, k, p))
  {
    histories, lists := Histories(builders), AlphaLists(builders);
    assert Holding(builders, histories, lists) by {
      forall i | 0 <= i < |builders| ensures HoldsOne(builders[i], histories[i], lists[i]) {
      }
    }
    BuildersHold(builders, histories, lists);
    ghost var states;
    merged, states := BuildAll(builders, taskRects);
    forall k: nat, p: Point | TaskAlone(d, histories, k, p)
      ensures Draws(Record(d.covers), histories[k], merged.Solids(), merged.alphaBatches, p, [])
         <==> TextsApart(d, histories, lists, k, p)
    {
      var c: C := d.solid(Instance(0, TEXT, HERE, 0, {}), p);
      MergesDrawBuilderIff(d, histories, lists, states, k, p, c);
    }
  }

  /* ---------------- two tasks merged ---------------- */

  const TEXT: BatchKey := BatchKey(0, SubpixelWithBgColor, BatchTextures(Invalid, Invalid, Invalid))
  const HERE: Rect := Rect(0.0, 0.0, 1.0, 1.0)
  const THERE: Rect := Rect(5.0, 0.0, 1.0, 1.0)
  const ORIGIN: Point := Point(0.0, 0.0)

  const LOWER: Instance := Instance(0, TEXT, HERE, 1, {})
  const UPPER: Instance := Instance(1, TEXT, HERE, 2, {})
  const ELSEWHERE: Instance := Instance(0, TEXT, THERE, 1, {})

  function Text(list: seq<Instance>): PrimitiveBatch {
    PrimitiveBatch(TEXT, list, {})
  }

  function InRect(): (f: (Instance, Point) -> bool) {
    (x: Instance, p: Point) => x.rect.Contains(p)
  }

  /** A text that finds no batch gets one of its own. */
  lemma {:induction false} ReceivedAlone(batches: seq<PrimitiveBatch>, x: Instance)
    requires x.key == TEXT && x.features == {}
    ensures Received(batches, |batches|, x) == batches + [Text([x])]
  {
    var none: set<Feature> := {};
    assert none + none == none;
    assert [] + [x] == [x];
  }

  /** A builder with one text. */
  method OneText(rect: Rect, lookback: nat) returns (b: AlphaBatchBuilder)
    ensures b.Valid() && fresh(b) && fresh(b.alphaBatchList) && fresh(b.opaqueBatchList)
    ensures b.history == [Instance(0, TEXT, rect, 1, {})]
    ensures b.alphaBatchList.batches == [Text([Instance(0, TEXT, rect, 1, {})])]
    ensures b.alphaBatchList.currentZId == Some(1) && rect in b.alphaBatchList.itemRects[0]
  {
    b := new AlphaBatchBuilder(1, 1, false, lookback);
    ReceivedAlone([], Instance(0, TEXT, rect, 1, {}));
    var _ := b.PushSingleInstance(TEXT, {}, rect, 1);
    assert [] + [Text([Instance(0, TEXT, rect, 1, {})])] == [Text([Instance(0, TEXT, rect, 1, {})])];
  }

  /** A second text over it: the look-back opens a batch for it. */
  method TwoTexts(lookback: nat) returns (b: AlphaBatchBuilder)
    ensures b.Valid() && fresh(b) && fresh(b.alphaBatchList) && fresh(b.opaqueBatchList)
    ensures b.history == [LOWER, UPPER] && b.alphaBatchList.batches == [Text([LOWER]), Text([UPPER])]
  {
    b := OneText(HERE, lookback);
    assert HERE.Intersects(HERE) && Hits(b.alphaBatchList.itemRects[0], HERE);
    PushOver(b);
  }

  method PushOver(b: AlphaBatchBuilder)
    requires b.Valid() && b.history == [LOWER] && b.alphaBatchList.batches == [Text([LOWER])]
    requires b.alphaBatchList.currentZId == Some(1) && Hits(b.alphaBatchList.itemRects[0], HERE)
    modifies b`history, b`submitted, b.alphaBatchList, b.opaqueBatchList
    ensures b.Valid() && b.history == [LOWER, UPPER] && b.alphaBatchList.batches == [Text([LOWER]), Text([UPPER])]
  {
    ReceivedAlone([Text([LOWER])], UPPER);
    ghost var index := b.PushSingleInstance(TEXT, {}, HERE, 2);
    assert index == 1 && [Text([LOWER])] + [Text([UPPER])] == [Text([LOWER]), Text([UPPER])];
    assert [LOWER] + [UPPER] == [LOWER, UPPER];
  }

  lemma {:induction false} MergeFirst(a: seq<Instance>, x: seq<Instance>, others: seq<PrimitiveBatch>)
    ensures MergeAll([Text(a)], [Text(x)] + others, 0) == MergeAll([Text(a + x)], others, 0)
    ensures Landings([Text(a)], [Text(x)] + others, 0) == [0] + Landings([Text(a + x)], others, 0)
  {
    assert TEXT.IsCompatibleWith(TEXT) && FirstAt([Text(a)], 0, TEXT) == 0;
    assert MergeBatch(Text(a), Text(x)) == Text(a + x);
    assert MergedOne([Text(a)], Text(x), 0) == [Text(a + x)];
    assert ([Text(x)] + others)[1..] == others;
  }

  /** Both texts land in the first batch. */
  lemma {:induction false} MergedTogether()
    ensures MergeAll([Text([ELSEWHERE])], [Text([LOWER]), Text([UPPER])], 0) == [Text([ELSEWHERE, LOWER, UPPER])]
    ensures Landings([Text([ELSEWHERE])], [Text([LOWER]), Text([UPPER])], 0) == [0, 0]
  {
    MergeFirst([ELSEWHERE], [LOWER], [Text([UPPER])]);
    MergeFirst([ELSEWHERE, LOWER], [UPPER], []);
    assert [ELSEWHERE] + [LOWER] == [ELSEWHERE, LOWER] && [ELSEWHERE, LOWER] + [UPPER] == [ELSEWHERE, LOWER, UPPER];
    assert [Text([LOWER])] + [Text([UPPER])] == [Text([LOWER]), Text([UPPER])];
    assert [Text([UPPER])] + [] == [Text([UPPER])];
  }

  lemma {:induction false} TextContainers()
    ensures ContainerOf([[Text([ELSEWHERE])]]) == [Text([ELSEWHERE])]
    ensures ContainerOf([[Text([ELSEWHERE])], [Text([LOWER]), Text([UPPER])]]) == [Text([ELSEWHERE, LOWER, UPPER])]
  {
    var a, b := [Text([ELSEWHERE])], [Text([LOWER]), Text([UPPER])];
    assert [a][..0] == [] && [a, b][..1] == [a];
    MergeIntoEmpty([], a);
    assert [] + a == a;
    MergedTogether();
  }

  lemma {:induction false} DrawnAlone(x: Instance)
    requires !IsOpaque(x)
    ensures Flatten(InstanceLists([Text([x])])) == [x] && BlendedOf([x]) == [x]
  {
    assert InstanceLists([Text([x])]) == [[x]] && [[x]][1..] == [];
    AppendToHistory([], x);
    assert [] + [x] == [x];
  }

  lemma {:induction false} DrawnInTwo(x: Instance, y: Instance)
    requires !IsOpaque(x) && !IsOpaque(y)
    ensures Flatten(InstanceLists([Text([x]), Text([y])])) == [x, y] && BlendedOf([x, y]) == [x, y]
  {
    DrawnAlone(x);
    DrawnAlone(y);
    var lists := InstanceLists([Text([x]), Text([y])]);
    assert lists == [[x]] + [[y]] && InstanceLists([Text([x])]) == [[x]] && InstanceLists([Text([y])]) == [[y]];
    FlattenConcat([[x]], [[y]]);
    AppendToHistory([x], y);
    assert [x] + [y] == [x, y];
  }

  lemma {:induction false} TextShows(d: Drawing<Trace>, x: Instance)
    requires d == Record(InRect()) && x.rect == HERE
    ensures Count(d, Text([x]), ORIGIN, Option.None) == 1
  {
    var seen := Seen(d, ORIGIN, Option.None);
    assert HERE.Contains(ORIGIN) && d.covers(x, ORIGIN) && seen(x);
    assert [x][1..] == [] && Filter([x], seen) == [x] + Filter([], seen);
  }

  const HISTORIES: seq<seq<Instance>> := [[ELSEWHERE], [LOWER, UPPER]]
  const LISTS: seq<seq<PrimitiveBatch>> := [[Text([ELSEWHERE])], [Text([LOWER]), Text([UPPER])]]

  lemma {:induction false} TextsHeld()
    ensures Hold(HISTORIES, LISTS)
  {
    DrawnAlone(ELSEWHERE);
    DrawnInTwo(LOWER, UPPER);
    forall i | 0 <= i < |LISTS| ensures AllSuitBlend(LISTS[i]) {
    }
  }

  lemma {:induction false} TextsAlone(scene: Scene<Trace>)
    requires scene == InTurn(Record(InRect()))
    ensures Bounded(scene) && OnlyTask(scene, HISTORIES, 1, ORIGIN) && WellLayered(scene, [LOWER, UPPER], ORIGIN)
    ensures TopDepth(scene, [LOWER, UPPER], ORIGIN) == Option.None
  {
    assert !THERE.Contains(ORIGIN) && !scene.covers(ELSEWHERE, ORIGIN);
    TopDepthAt(scene, [LOWER, UPPER], ORIGIN, -1);
  }

  /** Two batches that show at the point go into one. */
  lemma {:induction false} TextsMeet(d: Drawing<Trace>)
    requires d == Record(InRect())
    ensures !LandApart(d, LISTS[1], Landings(ContainerOf(LISTS[..1]), LISTS[1], 0), ORIGIN, Option.None)
  {
    TextContainers();
    MergedTogether();
    TextShows(d, LOWER);
    TextShows(d, UPPER);
    assert LISTS[..1] == [[Text([ELSEWHERE])]];
    var at := Landings(ContainerOf(LISTS[..1]), LISTS[1], 0);
    assert at[0] == at[1] && IsText(LISTS[1][0]);
  }

  /** What was merged, told from the builders' lists. */
  lemma {:induction false} TextsInterleave(states: seq<Lists>)
    requires MergeRun(HISTORIES, states) && states[2].blended == Flatten(InstanceLists(ContainerOf(LISTS)))
    ensures ContainerOf(LISTS) == [Text([ELSEWHERE, LOWER, UPPER])]
    ensures !Draws(Record(InRect()), [LOWER, UPPER], states[2].solids, ContainerOf(LISTS), ORIGIN, [])
  {
    var d := Record(InRect());
    TextContainers();
    TextsHeld();
    TextsAlone(InTurn(d));
    TextsMeet(d);
    MergesDrawTaskIff(d, HISTORIES, LISTS, states, 1, ORIGIN, []);
  }

  /** Two texts, one over the other, merged into a container that holds a text elsewhere: both go into
      one batch, and the renderer does not draw the lower text, then the upper one. */
  method MergeTexts(lookback: nat) returns (merged: AlphaBatchContainer)
    ensures merged.alphaBatches == [Text([ELSEWHERE, LOWER, UPPER])]
    ensures !Draws(Record(InRect()), [LOWER, UPPER], merged.Solids(), merged.alphaBatches, ORIGIN, [])
  {
    var first := OneText(THERE, lookback);
    var second := TwoTexts(lookback);
    ghost var states;
    merged, states := MergeTwo(first, second, HISTORIES, LISTS);
    TextsInterleave(states);
  }

  method MergeTwo(first: AlphaBatchBuilder, second: AlphaBatchBuilder, ghost histories: seq<seq<Instance>>,
                  ghost lists: seq<seq<PrimitiveBatch>>)
    returns (merged: AlphaBatchContainer, ghost states: seq<Lists>)
    requires |histories| == |lists| == 2 && first.opaqueBatchList != second.opaqueBatchList
    requires HoldsOne(first, histories[0], lists[0]) && HoldsOne(second, histories[1], lists[1])
    modifies first.opaqueBatchList, second.opaqueBatchList
    ensures MergeRun(histories, states) && merged.alphaBatches == ContainerOf(lists)
    ensures states[2] == Lists(merged.Solids(), merged.Blended())
  {
    var containers;
    merged, containers, states := MergeAlone(first, histories, lists);
    assert HoldsOne(second, histories[1], lists[1]);
    containers, states := BuildNext(second, containers, merged, HERE, histories, lists, 1, states);
    RunEnds(histories, lists, states, Lists(merged.Solids(), merged.Blended()), merged.alphaBatches);
  }

  method MergeAlone(b: AlphaBatchBuilder, ghost histories: seq<seq<Instance>>, ghost lists: seq<seq<PrimitiveBatch>>)
    returns (merged: AlphaBatchContainer, containers: seq<AlphaBatchContainer>, ghost states: seq<Lists>)
    requires b.Valid() && 0 < |histories| == |lists|
    requires histories[0] == b.history && lists[0] == b.alphaBatchList.batches
    modifies b.opaqueBatchList
    ensures b.Valid() && fresh(merged) && AllSuitBlend(merged.opaqueBatches) && AllSuitBlend(merged.alphaBatches)
    ensures RunTo(histories, lists, 1, states, Lists(merged.Solids(), merged.Blended()), merged.alphaBatches)
  {
    RunStarts(histories, lists);
    merged := new AlphaBatchContainer(Option.None);
    containers, states := BuildNext(b, [], merged, THERE, histories, lists, 0, [Lists([], [])]);
  }
}
