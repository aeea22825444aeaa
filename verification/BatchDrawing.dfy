/** Finished batches as the renderer draws them, multipass batches pass by pass: exactly when that is
    painting the submissions in order, for one builder and for any run of merges. */
module BatchDrawing {
  import opened Geometry
  import opened Options
  import opened Sequences
  import opened BatchKeys
  import opened AlphaBatching
  import opened Painter
  import opened Multipass
  import opened BatchMerging
  import opened BatchBuilding

  /** A builder's own batches, with any number of multipass instances, draw what painting the
      submissions in order would, if those of one z id do not overlap at the point. */
  lemma {:induction false} BuilderDrawsHistory<C>(d: Drawing<C>, history: seq<Instance>, solids: seq<Instance>,
                                                  batches: seq<PrimitiveBatch>, p: Point, c: C)
    requires Bounded(InTurn(d)) && WellLayered(InTurn(d), history, p) && OncePerZ(d, history, p)
    requires Faithful(history, solids, Flatten(InstanceLists(batches)))
    requires AllSuitBlend(batches) && AllPassSafe(batches)
    ensures AllOnce(d, batches, p, TopDepth(InTurn(d), history, p))
    ensures RenderBatches(d, solids, batches, p, c) == Paint(InTurn(d), history, p, c)
  {
    SameMembers(Flatten(InstanceLists(batches)), BlendedOf(history));
    SafeAreOnce(d, batches, p, TopDepth(InTurn(d), history, p));
    FaithfulEverywhere(InTurn(d), history, solids, Flatten(InstanceLists(batches)), p);
    ContainerDrawsIff(d, history, solids, batches, p, c);
  }

  /** The batches draw the history's picture. */
  ghost predicate Draws<C>(d: Drawing<C>, history: seq<Instance>, solids: seq<Instance>, batches: seq<PrimitiveBatch>,
                           p: Point, c: C)
  {
    RenderBatches(d, solids, batches, p, c) == Paint(InTurn(d), history, p, c)
  }

  /** Batches that are faithful at a point, however they came about: the drawing that writes everything
      down draws the history exactly if no two instances of a multipass batch show through the topmost
      opaque submission; and then every drawing does. */
  lemma {:induction false} ContainerDrawsIff<C>(d: Drawing<C>, history: seq<Instance>, solids: seq<Instance>,
                                                batches: seq<PrimitiveBatch>, p: Point, c: C)
    requires FaithfulAt(InTurn(d), history, solids, Flatten(InstanceLists(batches)), p)
    requires WellLayered(InTurn(d), history, p) && AllSuitBlend(batches)
    ensures Draws(Record(d.covers), history, solids, batches, p, [])
       <==> AllOnce(d, batches, p, TopDepth(InTurn(d), history, p))
    ensures AllOnce(d, batches, p, TopDepth(InTurn(d), history, p)) ==> Draws(d, history, solids, batches, p, c)
  {
    var r, blended := Record(d.covers), Flatten(InstanceLists(batches));
    SameFaithful(d, r, history, solids, blended, p);
    var px := OpaquePass(InTurn(d), solids, p, Pixel(c, Option.None));
    var tx := OpaquePass(InTurn(r), solids, p, Pixel([], Option.None));
    OpaquePassDepth(InTurn(d), history, solids, blended, p, c);
    OpaquePassDepth(InTurn(r), history, solids, blended, p, []);
    BatchesAgreeIff(d, batches, p, px, tx);
    PaintersEquivalence(InTurn(d), history, solids, blended, p, c);
    PaintersEquivalence(InTurn(r), history, solids, blended, p, []);
  }

  /** Only what is covered matters for being faithful. */
  lemma {:induction false} SameFaithful<C, E>(d: Drawing<C>, e: Drawing<E>, history: seq<Instance>,
      solids: seq<Instance>, blended: seq<Instance>, p: Point)
    requires d.covers == e.covers
    requires FaithfulAt(InTurn(d), history, solids, blended, p) && WellLayered(InTurn(d), history, p)
    ensures FaithfulAt(InTurn(e), history, solids, blended, p) && WellLayered(InTurn(e), history, p)
    ensures TopDepth(InTurn(e), history, p) == TopDepth(InTurn(d), history, p)
  {
    var a, b := InTurn(d), InTurn(e);
    FilterSame(solids, Keep(a, p, true), Keep(b, p, true));
    FilterSame(history, Keep(a, p, true), Keep(b, p, true));
    FilterSame(blended, Keep(a, p, false), Keep(b, p, false));
    FilterSame(history, Keep(a, p, false), Keep(b, p, false));
    forall i, j | 0 <= i < j < |history| && b.covers(history[i], p) && b.covers(history[j], p)
      ensures history[i].z <= history[j].z
      ensures history[i].z == history[j].z ==> !IsOpaque(history[i]) && !IsOpaque(history[j])
    {
      assert a.covers(history[i], p) && a.covers(history[j], p);
    }
    SameTopDepth(a, b, history, p);
  }

  lemma {:induction false} SameTopDepth<C, E>(a: Scene<C>, b: Scene<E>, history: seq<Instance>, p: Point)
    requires a.covers == b.covers
    ensures TopDepth(a, history, p) == TopDepth(b, history, p)
  {
    if history != [] {
      SameTopDepth(a, b, history[..|history| - 1], p);
    }
  }

  /** At a point that at most one multipass submission covers, no batch holds two. */
  lemma {:induction false} OneTextIsOnce<C>(d: Drawing<C>, history: seq<Instance>, solids: seq<Instance>,
                                            batches: seq<PrimitiveBatch>, p: Point, depth: Option<int>)
    requires FaithfulAt(InTurn(d), history, solids, Flatten(InstanceLists(batches)), p) && AllSuitBlend(batches)
    requires |Filter(history, Texts(d, p))| <= 1
    ensures AllOnce(d, batches, p, depth)
  {
    var lists, keep := InstanceLists(batches), Keep(InTurn(d), p, false);
    FilterTwice(Flatten(lists), keep, Texts(d, p));
    FilterTwice(history, keep, Texts(d, p));
    assert Filter(Flatten(lists), Texts(d, p)) == Filter(history, Texts(d, p));
    forall b | 0 <= b < |batches| ensures Once(d, batches[b], p, depth) {
      FlattenAround(lists, b);
      FilterConcat(Flatten(lists[..b]) + lists[b], Flatten(lists[b + 1..]), Texts(d, p));
      FilterConcat(Flatten(lists[..b]), lists[b], Texts(d, p));
      if IsText(batches[b]) {
        SeenAreTexts(d, batches[b].instances, p, depth);
      }
    }
  }

  function Texts<C>(d: Drawing<C>, p: Point): (f: Instance -> bool) {
    x => TextAt(d, x, p)
  }

  lemma {:induction false} SeenAreTexts<C>(d: Drawing<C>, s: seq<Instance>, p: Point, depth: Option<int>)
    requires forall x :: x in s ==> IsMultipass(x)
    ensures |Filter(s, Seen(d, p, depth))| <= |Filter(s, Texts(d, p))|
  {
    if s != [] {
      assert s[0] in s;
      assert forall x :: x in s[1..] ==> x in s;
      SeenAreTexts(d, s[1..], p, depth);
    }
  }

  predicate IsText(b: PrimitiveBatch) {
    b.key.blendMode.SubpixelWithBgColor?
  }

  /* ---------------- one merge ---------------- */

  /** Those that land in a batch of the container show at most one with it. */
  ghost predicate Room<C>(d: Drawing<C>, batches: seq<PrimitiveBatch>, others: seq<PrimitiveBatch>, at: seq<nat>,
                          p: Point, depth: Option<int>)
    requires |at| == |others|
  {
    forall j :: 0 <= j < |others| && at[j] < |batches| && IsText(others[j]) ==>
      Count(d, batches[at[j]], p, depth) + Count(d, others[j], p, depth) <= 1
  }

  /** What two lists must satisfy so that no multipass batch shows two instances after they are merged,
      on the lists as they are before: those that land in one batch show at most one between them. */
  ghost predicate StaysOnce<C>(d: Drawing<C>, batches: seq<PrimitiveBatch>, others: seq<PrimitiveBatch>, start: nat,
                               p: Point, depth: Option<int>)
    requires start <= |batches|
  {
    var at := Landings(batches, others, start);
    && AllOnce(d, batches, p, depth) && AllOnce(d, others, p, depth)
    && Room(d, batches, others, at, p, depth) && LandApart(d, others, at, p, depth)
  }

  /** No two multipass batches that show at the point land in one batch. */
  ghost predicate LandApart<C>(d: Drawing<C>, others: seq<PrimitiveBatch>, at: seq<nat>, p: Point, depth: Option<int>)
    requires |at| == |others|
  {
    forall j, m :: 0 <= j < m < |others| && at[j] == at[m] && IsText(others[j]) ==>
      Count(d, others[j], p, depth) + Count(d, others[m], p, depth) <= 1
  }

  lemma {:induction false} CountMerged<C>(d: Drawing<C>, a: PrimitiveBatch, b: PrimitiveBatch, p: Point,
      depth: Option<int>)
    ensures Count(d, MergeBatch(a, b), p, depth) == Count(d, a, p, depth) + Count(d, b, p, depth)
  {
    FilterConcat(a.instances, b.instances, Seen(d, p, depth));
  }

  /** A batch lands among compatible ones. */
  lemma {:induction false} LandingsFit(batches: seq<PrimitiveBatch>, others: seq<PrimitiveBatch>, start: nat, j: nat)
    requires start <= |batches| && j < |others|
    ensures var i := Landings(batches, others, start)[j];
            i < |batches| ==> IsText(batches[i]) == IsText(others[j])
    decreases |others|
  {
    if j == 0 {
      FirstCompatible(batches, start, others[0].key);
    } else {
      LandingsFit(MergedOne(batches, others[0], start), others[1..], NextStart(batches, others[0], start), j - 1);
    }
  }

  /** After one merged batch. */
  lemma {:induction false} MergedCounts<C>(d: Drawing<C>, batches: seq<PrimitiveBatch>, other: PrimitiveBatch,
      start: nat, p: Point, depth: Option<int>)
    requires start <= |batches|
    ensures var i, after := FirstAt(batches, start, other.key), MergedOne(batches, other, start);
            && i < |after| && |batches| <= |after| <= |batches| + 1 && (|after| == |batches| ==> i < |batches|)
            && IsText(after[i]) == IsText(other)
            && Count(d, after[i], p, depth)
                 == Count(d, other, p, depth) + (if i < |batches| then Count(d, batches[i], p, depth) else 0)
            && forall b :: 0 <= b < |batches| && b != i ==> after[b] == batches[b]
  {
    var i := FirstAt(batches, start, other.key);
    FirstCompatible(batches, start, other.key);
    if i < |batches| {
      CountMerged(d, batches[i], other, p, depth);
    }
  }

  lemma {:induction false} StaysOnceStep<C>(d: Drawing<C>, batches: seq<PrimitiveBatch>, others: seq<PrimitiveBatch>,
      start: nat, p: Point, depth: Option<int>)
    requires start <= |batches| && others != []
    ensures StaysOnce(d, batches, others, start, p, depth)
       <==> StaysOnce(d, MergedOne(batches, others[0], start), others[1..], NextStart(batches, others[0], start), p,
                      depth)
  {
    if StaysOnce(d, batches, others, start, p, depth) {
      StaysOnceAfter(d, batches, others, start, p, depth);
    }
    var after, next := MergedOne(batches, others[0], start), NextStart(batches, others[0], start);
    if StaysOnce(d, after, others[1..], next, p, depth) {
      StaysOnceBefore(d, batches, others, start, p, depth);
    }
  }

  lemma {:induction false} StaysOnceAfter<C>(d: Drawing<C>, batches: seq<PrimitiveBatch>, others: seq<PrimitiveBatch>,
      start: nat, p: Point, depth: Option<int>)
    requires start <= |batches| && others != [] && StaysOnce(d, batches, others, start, p, depth)
    ensures StaysOnce(d, MergedOne(batches, others[0], start), others[1..], NextStart(batches, others[0], start), p,
                      depth)
  {
    var o, rest, i := others[0], others[1..], FirstAt(batches, start, others[0].key);
    var after, next := MergedOne(batches, o, start), NextStart(batches, o, start);
    var at, at' := Landings(batches, others, start), Landings(after, rest, next);
    assert at == [i] + at';
    MergedCounts(d, batches, o, start, p, depth);
    forall b | 0 <= b < |after| ensures Once(d, after[b], p, depth) {
      assert b != i ==> after[b] == batches[b];
      assert b == i ==> Once(d, others[0], p, depth) && at[0] == i;
    }
    RoomAfter(d, batches, others, start, at, p, depth);
    ApartTail(d, others, at, p, depth);
    assert at[1..] == at';
  }

  lemma {:induction false} ApartTail<C>(d: Drawing<C>, others: seq<PrimitiveBatch>, at: seq<nat>, p: Point,
      depth: Option<int>)
    requires |at| == |others| && others != [] && LandApart(d, others, at, p, depth)
    ensures LandApart(d, others[1..], at[1..], p, depth)
  {
    forall j, m | 0 <= j < m < |others| - 1 && at[1..][j] == at[1..][m] && IsText(others[1..][j])
      ensures Count(d, others[1..][j], p, depth) + Count(d, others[1..][m], p, depth) <= 1
    {
      assert at[j + 1] == at[m + 1] && IsText(others[j + 1]);
    }
  }

  lemma {:induction false} RoomAfter<C>(d: Drawing<C>, batches: seq<PrimitiveBatch>, others: seq<PrimitiveBatch>,
      start: nat, at: seq<nat>, p: Point, depth: Option<int>)
    requires start <= |batches| && others != [] && at == Landings(batches, others, start)
    requires Room(d, batches, others, at, p, depth) && LandApart(d, others, at, p, depth)
    requires AllOnce(d, others, p, depth)
    ensures Room(d, MergedOne(batches, others[0], start), others[1..], at[1..], p, depth)
  {
    var rest, i := others[1..], FirstAt(batches, start, others[0].key);
    var after, next := MergedOne(batches, others[0], start), NextStart(batches, others[0], start);
    assert at[0] == i && at[1..] == Landings(after, rest, next);
    MergedCounts(d, batches, others[0], start, p, depth);
    forall j | 0 <= j < |rest| && at[1..][j] < |after| && IsText(rest[j])
      ensures Count(d, after[at[1..][j]], p, depth) + Count(d, rest[j], p, depth) <= 1
    {
      var b := at[j + 1];
      LandingsFit(after, rest, next, j);
      assert others[j + 1] == rest[j] && b == at[1..][j];
      if b == i {
        assert IsText(others[0]) && at[0] == at[j + 1];
        assert Count(d, others[0], p, depth) + Count(d, others[j + 1], p, depth) <= 1;
      } else {
        assert after[b] == batches[b];
      }
    }
  }

  lemma {:induction false} StaysOnceBefore<C>(d: Drawing<C>, batches: seq<PrimitiveBatch>, others: seq<PrimitiveBatch>,
      start: nat, p: Point, depth: Option<int>)
    requires start <= |batches| && others != []
    requires StaysOnce(d, MergedOne(batches, others[0], start), others[1..], NextStart(batches, others[0], start), p,
                       depth)
    ensures StaysOnce(d, batches, others, start, p, depth)
  {
    var o, rest, i := others[0], others[1..], FirstAt(batches, start, others[0].key);
    var after, next := MergedOne(batches, o, start), NextStart(batches, o, start);
    var at := Landings(batches, others, start);
    assert at[0] == i && at[1..] == Landings(after, rest, next);
    MergedCounts(d, batches, o, start, p, depth);
    FirstCompatible(batches, start, o.key);
    assert Once(d, after[i], p, depth);
    forall b | 0 <= b < |batches| ensures Once(d, batches[b], p, depth) {
      assert b != i ==> after[b] == batches[b] && Once(d, after[b], p, depth);
    }
    forall j | 0 <= j < |others| ensures Once(d, others[j], p, depth) {
      assert j > 0 ==> others[j] == rest[j - 1];
    }
    RoomBefore(d, batches, others, start, at, p, depth);
    ApartBefore(d, batches, others, start, at, p, depth);
  }

  lemma {:induction false} RoomBefore<C>(d: Drawing<C>, batches: seq<PrimitiveBatch>, others: seq<PrimitiveBatch>,
      start: nat, at: seq<nat>, p: Point, depth: Option<int>)
    requires start <= |batches| && others != [] && at == Landings(batches, others, start)
    requires var after := MergedOne(batches, others[0], start);
             AllOnce(d, after, p, depth) && Room(d, after, others[1..], at[1..], p, depth)
    ensures Room(d, batches, others, at, p, depth)
  {
    var after, rest, i := MergedOne(batches, others[0], start), others[1..], FirstAt(batches, start, others[0].key);
    assert at[0] == i;
    MergedCounts(d, batches, others[0], start, p, depth);
    forall j | 0 <= j < |others| && at[j] < |batches| && IsText(others[j])
      ensures Count(d, batches[at[j]], p, depth) + Count(d, others[j], p, depth) <= 1
    {
      if j == 0 {
        assert Once(d, after[i], p, depth);
      } else {
        assert at[j] == at[1..][j - 1] && others[j] == rest[j - 1];
        assert Count(d, after[at[1..][j - 1]], p, depth) + Count(d, rest[j - 1], p, depth) <= 1;
      }
    }
  }

  lemma {:induction false} ApartBefore<C>(d: Drawing<C>, batches: seq<PrimitiveBatch>, others: seq<PrimitiveBatch>,
      start: nat, at: seq<nat>, p: Point, depth: Option<int>)
    requires start <= |batches| && others != [] && at == Landings(batches, others, start)
    requires var after := MergedOne(batches, others[0], start);
             Room(d, after, others[1..], at[1..], p, depth) && LandApart(d, others[1..], at[1..], p, depth)
    ensures LandApart(d, others, at, p, depth)
  {
    var rest, i := others[1..], FirstAt(batches, start, others[0].key);
    var after, next := MergedOne(batches, others[0], start), NextStart(batches, others[0], start);
    assert at[0] == i && at[1..] == Landings(after, rest, next);
    MergedCounts(d, batches, others[0], start, p, depth);
    forall j, m | 0 <= j < m < |others| && at[j] == at[m] && IsText(others[j])
      ensures Count(d, others[j], p, depth) + Count(d, others[m], p, depth) <= 1
    {
      assert at[m] == at[1..][m - 1] && others[m] == rest[m - 1];
      if j > 0 {
        assert at[j] == at[1..][j - 1] && others[j] == rest[j - 1];
      } else {
        LandingsFit(after, rest, next, m - 1);
        assert Count(d, after[at[1..][m - 1]], p, depth) + Count(d, rest[m - 1], p, depth) <= 1;
      }
    }
  }

  /** Exactly when merging leaves no multipass batch with two instances that show, on the lists before. */
  lemma {:induction false} MergeOnceIff<C>(d: Drawing<C>, batches: seq<PrimitiveBatch>, others: seq<PrimitiveBatch>,
      start: nat, p: Point, depth: Option<int>)
    requires start <= |batches|
    ensures AllOnce(d, MergeAll(batches, others, start), p, depth) <==> StaysOnce(d, batches, others, start, p, depth)
    decreases |others|
  {
    if others != [] {
      StaysOnceStep(d, batches, others, start, p, depth);
      MergeOnceIff(d, MergedOne(batches, others[0], start), others[1..], NextStart(batches, others[0], start), p,
          depth);
    }
  }

  /* ---------------- any run of merges ---------------- */

  /** Nothing of the batches shows at the point. */
  ghost predicate AllClear<C>(d: Drawing<C>, batches: seq<PrimitiveBatch>, p: Point, depth: Option<int>) {
    forall b :: 0 <= b < |batches| ==> Count(d, batches[b], p, depth) == 0
  }

  lemma {:induction false} MergeClear<C>(d: Drawing<C>, batches: seq<PrimitiveBatch>, others: seq<PrimitiveBatch>,
      start: nat, p: Point, depth: Option<int>)
    requires start <= |batches| && AllClear(d, batches, p, depth) && AllClear(d, others, p, depth)
    ensures AllClear(d, MergeAll(batches, others, start), p, depth)
    decreases |others|
  {
    if others != [] {
      MergedCounts(d, batches, others[0], start, p, depth);
      MergeClear(d, MergedOne(batches, others[0], start), others[1..], NextStart(batches, others[0], start), p, depth);
    }
  }

  /** Merging builders that show nothing at the point changes nothing there. */
  lemma {:induction false} MergeKeepsOnce<C>(d: Drawing<C>, batches: seq<PrimitiveBatch>, others: seq<PrimitiveBatch>,
                                             start: nat, p: Point, depth: Option<int>)
    requires start <= |batches| && AllClear(d, others, p, depth)
    ensures AllOnce(d, MergeAll(batches, others, start), p, depth) <==> AllOnce(d, batches, p, depth)
  {
    MergeOnceIff(d, batches, others, start, p, depth);
    var at := Landings(batches, others, start);
    if AllOnce(d, batches, p, depth) {
      forall j | 0 <= j < |others| && at[j] < |batches| && IsText(others[j])
        ensures Count(d, batches[at[j]], p, depth) + Count(d, others[j], p, depth) <= 1
      {
        LandingsFit(batches, others, start, j);
        assert Once(d, batches[at[j]], p, depth);
      }
    }
  }

  /** Merging into a container that shows nothing at the point. */
  lemma {:induction false} MergeIntoClear<C>(d: Drawing<C>, batches: seq<PrimitiveBatch>, others: seq<PrimitiveBatch>,
      p: Point, depth: Option<int>)
    requires AllClear(d, batches, p, depth)
    ensures AllOnce(d, MergeAll(batches, others, 0), p, depth)
       <==> AllOnce(d, others, p, depth) && LandApart(d, others, Landings(batches, others, 0), p, depth)
  {
    MergeOnceIff(d, batches, others, 0, p, depth);
    if AllOnce(d, others, p, depth) {
      forall j | 0 <= j < |others| && IsText(others[j]) ensures Count(d, others[j], p, depth) <= 1 {
        assert Once(d, others[j], p, depth);
      }
    }
  }

  /** Only list `k` shows anything at the point. */
  ghost predicate OnlyList<C>(d: Drawing<C>, lists: seq<seq<PrimitiveBatch>>, k: nat, p: Point, depth: Option<int>) {
    forall i :: 0 <= i < |lists| && i != k ==> AllClear(d, lists[i], p, depth)
  }

  lemma {:induction false} ContainerClear<C>(d: Drawing<C>, lists: seq<seq<PrimitiveBatch>>, p: Point,
      depth: Option<int>)
    requires forall i :: 0 <= i < |lists| ==> AllClear(d, lists[i], p, depth)
    ensures AllClear(d, ContainerOf(lists), p, depth)
  {
    if lists != [] {
      var n := |lists| - 1;
      ContainerClear(d, lists[..n], p, depth);
      MergeClear(d, ContainerOf(lists[..n]), lists[n], 0, p, depth);
    }
  }

  /** Exactly when a container shows no multipass batch twice, for any run of merges in which one list
      alone shows at the point: the list does not, and its batches that show land apart. */
  lemma {:induction false} ContainerOnceIff<C>(d: Drawing<C>, lists: seq<seq<PrimitiveBatch>>, k: nat, p: Point,
      depth: Option<int>)
    requires k < |lists| && OnlyList(d, lists, k, p, depth)
    ensures AllOnce(d, ContainerOf(lists), p, depth) <==>
            && AllOnce(d, lists[k], p, depth)
            && LandApart(d, lists[k], Landings(ContainerOf(lists[..k]), lists[k], 0), p, depth)
    decreases |lists|
  {
    var n := |lists| - 1;
    var init := lists[..n];
    if k == n {
      ContainerClear(d, init, p, depth);
      MergeIntoClear(d, ContainerOf(init), lists[k], p, depth);
    } else {
      assert init[..k] == lists[..k] && init[k] == lists[k];
      ContainerOnceIff(d, init, k, p, depth);
      MergeKeepsOnce(d, ContainerOf(init), lists[n], 0, p, depth);
    }
  }

  /** The builders' batches hold what the histories submitted. */
  ghost predicate Hold(histories: seq<seq<Instance>>, lists: seq<seq<PrimitiveBatch>>) {
    && |histories| == |lists|
    && (forall i :: 0 <= i < |lists| ==> AllSuitBlend(lists[i]))
    && (forall i :: 0 <= i < |lists| ==>
          multiset(Flatten(InstanceLists(lists[i]))) == multiset(BlendedOf(histories[i])))
  }

  lemma {:induction false} ClearOfTask<C>(d: Drawing<C>, history: seq<Instance>, batches: seq<PrimitiveBatch>, p: Point,
      depth: Option<int>)
    requires multiset(Flatten(InstanceLists(batches))) == multiset(BlendedOf(history))
    requires LeavesAlone(InTurn(d), history, p)
    ensures AllClear(d, batches, p, depth)
  {
    SameMembers(Flatten(InstanceLists(batches)), BlendedOf(history));
    forall b | 0 <= b < |batches| ensures Count(d, batches[b], p, depth) == 0 {
      var f := Filter(batches[b].instances, Seen(d, p, depth));
      assert f == [] || f[0] in f;
      FlattenAround(InstanceLists(batches), b);
      assert forall x :: x in batches[b].instances ==> x in Flatten(InstanceLists(batches));
      assert forall x :: x in BlendedOf(history) ==> !InTurn(d).covers(x, p);
    }
  }

  /** After any run of merges, at a point that task `k` alone touches: exactly when the merged container
      draws that task's picture. No multipass batch of the task shows two instances, and no two of them
      that show went into one batch; both are told from the lists before the task was merged. */
  lemma {:induction false} MergesDrawTaskIff<C>(d: Drawing<C>, histories: seq<seq<Instance>>,
      lists: seq<seq<PrimitiveBatch>>, states: seq<Lists>, k: nat, p: Point, c: C)
    requires Bounded(InTurn(d)) && MergeRun(histories, states) && Hold(histories, lists)
    requires states[|histories|].blended == Flatten(InstanceLists(ContainerOf(lists)))
    requires k < |histories| && OnlyTask(InTurn(d), histories, k, p) && WellLayered(InTurn(d), histories[k], p)
    ensures var solids, container := states[|histories|].solids, ContainerOf(lists);
            var depth := TopDepth(InTurn(d), histories[k], p);
            var safe := AllOnce(d, lists[k], p, depth)
                        && LandApart(d, lists[k], Landings(ContainerOf(lists[..k]), lists[k], 0), p, depth);
            && (Draws(Record(d.covers), histories[k], solids, container, p, []) <==> safe)
            && (safe ==> Draws(d, histories[k], solids, container, p, c))
  {
    var depth := TopDepth(InTurn(d), histories[k], p);
    MergePaintsEachTask(InTurn(d), histories, states, k, p, c);
    ContainerSuits(lists);
    forall i | 0 <= i < |lists| && i != k ensures AllClear(d, lists[i], p, depth) {
      ClearOfTask(d, histories[i], lists[i], p, depth);
    }
    ContainerOnceIff(d, lists, k, p, depth);
    ContainerDrawsIff(d, histories[k], states[|histories|].solids, ContainerOf(lists), p, c);
  }

  /** For a task whose builder kept instances of different z ids apart, and whose multipass instances of
      one z id do not overlap at the point, the landings alone decide. */
  lemma {:induction false} MergesDrawBuilderIff<C>(d: Drawing<C>, histories: seq<seq<Instance>>,
      lists: seq<seq<PrimitiveBatch>>, states: seq<Lists>, k: nat, p: Point, c: C)
    requires Bounded(InTurn(d)) && MergeRun(histories, states) && Hold(histories, lists)
    requires states[|histories|].blended == Flatten(InstanceLists(ContainerOf(lists)))
    requires k < |histories| && OnlyTask(InTurn(d), histories, k, p) && WellLayered(InTurn(d), histories[k], p)
    requires AllPassSafe(lists[k]) && Ordered(Flatten(InstanceLists(lists[k]))) && OncePerZ(d, histories[k], p)
    ensures Draws(Record(d.covers), histories[k], states[|histories|].solids, ContainerOf(lists), p, []) <==>
            LandApart(d, lists[k], Landings(ContainerOf(lists[..k]), lists[k], 0), p,
                      TopDepth(InTurn(d), histories[k], p))
  {
    SameMembers(Flatten(InstanceLists(lists[k])), BlendedOf(histories[k]));
    SafeAreOnce(d, lists[k], p, TopDepth(InTurn(d), histories[k], p));
    MergesDrawTaskIff(d, histories, lists, states, k, p, c);
  }

  /** The first builder's batches stay as they are. */
  lemma {:induction false} MergeIntoEmpty(batches: seq<PrimitiveBatch>, others: seq<PrimitiveBatch>)
    ensures MergeAll(batches, others, |batches|) == batches + others
    decreases |others|
  {
    if others == [] {
      assert batches + others == batches;
    } else {
      MergeIntoEmpty(batches + [others[0]], others[1..]);
      assert batches + others == (batches + [others[0]]) + others[1..];
    }
  }

  /** After any run of merges, at a point that one task alone touches and that at most one of its
      multipass submissions covers: the renderer draws that task's picture. */
  lemma {:induction false} MergesDrawEachTask<C>(d: Drawing<C>, histories: seq<seq<Instance>>, states: seq<Lists>,
                                                 batches: seq<PrimitiveBatch>, k: nat, p: Point, c: C)
    requires Bounded(InTurn(d)) && MergeRun(histories, states) && OnlyTask(InTurn(d), histories, k, p)
    requires k < |histories| && WellLayered(InTurn(d), histories[k], p)
    requires AllSuitBlend(batches) && states[|histories|].blended == Flatten(InstanceLists(batches))
    requires |Filter(histories[k], Texts(d, p))| <= 1
    ensures RenderBatches(d, states[|histories|].solids, batches, p, c) == Paint(InTurn(d), histories[k], p, c)
  {
    var solids := states[|histories|].solids;
    MergePaintsEachTask(InTurn(d), histories, states, k, p, c);
    OneTextIsOnce(d, histories[k], solids, batches, p, TopDepth(InTurn(d), histories[k], p));
    ContainerDrawsIff(d, histories[k], solids, batches, p, c);
  }
}
