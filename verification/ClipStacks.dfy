/** The stack of clips in force while pictures are visited (ClipChainStack in webrender/src/clip.rs,
    visited by update_visibility in webrender/src/prim_store/mod.rs). */
module ClipStacks {
  import opened ClipStores
  import opened Options

  /** Every chain leads towards older nodes. */
  predicate Grounded(nodes: seq<ClipChainNode>) {
    forall i :: 0 <= i < |nodes| && nodes[i].parent.Some? ==> nodes[i].parent.value < i
  }

  predicate InNodes(nodes: seq<ClipChainNode>, id: Option<nat>) {
    id.Some? ==> id.value < |nodes|
  }

  /** The nodes from `id` to the root of its chain. */
  function Chain(nodes: seq<ClipChainNode>, id: Option<nat>): seq<nat>
    requires Grounded(nodes) && InNodes(nodes, id)
    decreases id.Some?, if id.Some? then id.value else 0
  {
    if id.None? then [] else [id.value] + Chain(nodes, nodes[id.value].parent)
  }

  /** The chain without the clips whose handle is shared. */
  function Kept(nodes: seq<ClipChainNode>, shared: set<nat>, id: Option<nat>): (ks: seq<nat>)
    requires Grounded(nodes) && InNodes(nodes, id)
    decreases id.Some?, if id.Some? then id.value else 0
  {
    if id.None? then []
    else (if nodes[id.value].handle in shared then [] else [id.value]) + Kept(nodes, shared, nodes[id.value].parent)
  }

  /** Exactly the chain's nodes that are not shared, each once and from child to ancestor. */
  lemma {:induction false} KeptExactly(nodes: seq<ClipChainNode>, shared: set<nat>, id: Option<nat>)
    requires Grounded(nodes) && InNodes(nodes, id)
    ensures forall k :: k in Kept(nodes, shared, id) <==>
              k in Chain(nodes, id) && k < |nodes| && nodes[k].handle !in shared
    ensures forall i, j :: 0 <= i < j < |Kept(nodes, shared, id)| ==>
          Kept(nodes, shared, id)[j] < Kept(nodes, shared, id)[i]
    ensures forall k <- Chain(nodes, id) :: id.Some? && k <= id.value
    decreases id.Some?, if id.Some? then id.value else 0
  {
    if id.Some? {
      KeptExactly(nodes, shared, nodes[id.value].parent);
      var rest := Kept(nodes, shared, nodes[id.value].parent);
      forall j | 0 <= j < |rest| ensures rest[j] < id.value {
        assert rest[j] in rest;
      }
    }
  }

  /** One node of the walk to the root. */
  lemma {:induction false} KeptStep(nodes: seq<ClipChainNode>, shared: set<nat>, id: nat, before: seq<nat>)
    requires Grounded(nodes) && id < |nodes|
    ensures var own := if nodes[id].handle in shared then [] else [id];
            before + Kept(nodes, shared, Some(id)) == (before + own) + Kept(nodes, shared, nodes[id].parent)
  {
  }

  /** Adding a node keeps the store grounded and leaves older chains as they are. */
  lemma {:induction false} AddNodeKeepsChains(nodes: seq<ClipChainNode>, node: ClipChainNode, id: Option<nat>)
    requires Grounded(nodes) && InNodes(nodes, node.parent) && InNodes(nodes, id)
    ensures Grounded(nodes + [node])
    ensures Chain(nodes + [node], id) == Chain(nodes, id)
    ensures Chain(nodes + [node], Some(|nodes|)) == [|nodes|] + Chain(nodes, node.parent)
    decreases id.Some?, if id.Some? then id.value else 0
  {
    if id.Some? {
      AddNodeKeepsChains(nodes, node, nodes[id.value].parent);
    }
    ChainsSame(nodes, node, node.parent);
  }

  lemma {:induction false} ChainsSame(nodes: seq<ClipChainNode>, node: ClipChainNode, id: Option<nat>)
    requires Grounded(nodes) && InNodes(nodes, node.parent) && InNodes(nodes, id)
    ensures Grounded(nodes + [node]) && Chain(nodes + [node], id) == Chain(nodes, id)
    decreases id.Some?, if id.Some? then id.value else 0
  {
    if id.Some? {
      ChainsSame(nodes, node, nodes[id.value].parent);
    }
  }

  datatype ClipChainLevel = ClipChainLevel(clips: seq<nat>, clipCounts: seq<nat>, sharedClips: seq<nat>) {

    /** The counts account for every clip of the level. */
    predicate Valid() {
      Sum(clipCounts) == |clips|
    }

    predicate IsEmpty() {
      clips == [] && clipCounts == []
    }

    function Pushed(added: seq<nat>): ClipChainLevel {
      ClipChainLevel(clips + added, clipCounts + [|added|], sharedClips)
    }

    function Popped(): ClipChainLevel
      requires Valid() && clipCounts != []
    {
      ClipChainLevel(clips[..|clips| - clipCounts[|clipCounts| - 1]], clipCounts[..|clipCounts| - 1], sharedClips)
    }
  }

  lemma {:induction false} PoppedPushed(level: ClipChainLevel, added: seq<nat>)
    requires level.Valid()
    ensures level.Pushed(added).Valid() && level.Pushed(added).Popped() == level
  {
    SumAppend(level.clipCounts, |added|);
    assert (level.clips + added)[..|level.clips|] == level.clips;
  }

  function WithTop(stack: seq<ClipChainLevel>, level: ClipChainLevel): seq<ClipChainLevel>
    requires stack != []
  {
    stack[|stack| - 1 := level]
  }

  function Sum(counts: seq<nat>): nat {
    if counts == [] then 0 else Sum(counts[..|counts| - 1]) + counts[|counts| - 1]
  }

  lemma {:induction false} SumAppend(counts: seq<nat>, n: nat)
    ensures Sum(counts + [n]) == Sum(counts) + n
  {
    assert (counts + [n])[..|counts|] == counts;
  }

  /** The handles shared by any open surface. */
  function SharedHandles(stack: seq<ClipChainLevel>): set<nat> {
    set l, h | l in stack && h in l.sharedClips :: h
  }

  /* ---------------- visits ---------------- */

  /** What is visited: a primitive with its own clips, or a group (a pushed clip chain or a picture)
      that puts its clips around its members, a picture with a surface sharing some of them. */
  datatype Scope =
    | Primitive(chain: Option<nat>)
    | Group(chain: Option<nat>, surface: Option<seq<nat>>, members: seq<Scope>)

  predicate ScopeInNodes(nodes: seq<ClipChainNode>, scope: Scope) {
    && InNodes(nodes, scope.chain)
    && (scope.Group? ==> forall m <- scope.members :: ScopeInNodes(nodes, m))
  }

  /** The clip lists of the primitives in a scope, in visiting order, told without a stack: the
      unshared clips of the enclosing scopes up to the innermost surface, outermost first. */
  function Sees(nodes: seq<ClipChainNode>, shared: set<nat>, active: seq<nat>, scope: Scope): seq<seq<nat>>
    requires Grounded(nodes) && ScopeInNodes(nodes, scope)
    decreases scope
  {
    match scope
    case Primitive(chain) => [active + Kept(nodes, shared, chain)]
    case Group(chain, surface, members) =>
      if surface.None? then SeesAll(nodes, shared, active + Kept(nodes, shared, chain), members)
      else SeesAll(nodes, shared + (set h | h in surface.value), [], members)
  }

  function SeesAll(nodes: seq<ClipChainNode>, shared: set<nat>, active: seq<nat>, scopes: seq<Scope>): seq<seq<nat>>
    requires Grounded(nodes) && forall m <- scopes :: ScopeInNodes(nodes, m)
    decreases scopes
  {
    if scopes == [] then []
    else
      SeesAll(nodes, shared, active, scopes[..|scopes| - 1]) + Sees(nodes, shared, active, scopes[|scopes| - 1])
  }

  predicate AllUnshared(nodes: seq<ClipChainNode>, shared: set<nat>, clips: seq<nat>) {
    forall k <- clips :: k < |nodes| && nodes[k].handle !in shared
  }

  /** Within a surface no primitive meets a clip that this surface, or one around it, shares. */
  lemma {:induction false} SeesOnlyUnshared(nodes: seq<ClipChainNode>, shared: set<nat>, active: seq<nat>, scope: Scope)
    requires Grounded(nodes) && ScopeInNodes(nodes, scope) && AllUnshared(nodes, shared, active)
    ensures forall clips <- Sees(nodes, shared, active, scope) :: AllUnshared(nodes, shared, clips)
    decreases scope, 1
  {
    KeptExactly(nodes, shared, scope.chain);
    if scope.Group? {
      var inner := if scope.surface.None? then shared else shared + (set h | h in scope.surface.value);
      SeesAllUnshared(nodes, inner, if scope.surface.None? then active + Kept(nodes, shared, scope.chain) else [],
                      scope.members);
      forall clips <- Sees(nodes, shared, active, scope) ensures AllUnshared(nodes, shared, clips) {
        assert AllUnshared(nodes, inner, clips);
      }
    }
  }

  lemma {:induction false} SeesAllUnshared(nodes: seq<ClipChainNode>, shared: set<nat>, active: seq<nat>,
      scopes: seq<Scope>)
    requires Grounded(nodes) && AllUnshared(nodes, shared, active)
    requires forall m <- scopes :: ScopeInNodes(nodes, m)
    ensures forall clips <- SeesAll(nodes, shared, active, scopes) :: AllUnshared(nodes, shared, clips)
    decreases scopes, 0
  {
    if scopes != [] {
      SeesAllUnshared(nodes, shared, active, scopes[..|scopes| - 1]);
      SeesOnlyUnshared(nodes, shared, active, scopes[|scopes| - 1]);
    }
  }

  class ClipChainStack {
    var stack: seq<ClipChainLevel>

    predicate Valid()
      reads this
    {
      stack != [] && forall i :: 0 <= i < |stack| ==> stack[i].Valid()
    }

    function Top(): ClipChainLevel
      requires stack != []
      reads this
    {
      stack[|stack| - 1]
    }

    constructor ()
      ensures Valid() && stack == [ClipChainLevel([], [], [])]
    {
      stack := [ClipChainLevel([], [], [])];
    }

    /** Whether no open surface shares the handle. */
    method IsUnshared(handle: nat) returns (unshared: bool)
      ensures unshared == (handle !in SharedHandles(stack))
    {
      unshared := true;
      for i := 0 to |stack|
        invariant unshared
        invariant forall k :: 0 <= k < i ==> handle !in stack[k].sharedClips
      {
        if handle in stack[i].sharedClips {
          assert stack[i] in stack;
          return false;
        }
      }
    }

    /** Puts the unshared clips of a chain on top of the current level. */
    method PushClip(id: Option<nat>, nodes: seq<ClipChainNode>)
      requires Valid() && Grounded(nodes) && InNodes(nodes, id)
      modifies this
      ensures Valid()
      ensures stack == WithTop(old(stack), old(Top()).Pushed(Kept(nodes, SharedHandles(old(stack)), id)))
    {
      var clipCount := 0;
      var current := id;
      ghost var added: seq<nat> := [];
      ghost var shared := SharedHandles(stack);
      ghost var top := Top();
      assert top.clips + added == top.clips;
      WithTopTwice(stack, top, top);
      while current.Some?
        invariant InNodes(nodes, current)
        invariant stack == WithTop(old(stack), top.(clips := top.clips + added))
        invariant SharedHandles(stack) == shared
        invariant clipCount == |added|
        invariant Kept(nodes, shared, id) == added + Kept(nodes, shared, current)
        decreases current.Some?, if current.Some? then current.value else 0
      {
        var node := nodes[current.value];
        KeptStep(nodes, shared, current.value, added);
        var validClip := IsUnshared(node.handle);
        if validClip {
          PushId(current.value);
          assert (top.clips + added) + [current.value] == top.clips + (added + [current.value]);
          WithTopTwice(old(stack), top.(clips := top.clips + added),
              top.(clips := top.clips + (added + [current.value])));
          clipCount := clipCount + 1;
          added := added + [current.value];
        }
        assert added + [] == added;
        current := node.parent;
      }
      PoppedPushed(top, added);
      WithTopTwice(old(stack), top.(clips := top.clips + added), top.Pushed(added));
      stack := WithTop(stack, Top().(clipCounts := Top().clipCounts + [clipCount]));
      assert Kept(nodes, shared, id) == added;
    }

    method PushId(id: nat)
      requires stack != []
      modifies this
      ensures stack == WithTop(old(stack), old(Top()).(clips := old(Top()).clips + [id]))
      ensures SharedHandles(stack) == SharedHandles(old(stack))
    {
      SharedSame(stack, Top().(clips := Top().clips + [id]));
      stack := WithTop(stack, Top().(clips := Top().clips + [id]));
    }

    /** Takes off what the last push put on. */
    method PopClip()
      requires Valid() && Top().clipCounts != []
      modifies this
      ensures Valid() && stack == WithTop(old(stack), old(Top().Popped()))
    {
      ghost var top := Top();
      var count := Top().clipCounts[|Top().clipCounts| - 1];
      stack := WithTop(stack, Top().(clipCounts := Top().clipCounts[..|Top().clipCounts| - 1]));
      assert top.clips[..|top.clips|] == top.clips;
      for i := 0 to count
        invariant i <= |top.clips| && stack == WithTop(old(stack), top.Popped().(clips := top.clips[..|top.clips| - i]))
      {
        ghost var level := top.Popped().(clips := top.clips[..|top.clips| - i]);
        assert level.clips[..|level.clips| - 1] == top.clips[..|top.clips| - (i + 1)];
        WithTopTwice(old(stack), level, level.(clips := level.clips[..|level.clips| - 1]));
        stack := WithTop(stack, Top().(clips := Top().clips[..|Top().clips| - 1]));
      }
    }

    method PushSurface(sharedClips: seq<nat>)
      requires Valid()
      modifies this
      ensures Valid() && stack == old(stack) + [ClipChainLevel([], [], sharedClips)]
    {
      stack := stack + [ClipChainLevel([], [], sharedClips)];
    }

    /** Requires what the source asserts: the level holds nothing any more. */
    method PopSurface()
      requires Valid() && |stack| > 1 && Top().IsEmpty()
      modifies this
      ensures Valid() && stack == old(stack)[..|old(stack)| - 1]
    {
      stack := stack[..|stack| - 1];
    }

    method CurrentClipsArray() returns (clips: seq<nat>)
      requires Valid()
      ensures clips == Top().clips
    {
      clips := Top().clips;
    }

    /** Visits a scope, noting the clips in force for every primitive. The stack comes back as it
        was, so the surface that is popped is empty. */
    method Visit(scope: Scope, nodes: seq<ClipChainNode>) returns (seen: seq<seq<nat>>)
      requires Valid() && Grounded(nodes) && ScopeInNodes(nodes, scope)
      modifies this
      ensures stack == old(stack)
      ensures seen == Sees(nodes, SharedHandles(stack), Top().clips, scope)
      decreases scope, 1
    {
      ghost var top := Top();
      ghost var added := Kept(nodes, SharedHandles(stack), scope.chain);
      PushClip(scope.chain, nodes);
      SharedSame(old(stack), top.Pushed(added));
      match scope {
        case Primitive(_) =>
          var clips := CurrentClipsArray();
          seen := [clips];
        case Group(_, surface, members) =>
          if surface.Some? {
            SharedOfSurface(stack, ClipChainLevel([], [], surface.value));
            PushSurface(surface.value);
            seen := VisitMembers(members, nodes);
            PopSurface();
          } else {
            seen := VisitMembers(members, nodes);
          }
      }
      PoppedPushed(top, added);
      WithTopTwice(old(stack), top.Pushed(added), top);
      PopClip();
    }

    method VisitMembers(members: seq<Scope>, nodes: seq<ClipChainNode>) returns (seen: seq<seq<nat>>)
      requires Valid() && Grounded(nodes) && forall m <- members :: ScopeInNodes(nodes, m)
      modifies this
      ensures stack == old(stack)
      ensures seen == SeesAll(nodes, SharedHandles(stack), Top().clips, members)
      decreases members, 0
    {
      seen := [];
      for i := 0 to |members|
        invariant stack == old(stack)
        invariant seen == SeesAll(nodes, SharedHandles(stack), Top().clips, members[..i])
      {
        assert members[i] in members;
        var more := Visit(members[i], nodes);
        assert members[..i + 1][..i] == members[..i];
        seen := seen + more;
      }
      assert members[..|members|] == members;
    }
  }

  lemma {:induction false} SharedOfSurface(stack: seq<ClipChainLevel>, level: ClipChainLevel)
    ensures SharedHandles(stack + [level]) == SharedHandles(stack) + (set h | h in level.sharedClips)
  {
    forall h ensures h in SharedHandles(stack + [level]) <==> h in SharedHandles(stack) || h in level.sharedClips {
      SharedHandlesAt(stack + [level], h);
      SharedHandlesAt(stack, h);
      if h in level.sharedClips {
        assert (stack + [level])[|stack|] == level;
      }
      if i :| 0 <= i < |stack| && h in stack[i].sharedClips {
        assert (stack + [level])[i] == stack[i];
      }
    }
  }

  lemma {:induction false} WithTopTwice(stack: seq<ClipChainLevel>, a: ClipChainLevel, b: ClipChainLevel)
    requires stack != []
    ensures WithTop(WithTop(stack, a), b) == WithTop(stack, b)
    ensures WithTop(stack, stack[|stack| - 1]) == stack
  {
  }

  lemma {:induction false} SharedSame(stack: seq<ClipChainLevel>, level: ClipChainLevel)
    requires stack != [] && level.sharedClips == stack[|stack| - 1].sharedClips
    ensures SharedHandles(WithTop(stack, level)) == SharedHandles(stack)
  {
    forall h ensures h in SharedHandles(WithTop(stack, level)) <==> h in SharedHandles(stack) {
      SharedHandlesAt(WithTop(stack, level), h);
      SharedHandlesAt(stack, h);
      assert forall i :: 0 <= i < |stack| ==> WithTop(stack, level)[i].sharedClips == stack[i].sharedClips;
    }
  }

  lemma {:induction false} SharedHandlesAt(stack: seq<ClipChainLevel>, h: nat)
    ensures h in SharedHandles(stack) <==> exists i :: 0 <= i < |stack| && h in stack[i].sharedClips
  {
    if i :| 0 <= i < |stack| && h in stack[i].sharedClips {
      assert stack[i] in stack;
    }
  }
}
