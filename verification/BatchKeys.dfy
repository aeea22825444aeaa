/** Batch keys, their compatibility, and the batches they label (webrender/src/batch.rs). */
module BatchKeys {
  import opened Geometry

  datatype BlendMode =
    | None
    | Alpha
    | PremultipliedAlpha
    | PremultipliedDestOut
    | SubpixelConstantTextColor(color: int)
    | SubpixelWithBgColor
    | SubpixelDualSource
    | Advanced(mode: nat)

  datatype TextureSource = Invalid | Source(id: nat)

  datatype BatchTextures = BatchTextures(color0: TextureSource, color1: TextureSource, color2: TextureSource) {

    predicate IsCompatibleWith(other: BatchTextures) {
      && TexturesCompatible(color0, other.color0)
      && TexturesCompatible(color1, other.color1)
      && TexturesCompatible(color2, other.color2)
    }
  }

  predicate TexturesCompatible(t1: TextureSource, t2: TextureSource) {
    t1 == Invalid || t2 == Invalid || t1 == t2
  }

  datatype BatchKey = BatchKey(kind: nat, blendMode: BlendMode, textures: BatchTextures) {

    predicate IsCompatibleWith(other: BatchKey) {
      kind == other.kind && blendMode == other.blendMode && textures.IsCompatibleWith(other.textures)
    }

    predicate IsOpaque() {
      blendMode.None?
    }
  }

  datatype Feature = AlphaPass | Antialiasing | Repetition

  /** One drawn instance, together with what it was submitted with. `order` is its place among
      all submissions; `rect` bounds every pixel it touches; `z` is its z-buffer id. */
  datatype Instance = Instance(order: nat, key: BatchKey, rect: Rect, z: int, features: set<Feature>)

  datatype PrimitiveBatch = PrimitiveBatch(key: BatchKey, instances: seq<Instance>, features: set<Feature>) {

    /** Drawing this batch with its own key, blend mode and features suits every instance in it. */
    ghost predicate Suits() {
      forall x :: x in instances ==> key.IsCompatibleWith(x.key) && x.features <= features
    }

    /** What survives merging: `IsCompatibleWith` is not transitive, but kind and blend mode are. */
    ghost predicate SuitsBlend() {
      forall x :: x in instances ==>
                    key.kind == x.key.kind && key.blendMode == x.key.blendMode && x.features <= features
    }
  }

  ghost predicate AllSuitBlend(batches: seq<PrimitiveBatch>) {
    forall b :: 0 <= b < |batches| ==> batches[b].SuitsBlend()
  }

  function NewBatch(key: BatchKey): PrimitiveBatch {
    PrimitiveBatch(key, [], {})
  }

  /** Batch `index`, or a new one at the end, with more features asked for. */
  function Requested(batches: seq<PrimitiveBatch>, index: nat, key: BatchKey, features: set<Feature>)
    : (r: seq<PrimitiveBatch>)
    requires index <= |batches|
    ensures index < |r|
  {
    var grown := if index < |batches| then batches else batches + [NewBatch(key)];
    grown[index := grown[index].(features := grown[index].features + features)]
  }

  /** And with one more instance. */
  function Received(batches: seq<PrimitiveBatch>, index: nat, inst: Instance): (r: seq<PrimitiveBatch>)
    requires index <= |batches|
    ensures index < |r|
  {
    var grown := Requested(batches, index, inst.key, inst.features);
    grown[index := grown[index].(instances := grown[index].instances + [inst])]
  }

  function InstanceLists(batches: seq<PrimitiveBatch>): (r: seq<seq<Instance>>) {
    seq(|batches|, i requires 0 <= i < |batches| => batches[i].instances)
  }

  /** What compatible keys have in common: kind and blend mode, and in each of the three slots the same
      texture, or none in one of the two. */
  ghost predicate DrawnTogether(a: BatchKey, b: BatchKey) {
    var s, t := a.textures, b.textures;
    && a.kind == b.kind && a.blendMode == b.blendMode
    && (s.color0.Source? && t.color0.Source? ==> s.color0.id == t.color0.id)
    && (s.color1.Source? && t.color1.Source? ==> s.color1.id == t.color1.id)
    && (s.color2.Source? && t.color2.Source? ==> s.color2.id == t.color2.id)
  }

  lemma {:induction false} CompatibleIff(a: BatchKey, b: BatchKey)
    ensures a.IsCompatibleWith(b) <==> DrawnTogether(a, b)
  {
  }

  /** Invalid matches every texture, so compatibility is not transitive: an instance list may hold
      two instances whose own keys are incompatible. */
  lemma {:induction false} CompatibilityIsNotTransitive() returns (a: BatchKey, b: BatchKey, c: BatchKey)
    ensures a.IsCompatibleWith(b) && b.IsCompatibleWith(c) && !a.IsCompatibleWith(c)
  {
    var t := (s: TextureSource) => BatchKey(0, Alpha, BatchTextures(s, Invalid, Invalid));
    a, b, c := t(Source(1)), t(Invalid), t(Source(2));
  }
}
