/** A binary stream of values with no length prefixes (peek-poke/src/lib.rs). A value is written
    by an advancing pointer into reserved memory; reading asks for the type's maximum size plus one
    byte, which a red zone of zeros provides at the end of the stream. */
module PeekPoke {

  type Byte = n: nat | n < 256

  /** The types that the stream can carry: primitives by their size in bytes, and what is built
      from them. An array is written element by element, so it is the tuple of its elements. */
  datatype Ty =
    | Primitive(size: nat)
    | Bool
    | Opt(inner: Ty)
    | Tuple(parts: seq<Ty>)

  function ArrayOf(len: nat, elem: Ty): Ty {
    Tuple(seq(len, _ => elem))
  }

  datatype Val =
    | Num(n: nat)
    | Truth(b: bool)
    | Nothing
    | Just(v: Val)
    | Items(vs: seq<Val>)

  datatype Result<+T> = Ok(value: T) | UnexpectedEnd | MaxSizeWrong | Unreachable

  function Pow256(k: nat): nat {
    if k == 0 then 1 else 256 * Pow256(k - 1)
  }

  predicate HasType(v: Val, t: Ty)
    decreases v, 1
  {
    match t
    case Primitive(size) => v.Num? && v.n < Pow256(size)
    case Bool => v.Truth?
    case Opt(inner) => v.Nothing? || (v.Just? && HasType(v.v, inner))
    case Tuple(parts) => v.Items? && HaveTypes(v.vs, parts)
  }

  predicate HaveTypes(vs: seq<Val>, ts: seq<Ty>)
    decreases vs, 0
  {
    |vs| == |ts| && forall i :: 0 <= i < |vs| ==> HasType(vs[i], ts[i])
  }

  /** The most bytes that a value of the type takes. */
  function MaxSize(t: Ty): nat
    decreases t, 1
  {
    match t
    case Primitive(size) => size
    case Bool => 1
    case Opt(inner) => 1 + MaxSize(inner)
    case Tuple(parts) => MaxSizes(parts)
  }

  function MaxSizes(ts: seq<Ty>): nat
    decreases ts, 0
  {
    if ts == [] then 0 else MaxSize(ts[0]) + MaxSizes(ts[1..])
  }

  lemma {:induction false} ArrayMaxSize(len: nat, elem: Ty)
    ensures MaxSize(ArrayOf(len, elem)) == len * MaxSize(elem)
  {
    if len != 0 {
      ArrayMaxSize(len - 1, elem);
      assert ArrayOf(len, elem).parts[1..] == ArrayOf(len - 1, elem).parts;
      assert len * MaxSize(elem) == MaxSize(elem) + (len - 1) * MaxSize(elem);
    }
  }

  function NumBytes(n: nat, size: nat): (r: seq<Byte>)
    ensures |r| == size
  {
    if size == 0 then [] else [n % 256] + NumBytes(n / 256, size - 1)
  }

  function BytesNum(s: seq<Byte>): nat {
    if s == [] then 0 else s[0] + 256 * BytesNum(s[1..])
  }

  /** The encoding of a value. */
  function Encode(v: Val, t: Ty): seq<Byte>
    requires HasType(v, t)
    decreases v, 1
  {
    match t
    case Primitive(size) => NumBytes(v.n, size)
    case Bool => [if v.b then 1 else 0]
    case Opt(inner) => if v.Nothing? then [0] else [1] + Encode(v.v, inner)
    case Tuple(parts) => EncodeTuple(v.vs, parts)
  }

  function EncodeTuple(vs: seq<Val>, ts: seq<Ty>): seq<Byte>
    requires HaveTypes(vs, ts)
    decreases vs, 0
  {
    if vs == [] then [] else Encode(vs[0], ts[0]) + EncodeTuple(vs[1..], ts[1..])
  }

  /** The bytes themselves: a truth value is one byte; an option starts with a tag; a number has its
      lowest byte first; the parts of a tuple follow each other. */
  lemma {:induction false} EncodeBytes(v: Val, t: Ty)
    requires HasType(v, t)
    ensures v == Truth(true) ==> Encode(v, t) == [1]
    ensures v == Truth(false) ==> Encode(v, t) == [0]
    ensures v == Nothing ==> Encode(v, t) == [0]
    ensures v.Just? ==> t.Opt? && HasType(v.v, t.inner) && Encode(v, t) == [1] + Encode(v.v, t.inner)
    ensures v.Num? ==>
              t.Primitive? && if t.size == 0 then Encode(v, t) == [] else
                var high, rest := Num(v.n / 256), Primitive(t.size - 1);
                HasType(high, rest) && Encode(v, t) == [v.n % 256] + Encode(high, rest)
    ensures v.Items? && v.vs == [] ==> Encode(v, t) == []
    ensures v.Items? && v.vs != [] ==>
              && t.Tuple? && |t.parts| == |v.vs| && HasType(v.vs[0], t.parts[0])
              && HasType(Items(v.vs[1..]), Tuple(t.parts[1..]))
              && Encode(v, t) == Encode(v.vs[0], t.parts[0]) + Encode(Items(v.vs[1..]), Tuple(t.parts[1..]))
  {
  }

  /** The maximum size is reached. */
  lemma {:induction false} MaxSizeReached(t: Ty) returns (v: Val)
    ensures HasType(v, t) && |Encode(v, t)| == MaxSize(t)
    decreases t, 1
  {
    match t
    case Primitive(size) => v := Num(0); PowPositive(size);
    case Bool => v := Truth(true);
    case Opt(inner) => var w := MaxSizeReached(inner); v := Just(w);
    case Tuple(parts) => var vs := MaxSizesReached(parts); v := Items(vs);
  }

  lemma {:induction false} MaxSizesReached(ts: seq<Ty>) returns (vs: seq<Val>)
    ensures HaveTypes(vs, ts) && |EncodeTuple(vs, ts)| == MaxSizes(ts)
    decreases ts, 0
  {
    vs := [];
    if ts != [] {
      var v := MaxSizeReached(ts[0]);
      var rest := MaxSizesReached(ts[1..]);
      vs := [v] + rest;
      assert vs[1..] == rest;
    }
  }

  lemma {:induction false} PowPositive(k: nat)
    ensures Pow256(k) > 0
  {
    if k != 0 { PowPositive(k - 1); }
  }

  /** No encoding exceeds the maximum size, and only zero-sized types have empty encodings. */
  lemma {:induction false} EncodeFits(v: Val, t: Ty)
    requires HasType(v, t)
    ensures |Encode(v, t)| <= MaxSize(t)
    ensures |Encode(v, t)| == 0 <==> MaxSize(t) == 0
    decreases v, 1
  {
    match t
    case Primitive(size) =>
    case Bool =>
    case Opt(inner) => if v.Just? { EncodeFits(v.v, inner); }
    case Tuple(parts) => EncodeTupleFits(v.vs, parts);
  }

  lemma {:induction false} EncodeTupleFits(vs: seq<Val>, ts: seq<Ty>)
    requires HaveTypes(vs, ts)
    ensures |EncodeTuple(vs, ts)| <= MaxSizes(ts)
    ensures |EncodeTuple(vs, ts)| == 0 <==> MaxSizes(ts) == 0
    decreases vs, 0
  {
    if vs != [] {
      EncodeFits(vs[0], ts[0]);
      EncodeTupleFits(vs[1..], ts[1..]);
    }
  }

  /** Reads a value at `at`. The source reads through a raw pointer: the requires clause is its
      safety contract, and that it suffices shows that no byte past the maximum size is read. */
  function Peek(t: Ty, src: seq<Byte>, at: nat): (r: Result<(Val, nat)>)
    requires at + MaxSize(t) <= |src|
    ensures r.Ok? ==> at <= r.value.1 <= at + MaxSize(t)
    ensures r.Ok? || r.Unreachable?
    decreases t, 1
  {
    match t
    case Primitive(size) => Ok((Num(BytesNum(src[at..at + size])), at + size))
    case Bool => Ok((Truth(src[at] != 0), at + 1))
    case Opt(inner) =>
      if src[at] == 0 then Ok((Nothing, at + 1))
      else if src[at] == 1 then
        match Peek(inner, src, at + 1)
        case Ok((v, end)) => Ok((Just(v), end))
        case _ => Unreachable
      else Unreachable
    case Tuple(parts) =>
      (match PeekTuple(parts, src, at)
       case Ok((vs, end)) => Ok((Items(vs), end))
       case _ => Unreachable)
  }

  function PeekTuple(ts: seq<Ty>, src: seq<Byte>, at: nat): (r: Result<(seq<Val>, nat)>)
    requires at + MaxSizes(ts) <= |src|
    ensures r.Ok? ==> at <= r.value.1 <= at + MaxSizes(ts)
    ensures r.Ok? || r.Unreachable?
    decreases ts, 0
  {
    if ts == [] then Ok(([], at)) else
      match Peek(ts[0], src, at)
      case Ok((v, mid)) =>
        (match PeekTuple(ts[1..], src, mid)
         case Ok((vs, end)) => Ok(([v] + vs, end))
         case _ => Unreachable)
      case _ => Unreachable
  }

  lemma {:induction false} NumRoundTrip(n: nat, size: nat)
    requires n < Pow256(size)
    ensures BytesNum(NumBytes(n, size)) == n
  {
    if size != 0 {
      assert n / 256 < Pow256(size - 1);
      NumRoundTrip(n / 256, size - 1);
      assert NumBytes(n, size)[1..] == NumBytes(n / 256, size - 1);
    }
  }

  /** Any byte but zero reads as true, and an option with any other tag than zero and one is refused. */
  lemma {:induction false} PeekTags(t: Ty, src: seq<Byte>, at: nat)
    requires at + MaxSize(t) <= |src|
    ensures t.Bool? ==> Peek(t, src, at) == Ok((Truth(src[at] > 0), at + 1))
    ensures t.Opt? && src[at] > 1 ==> Peek(t, src, at) == Unreachable
  {
  }

  lemma {:induction false} BytesNumFits(s: seq<Byte>)
    ensures BytesNum(s) < Pow256(|s|)
  {
    if s != [] { BytesNumFits(s[1..]); }
  }

  /** Whatever is read is a value of the type: every number that its bytes can hold is one. */
  lemma {:induction false} PeekTyped(t: Ty, src: seq<Byte>, at: nat)
    requires at + MaxSize(t) <= |src|
    ensures Peek(t, src, at).Ok? ==> HasType(Peek(t, src, at).value.0, t)
    ensures t.Primitive? ==> Peek(t, src, at).Ok?
    decreases t, 1
  {
    var r := Peek(t, src, at);
    match t
    case Primitive(size) => BytesNumFits(src[at..at + size]);
    case Bool => assert r.value.0.Truth?;
    case Opt(inner) =>
      if src[at] == 0 {
        assert r.value.0 == Nothing;
      } else if src[at] == 1 {
        PeekTyped(inner, src, at + 1);
        assert r.Ok? ==> r.value.0 == Just(Peek(inner, src, at + 1).value.0);
      } else {
        assert r.Unreachable?;
      }
    case Tuple(parts) =>
      PeekTupleTyped(parts, src, at);
      assert r.Ok? ==> r.value.0 == Items(PeekTuple(parts, src, at).value.0);
  }

  lemma {:induction false} PeekTupleTyped(ts: seq<Ty>, src: seq<Byte>, at: nat)
    requires at + MaxSizes(ts) <= |src|
    ensures PeekTuple(ts, src, at).Ok? ==> HaveTypes(PeekTuple(ts, src, at).value.0, ts)
    decreases ts, 0
  {
    if ts != [] {
      PeekTyped(ts[0], src, at);
      var first := Peek(ts[0], src, at);
      if first.Ok? { PeekTupleTyped(ts[1..], src, first.value.1); }
    }
  }

  /** `piece` lies in `src` at `at`. */
  ghost predicate Lies(piece: seq<Byte>, src: seq<Byte>, at: nat) {
    at + |piece| <= |src| && src[at..at + |piece|] == piece
  }

  lemma {:induction false} LiesSplit(a: seq<Byte>, b: seq<Byte>, src: seq<Byte>, at: nat)
    requires Lies(a + b, src, at)
    ensures Lies(a, src, at) && Lies(b, src, at + |a|)
  {
    var s := src[at..at + |a + b|];
    assert src[at..at + |a|] == s[..|a|] == a;
    assert src[at + |a|..at + |a| + |b|] == s[|a|..] == b;
  }

  /** Reading gives back what was written, and stops where writing stopped. */
  lemma {:induction false} PeekEncode(v: Val, t: Ty, src: seq<Byte>, at: nat)
    requires HasType(v, t) && Lies(Encode(v, t), src, at) && at + MaxSize(t) <= |src|
    ensures Peek(t, src, at) == Ok((v, at + |Encode(v, t)|))
    decreases v, 1
  {
    match t
    case Primitive(size) => NumRoundTrip(v.n, size);
    case Bool => assert src[at] == src[at..at + 1][0];
    case Opt(inner) =>
      assert src[at] == src[at..at + |Encode(v, t)|][0];
      if v.Just? {
        LiesSplit([1], Encode(v.v, inner), src, at);
        PeekEncode(v.v, inner, src, at + 1);
      }
    case Tuple(parts) => PeekEncodeTuple(v.vs, parts, src, at);
  }

  lemma {:induction false} PeekEncodeTuple(vs: seq<Val>, ts: seq<Ty>, src: seq<Byte>, at: nat)
    requires HaveTypes(vs, ts)
    requires Lies(EncodeTuple(vs, ts), src, at) && at + MaxSizes(ts) <= |src|
    ensures PeekTuple(ts, src, at) == Ok((vs, at + |EncodeTuple(vs, ts)|))
    decreases vs, 0
  {
    if vs != [] {
      var mid := at + |Encode(vs[0], ts[0])|;
      TupleHead(vs, ts, src, at);
      PeekEncode(vs[0], ts[0], src, at);
      PeekEncodeTuple(vs[1..], ts[1..], src, mid);
      assert vs == [vs[0]] + vs[1..];
    }
  }

  /** The first element of an encoded tuple, and the rest. */
  lemma {:induction false} TupleHead(vs: seq<Val>, ts: seq<Ty>, src: seq<Byte>, at: nat)
    requires vs != [] && HaveTypes(vs, ts)
    requires Lies(EncodeTuple(vs, ts), src, at) && at + MaxSizes(ts) <= |src|
    ensures var e := Encode(vs[0], ts[0]);
            && Lies(e, src, at) && at + MaxSize(ts[0]) <= |src|
            && Lies(EncodeTuple(vs[1..], ts[1..]), src, at + |e|) && at + |e| + MaxSizes(ts[1..]) <= |src|
            && |EncodeTuple(vs, ts)| == |e| + |EncodeTuple(vs[1..], ts[1..])|
  {
    EncodeFits(vs[0], ts[0]);
    LiesSplit(Encode(vs[0], ts[0]), EncodeTuple(vs[1..], ts[1..]), src, at);
  }

  /** Reads one value off a slice, refusing a slice that could be the red zone. */
  function PeekFromSlice(src: seq<Byte>, t: Ty): (r: Result<(Val, seq<Byte>)>) {
    if !(MaxSize(t) < |src|) then UnexpectedEnd else
      match Peek(t, src, 0)
      case Ok((v, len)) => if len <= |src| then Ok((v, src[len..])) else MaxSizeWrong
      case _ => Unreachable
  }

  datatype Item = Item(ty: Ty, val: Val)

  function Zeros(n: nat): seq<Byte> {
    seq(n, _ => 0)
  }

  /** The bytes of a stream of items. */
  function EncodeStream(items: seq<Item>): seq<Byte>
    requires forall x :: x in items ==> HasType(x.val, x.ty)
  {
    if items == [] then [] else Encode(items[0].val, items[0].ty) + EncodeStream(items[1..])
  }

  /** Reads values of the given types in order; what is left comes with them. */
  function PeekStream(ts: seq<Ty>, src: seq<Byte>): Result<(seq<Val>, seq<Byte>)> {
    if ts == [] then Ok(([], src)) else
      match PeekFromSlice(src, ts[0])
      case Ok((v, rest)) =>
        (match PeekStream(ts[1..], rest)
         case Ok((vs, left)) => Ok(([v] + vs, left))
         case UnexpectedEnd => UnexpectedEnd
         case MaxSizeWrong => MaxSizeWrong
         case Unreachable => Unreachable)
      case UnexpectedEnd => UnexpectedEnd
      case MaxSizeWrong => MaxSizeWrong
      case Unreachable => Unreachable
  }

  function Types(items: seq<Item>): seq<Ty> {
    seq(|items|, i requires 0 <= i < |items| => items[i].ty)
  }

  function Vals(items: seq<Item>): seq<Val> {
    seq(|items|, i requires 0 <= i < |items| => items[i].val)
  }

  lemma {:induction false} FirstItem(items: seq<Item>)
    requires items != []
    ensures Types(items) == [items[0].ty] + Types(items[1..])
    ensures Vals(items) == [items[0].val] + Vals(items[1..])
  {
  }

  /** One read, when more than the type's maximum size is left. */
  lemma {:induction false} PeekOne(v: Val, t: Ty, tail: seq<Byte>)
    requires HasType(v, t) && MaxSize(t) < |Encode(v, t)| + |tail|
    ensures PeekFromSlice(Encode(v, t) + tail, t) == Ok((v, tail))
  {
    var e := Encode(v, t);
    EncodeFits(v, t);
    assert Lies(e, e + tail, 0);
    PeekEncode(v, t, e + tail, 0);
    assert (e + tail)[|e|..] == tail;
  }

  /** Before every read, more than the read type's maximum size is left. */
  ghost predicate Roomy(items: seq<Item>, tail: nat)
    requires forall x :: x in items ==> HasType(x.val, x.ty)
  {
    items == [] || (MaxSize(items[0].ty) < |EncodeStream(items)| + tail && Roomy(items[1..], tail))
  }

  /** Exactly when a stream in front of any bytes is read back and leaves them. */
  lemma {:induction false} StreamReadsIff(items: seq<Item>, tail: seq<Byte>)
    requires forall x :: x in items ==> HasType(x.val, x.ty)
    ensures PeekStream(Types(items), EncodeStream(items) + tail) == Ok((Vals(items), tail)) <==> Roomy(items, |tail|)
    ensures !Roomy(items, |tail|) ==> PeekStream(Types(items), EncodeStream(items) + tail) == UnexpectedEnd
  {
    if items == [] {
      assert [] + tail == tail && Types(items) == [] && Vals(items) == [];
    } else {
      var x, rest := items[0], EncodeStream(items[1..]) + tail;
      assert EncodeStream(items) + tail == Encode(x.val, x.ty) + rest;
      FirstItem(items);
      assert Types(items)[0] == x.ty && Types(items)[1..] == Types(items[1..]);
      StreamReadsIff(items[1..], tail);
      if MaxSize(x.ty) < |EncodeStream(items)| + |tail| {
        PeekOne(x.val, x.ty, rest);
        assert Vals(items)[1..] == Vals(items[1..]);
      }
    }
  }

  /** Values of any types that the red zone covers come back in order, no assertion fails, and exactly
      the red zone is left, as soon as there is a red zone or nothing to read: a stream of zero-sized
      values alone is refused. A further read of the red zone's type is always refused. */
  lemma {:induction false} StreamRoundTripIff(items: seq<Item>, red: Ty)
    requires forall x :: x in items ==> HasType(x.val, x.ty) && MaxSize(x.ty) <= MaxSize(red)
    ensures PeekStream(Types(items), EncodeStream(items) + Zeros(MaxSize(red)))
              == Ok((Vals(items), Zeros(MaxSize(red))))
            <==> items == [] || 0 < MaxSize(red)
    ensures PeekFromSlice(Zeros(MaxSize(red)), red) == UnexpectedEnd
  {
    StreamReadsIff(items, Zeros(MaxSize(red)));
    CoveredIsRoomy(items, MaxSize(red));
  }

  /** So for a stream of one type with that type's red zone it works exactly if the type is not
      zero-sized, or there is nothing to read. */
  lemma {:induction false} OneTypeRoundTripIff(t: Ty, items: seq<Item>)
    requires forall x :: x in items ==> x.ty == t && HasType(x.val, t)
    ensures PeekStream(Types(items), EncodeStream(items) + Zeros(MaxSize(t))) == Ok((Vals(items), Zeros(MaxSize(t))))
            <==> items == [] || MaxSize(t) > 0
  {
    StreamRoundTripIff(items, t);
  }

  lemma {:induction false} CoveredIsRoomy(items: seq<Item>, red: nat)
    requires forall x :: x in items ==> HasType(x.val, x.ty) && MaxSize(x.ty) <= red
    ensures Roomy(items, red) <==> items == [] || 0 < red
  {
    if items != [] {
      var x := items[0];
      assert x in items;
      EncodeFits(x.val, x.ty);
      CoveredIsRoomy(items[1..], red);
      if red == 0 {
        ZeroSizedStream(items);
      }
    }
  }

  lemma {:induction false} ZeroSizedStream(items: seq<Item>)
    requires forall x :: x in items ==> HasType(x.val, x.ty) && MaxSize(x.ty) == 0
    ensures EncodeStream(items) == []
  {
    if items != [] {
      assert items[0] in items;
      EncodeFits(items[0].val, items[0].ty);
      ZeroSizedStream(items[1..]);
    }
  }

  /** The memory after `bytes` is written at `at`. */
  ghost predicate Wrote(m0: seq<Byte>, m1: seq<Byte>, at: nat, bytes: seq<Byte>) {
    && |m1| == |m0| && at + |bytes| <= |m0|
    && m1 == m0[..at] + bytes + m0[at + |bytes|..]
  }

  lemma {:induction false} WroteThen(m0: seq<Byte>, m1: seq<Byte>, m2: seq<Byte>, at: nat, a: seq<Byte>, b: seq<Byte>)
    requires Wrote(m0, m1, at, a) && Wrote(m1, m2, at + |a|, b)
    ensures Wrote(m0, m2, at, a + b)
  {
    assert m1[..at + |a|] == m0[..at] + a;
    assert m1[at + |a| + |b|..] == m0[at + |a| + |b|..];
    assert m0[..at] + a + b == m0[..at] + (a + b);
  }

  /** A growable byte vector: its storage beyond the length is reserved, uninitialised capacity. */
  class Vec {
    var mem: array<Byte>
    var len: nat

    constructor ()
      ensures Valid() && Contents() == [] && fresh(mem)
    {
      mem := new Byte[0];
      len := 0;
    }

    ghost predicate Valid()
      reads this
    {
      len <= mem.Length
    }

    ghost function Contents(): seq<Byte>
      requires Valid()
      reads this, mem
    {
      mem[..len]
    }

    /** Makes room for `additional` more bytes. */
    method Reserve(additional: nat)
      requires Valid()
      modifies this
      ensures Valid() && mem.Length >= len + additional && Contents() == old(Contents())
      ensures mem == old(mem) || fresh(mem)
      ensures len == old(len)
    {
      if mem.Length < len + additional {
        var bigger := new Byte[len + additional];
        for i := 0 to len
          modifies bigger
          invariant forall j :: 0 <= j < i ==> bigger[j] == mem[j]
        {
          bigger[i] := mem[i];
        }
        assert bigger[..len] == mem[..len];
        mem := bigger;
      }
    }

    /** `set_end_ptr`: the end stays within the capacity. */
    method SetEnd(end: nat)
      requires end <= mem.Length
      modifies `len
      ensures len == end
    {
      len := end;
    }
  }

  lemma {:induction false} NumBytesNext(written: seq<Byte>, n: nat, size: nat)
    requires size > 0
    ensures written + NumBytes(n, size) == written + [n % 256] + NumBytes(n / 256, size - 1)
  {
    assert written + [n % 256] + NumBytes(n / 256, size - 1) == written + ([n % 256] + NumBytes(n / 256, size - 1));
  }

  method WriteByte(mem: array<Byte>, at: nat, b: Byte)
    requires at < mem.Length
    modifies mem
    ensures Wrote(old(mem[..]), mem[..], at, [b])
  {
    mem[at] := b;
  }

  /** The next byte of a number. */
  method WriteNext(n: nat, size: nat, mem: array<Byte>, at: nat, k: nat, rest: nat, ghost written: seq<Byte>,
      ghost m0: seq<Byte>)
    returns (ghost written': seq<Byte>)
    requires at + size <= mem.Length && k < size && |written| == k
    requires NumBytes(n, size) == written + NumBytes(rest, size - k) && Wrote(m0, mem[..], at, written)
    modifies mem
    ensures |written'| == k + 1 && Wrote(m0, mem[..], at, written')
    ensures NumBytes(n, size) == written' + NumBytes(rest / 256, size - (k + 1))
  {
    ghost var m1, b: seq<Byte> := mem[..], [rest % 256];
    WriteByte(mem, at + k, rest % 256);
    WroteThen(m0, m1, mem[..], at, written, b);
    NumBytesNext(written, rest, size - k);
    written' := written + b;
  }

  /** A plain number, byte by byte. */
  method WriteVerbatim(n: nat, size: nat, mem: array<Byte>, at: nat) returns (end: nat)
    requires at + size <= mem.Length
    modifies mem
    ensures end == at + size && Wrote(old(mem[..]), mem[..], at, NumBytes(n, size))
  {
    var k, rest := 0, n;
    ghost var m0, written: seq<Byte> := mem[..], [];
    while k < size
      invariant 0 <= k <= size && |written| == k
      invariant NumBytes(n, size) == written + NumBytes(rest, size - k)
      invariant Wrote(m0, mem[..], at, written)
    {
      written := WriteNext(n, size, mem, at, k, rest, written, m0);
      k, rest := k + 1, rest / 256;
    }
    end := at + size;
  }

  /** Writes a value through an advancing pointer. The space of the type's maximum size is enough,
      and nothing else changes. */
  method PokeInto(v: Val, t: Ty, mem: array<Byte>, at: nat) returns (end: nat)
    requires HasType(v, t) && at + MaxSize(t) <= mem.Length
    modifies mem
    ensures end == at + |Encode(v, t)| <= at + MaxSize(t)
    ensures Wrote(old(mem[..]), mem[..], at, Encode(v, t))
    decreases v, 1
  {
    EncodeFits(v, t);
    match t
    case Primitive(size) => end := WriteVerbatim(v.n, size, mem, at);
    case Bool =>
      WriteByte(mem, at, if v.b then 1 else 0);
      end := at + 1;
    case Opt(inner) =>
      ghost var m0 := mem[..];
      WriteByte(mem, at, if v.Nothing? then 0 else 1);
      end := at + 1;
      if v.Just? {
        ghost var m1 := mem[..];
        end := PokeInto(v.v, inner, mem, at + 1);
        WroteThen(m0, m1, mem[..], at, [1], Encode(v.v, inner));
      }
    case Tuple(parts) => end := PokeTuple(v.vs, parts, mem, at);
  }

  method PokeTuple(vs: seq<Val>, ts: seq<Ty>, mem: array<Byte>, at: nat) returns (end: nat)
    requires HaveTypes(vs, ts) && at + MaxSizes(ts) <= mem.Length
    modifies mem
    ensures end == at + |EncodeTuple(vs, ts)| && Wrote(old(mem[..]), mem[..], at, EncodeTuple(vs, ts))
    decreases vs, 0
  {
    end := at;
    if vs != [] {
      ghost var m0 := mem[..];
      end := PokeInto(vs[0], ts[0], mem, at);
      ghost var m1 := mem[..];
      end := PokeTuple(vs[1..], ts[1..], mem, end);
      WroteThen(m0, m1, mem[..], at, Encode(vs[0], ts[0]), EncodeTuple(vs[1..], ts[1..]));
    }
  }

  method PokeIntoVec(v: Val, t: Ty, dst: Vec)
    requires HasType(v, t) && dst.Valid()
    modifies dst, dst.mem
    ensures dst.Valid() && dst.Contents() == old(dst.Contents()) + Encode(v, t)
    ensures dst.mem == old(dst.mem) || fresh(dst.mem)
  {
    dst.Reserve(MaxSize(t));
    ghost var before := dst.mem[..];
    var end := PokeInto(v, t, dst.mem, dst.len);
    assert dst.mem[..end] == before[..dst.len] + Encode(v, t);
    dst.SetEnd(end);
  }

  /** Appends several values of one type after a single reservation: the bytes of an array. */
  method PokeExtendVec(vs: seq<Val>, t: Ty, dst: Vec) returns (n: nat)
    requires HaveTypes(vs, ArrayOf(|vs|, t).parts) && dst.Valid()
    modifies dst, dst.mem
    ensures n == |vs| && dst.Valid()
    ensures dst.Contents() == old(dst.Contents()) + Encode(Items(vs), ArrayOf(|vs|, t))
    ensures dst.mem == old(dst.mem) || fresh(dst.mem)
  {
    n := |vs|;
    ArrayMaxSize(n, t);
    dst.Reserve(n * MaxSize(t));
    ghost var before := dst.mem[..];
    var end := PokeTuple(vs, ArrayOf(n, t).parts, dst.mem, dst.len);
    assert dst.mem[..end] == before[..dst.len] + EncodeTuple(vs, ArrayOf(n, t).parts);
    dst.SetEnd(end);
  }

  /** Appends the red zone. */
  method EnsureRedZone(t: Ty, bytes: Vec)
    requires bytes.Valid()
    modifies bytes, bytes.mem
    ensures bytes.Valid() && bytes.Contents() == old(bytes.Contents()) + Zeros(MaxSize(t))
    ensures bytes.mem == old(bytes.mem) || fresh(bytes.mem)
  {
    bytes.Reserve(MaxSize(t));
    ghost var before := bytes.mem[..bytes.len];
    for i := 0 to MaxSize(t)
      modifies bytes.mem
      invariant bytes.mem[..bytes.len] == before
      invariant forall j :: bytes.len <= j < bytes.len + i ==> bytes.mem[j] == 0
    {
      bytes.mem[bytes.len + i] := 0;
    }
    assert bytes.mem[..bytes.len + MaxSize(t)] == before + Zeros(MaxSize(t));
    bytes.SetEnd(bytes.len + MaxSize(t));
  }

  /** A whole session: poke the items, close with the red zone, read everything back. */
  method Session(items: seq<Item>, red: Ty) returns (read: Result<(seq<Val>, seq<Byte>)>)
    requires forall x :: x in items ==> HasType(x.val, x.ty)
    ensures read == Ok((Vals(items), Zeros(MaxSize(red)))) <==> Roomy(items, MaxSize(red))
    ensures 0 < MaxSize(red) && (forall x :: x in items ==> MaxSize(x.ty) <= MaxSize(red)) ==>
              read == Ok((Vals(items), Zeros(MaxSize(red))))
  {
    var bytes := new Vec();
    for i := 0 to |items|
      invariant bytes.Valid() && fresh(bytes) && fresh(bytes.mem)
      invariant bytes.Contents() == EncodeStream(items[..i])
    {
      PokeIntoVec(items[i].val, items[i].ty, bytes);
      EncodeStreamNext(items, i);
    }
    assert items[..|items|] == items;
    EnsureRedZone(red, bytes);
    StreamReadsIff(items, Zeros(MaxSize(red)));
    if forall x :: x in items ==> MaxSize(x.ty) <= MaxSize(red) {
      CoveredIsRoomy(items, MaxSize(red));
    }
    read := PeekStream(Types(items), bytes.mem[..bytes.len]);
  }

  lemma {:induction false} EncodeStreamNext(items: seq<Item>, i: nat)
    requires i < |items| && forall x :: x in items ==> HasType(x.val, x.ty)
    ensures EncodeStream(items[..i + 1]) == EncodeStream(items[..i]) + Encode(items[i].val, items[i].ty)
  {
    if i == 0 {
      assert items[..1][1..] == [];
    } else {
      EncodeStreamNext(items[1..], i - 1);
      assert items[..i + 1][1..] == items[1..][..i] && items[..i][1..] == items[1..][..i - 1];
    }
  }
}
