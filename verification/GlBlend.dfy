/** The premultiplied source-over blend of swgl/src/gl.cc, on pixels of four 8-bit channels, alpha
    highest. Arithmetic is that of 16-bit lanes. */
module GlBlend {

  /** How 16-bit lanes go back to 8 bits: the two vector units saturate (one reads lanes as signed),
      plain conversion truncates. */
  datatype PackKind = SaturateSigned | SaturateUnsigned | Truncate

  function Pack(v: nat, kind: PackKind): (r: nat)
    requires v < 0x1_0000
    ensures r < 256
  {
    match kind
    case SaturateSigned => if v >= 0x8000 then 0 else if v > 255 then 255 else v
    case SaturateUnsigned => if v > 255 then 255 else v
    case Truncate => v % 256
  }

  function Wrap16(v: int): (r: nat)
    ensures r < 0x1_0000
  {
    v % 0x1_0000
  }

  function MulDiv255(x: nat, y: nat): nat {
    Wrap16(x * y + x) / 256
  }

  function BlendLane(s: nat, d: nat, alpha: nat): (r: nat)
    ensures r < 0x1_0000
  {
    Wrap16(s + d - MulDiv255(d, alpha))
  }

  /** No 16-bit lane overflows. */
  lemma {:induction false} NoOverflow(s: nat, d: nat, alpha: nat)
    requires s < 256 && d < 256 && alpha < 256
    ensures d * alpha + d < 0x1_0000
    ensures MulDiv255(d, alpha) == (d * alpha + d) / 256 <= d
    ensures BlendLane(s, d, alpha) == s + d - (d * alpha + d) / 256 <= 510
  {
    ByteProduct(d, alpha);
    var m := d * alpha;
    assert 0 <= m + d <= 256 * d;
  }

  lemma {:induction false} ByteProduct(d: nat, alpha: nat)
    requires alpha < 256
    ensures 0 <= d * alpha <= 255 * d
  {
    assert (255 - alpha) * d >= 0;
  }

  lemma {:induction false} QuotientGrowth(p: nat, q: nat, n: nat)
    requires p <= q <= p + 256 * n
    ensures q / 256 - p / 256 <= n
  {
  }

  /** What is left of the destination never decreases with the destination. */
  lemma {:induction false} RestMonotone(d: nat, d': nat, alpha: nat)
    requires d <= d' < 256 && alpha < 256
    ensures d - (d * alpha + d) / 256 <= d' - (d' * alpha + d') / 256
  {
    ByteProduct(d' - d, alpha);
    var n, p, q := d' - d, d * alpha, d' * alpha;
    assert q == p + n * alpha;
    QuotientGrowth(p + d, q + d', n);
  }

  /** For a premultiplied source and destination each colour lane stays at or below the alpha lane,
      and the alpha lane fits in eight bits. */
  lemma {:induction false} BlendOrder(s: nat, d: nat, sa: nat, da: nat)
    requires s <= sa < 256 && d <= da < 256
    ensures BlendLane(s, d, sa) <= BlendLane(sa, da, sa) <= 255
  {
    NoOverflow(s, d, sa);
    NoOverflow(sa, da, sa);
    RestMonotone(d, da, sa);
    RestMonotone(da, 255, sa);
    assert 255 * sa + 255 == 256 * sa + (255 - sa);
  }

  function Channel(c: nat, k: nat): (r: nat)
    requires k < 4
    ensures r < 256
  {
    if k == 0 then c % 256
    else if k == 1 then c / 0x100 % 256
    else if k == 2 then c / 0x1_0000 % 256
    else c / 0x100_0000 % 256
  }

  function Join(c0: nat, c1: nat, c2: nat, c3: nat): nat {
    c0 + 0x100 * c1 + 0x1_0000 * c2 + 0x100_0000 * c3
  }

  lemma {:induction false} ChannelJoin(c0: nat, c1: nat, c2: nat, c3: nat)
    requires c0 < 256 && c1 < 256 && c2 < 256 && c3 < 256
    ensures var c := Join(c0, c1, c2, c3);
            Channel(c, 0) == c0 && Channel(c, 1) == c1 && Channel(c, 2) == c2 && Channel(c, 3) == c3
  {
    var c := Join(c0, c1, c2, c3);
    assert c == 0x100 * (c1 + 0x100 * c2 + 0x1_0000 * c3) + c0;
    assert c / 0x100 == c1 + 0x100 * c2 + 0x1_0000 * c3;
    assert c / 0x1_0000 == c2 + 0x100 * c3;
    assert c / 0x100_0000 == c3;
  }

  lemma {:induction false} JoinChannels(c: nat)
    requires c < 0x1_0000_0000
    ensures Join(Channel(c, 0), Channel(c, 1), Channel(c, 2), Channel(c, 3)) == c
  {
    var q1, q2, q3 := c / 0x100, c / 0x1_0000, c / 0x100_0000;
    assert c == 0x100 * q1 + c % 0x100;
    assert q2 == q1 / 0x100 && q1 == 0x100 * q2 + q1 % 0x100;
    assert q3 == q2 / 0x100 && q2 == 0x100 * q3 + q2 % 0x100;
    assert q3 < 0x100 && q3 % 0x100 == q3;
    assert c == c % 0x100 + 0x100 * (q1 % 0x100) + 0x1_0000 * (q2 % 0x100) + 0x100_0000 * q3;
  }

  function BlendChannel(s: nat, d: nat, k: nat, kind: PackKind): (r: nat)
    requires k < 4
    ensures r < 256
  {
    Pack(BlendLane(Channel(s, k), Channel(d, k), Channel(s, 3)), kind)
  }

  /** The pixel that a blend of `s` over `d` leaves. */
  function BlendCell(s: nat, d: nat, kind: PackKind): nat {
    Join(BlendChannel(s, d, 0, kind), BlendChannel(s, d, 1, kind), BlendChannel(s, d, 2, kind),
        BlendChannel(s, d, 3, kind))
  }

  lemma {:induction false} BlendedChannel(s: nat, d: nat, kind: PackKind, k: nat)
    requires k < 4
    ensures Channel(BlendCell(s, d, kind), k) == BlendChannel(s, d, k, kind)
  {
    ChannelJoin(BlendChannel(s, d, 0, kind), BlendChannel(s, d, 1, kind), BlendChannel(s, d, 2, kind),
        BlendChannel(s, d, 3, kind));
  }

  /** Premultiplied source-over, channel by channel: nothing is cut off by packing. */
  lemma {:induction false} BlendIsSourceOver(s: nat, d: nat, kind: PackKind, k: nat)
    requires Premultiplied(s) && Premultiplied(d) && k < 4
    ensures Channel(BlendCell(s, d, kind), k)
         == Channel(s, k) + Channel(d, k) - (Channel(d, k) * Channel(s, 3) + Channel(d, k)) / 256
  {
    BlendedChannel(s, d, kind, k);
    NoOverflow(Channel(s, k), Channel(d, k), Channel(s, 3));
    BlendOrder(Channel(s, k), Channel(d, k), Channel(s, 3), Channel(d, 3));
    PackSmall(BlendLane(Channel(s, k), Channel(d, k), Channel(s, 3)), kind);
  }

  /** An opaque source pixel replaces what is there, whatever it is. */
  lemma {:induction false} OpaqueReplaces(s: nat, d: nat, kind: PackKind)
    requires 0xFF00_0000 <= s < 0x1_0000_0000
    ensures BlendCell(s, d, kind) == s
  {
    OpaqueLane(Channel(s, 0), Channel(d, 0), kind);
    OpaqueLane(Channel(s, 1), Channel(d, 1), kind);
    OpaqueLane(Channel(s, 2), Channel(d, 2), kind);
    OpaqueLane(255, Channel(d, 3), kind);
    JoinChannels(s);
  }

  lemma {:induction false} OpaqueLane(s: nat, d: nat, kind: PackKind)
    requires s < 256 && d < 256
    ensures Pack(BlendLane(s, d, 255), kind) == s
  {
    NoOverflow(s, d, 255);
    assert (d * 255 + d) / 256 == d;
    PackSmall(s, kind);
  }

  /** A transparent one leaves it alone. */
  lemma {:induction false} TransparentKeeps(d: nat, kind: PackKind)
    requires d < 0x1_0000_0000
    ensures BlendCell(0, d, kind) == d
  {
    ClearLane(Channel(d, 0), kind);
    ClearLane(Channel(d, 1), kind);
    ClearLane(Channel(d, 2), kind);
    ClearLane(Channel(d, 3), kind);
    JoinChannels(d);
  }

  lemma {:induction false} ClearLane(d: nat, kind: PackKind)
    requires d < 256
    ensures Pack(BlendLane(0, d, 0), kind) == d
  {
    assert d * 0 == 0;
    NoOverflow(0, d, 0);
    PackSmall(d, kind);
  }

  predicate Premultiplied(c: nat) {
    Channel(c, 0) <= Channel(c, 3) && Channel(c, 1) <= Channel(c, 3) && Channel(c, 2) <= Channel(c, 3)
  }

  lemma {:induction false} LaneFits(s: nat, d: nat, sa: nat, da: nat, kind: PackKind)
    requires s <= sa < 256 && d <= da < 256
    ensures Pack(BlendLane(s, d, sa), kind) <= Pack(BlendLane(sa, da, sa), kind)
    ensures Pack(BlendLane(s, d, sa), kind) == Pack(BlendLane(s, d, sa), Truncate)
  {
    BlendOrder(s, d, sa, da);
    PackSmall(BlendLane(s, d, sa), kind);
    PackSmall(BlendLane(sa, da, sa), kind);
    PackSmall(BlendLane(s, d, sa), Truncate);
  }

  /** A premultiplied source over a premultiplied destination is premultiplied, and the platforms'
      ways to pack agree. */
  lemma {:induction false} BlendPremultiplied(s: nat, d: nat, kind: PackKind)
    requires Premultiplied(s) && Premultiplied(d)
    ensures Premultiplied(BlendCell(s, d, kind))
    ensures BlendCell(s, d, kind) == BlendCell(s, d, Truncate)
  {
    var sa, da := Channel(s, 3), Channel(d, 3);
    LaneFits(Channel(s, 0), Channel(d, 0), sa, da, kind);
    LaneFits(Channel(s, 1), Channel(d, 1), sa, da, kind);
    LaneFits(Channel(s, 2), Channel(d, 2), sa, da, kind);
    LaneFits(sa, da, sa, da, kind);
    ChannelJoin(BlendChannel(s, d, 0, kind), BlendChannel(s, d, 1, kind), BlendChannel(s, d, 2, kind),
        BlendChannel(s, d, 3, kind));
  }

  lemma {:induction false} PackSmall(v: nat, kind: PackKind)
    requires v <= 255
    ensures Pack(v, kind) == v
  {
  }

  /** Exactly when the platforms' ways to pack a blended lane agree. */
  lemma {:induction false} PacksAgreeIff(s: nat, d: nat, alpha: nat)
    requires s < 256 && d < 256 && alpha < 256
    ensures Pack(BlendLane(s, d, alpha), SaturateSigned) == Pack(BlendLane(s, d, alpha), SaturateUnsigned)
    ensures (Pack(BlendLane(s, d, alpha), SaturateUnsigned) == Pack(BlendLane(s, d, alpha), Truncate))
        <==> s + d - (d * alpha + d) / 256 <= 255
  {
    NoOverflow(s, d, alpha);
    var v := BlendLane(s, d, alpha);
    assert v <= 510;
  }
}
