/**
 The Render compositing operators over real-valued channels, and what they compute.

 The reference is geometric.  Source and destination cover parts of a pixel; a family says
 how much the two parts overlap (independently, as little as possible, as much as
 possible), and an operator says who shows in the source-only part, in the
 destination-only part and in the overlap.
 */
module RenderOps {

  datatype Family = Plain | Disjoint | Conjoint
  datatype Kind = Clear | Src | Dst | Over | OverReverse | In | InReverse | Out | OutReverse
                | Atop | AtopReverse | Xor
  datatype Op = Op(family: Family, kind: Kind) | Add | Saturate

  function Min(x: real, y: real): real { if x < y then x else y }
  function Max(x: real, y: real): real { if x > y then x else y }

  /** Multiplication under a name, so that proofs can treat products as atoms. */
  function Times(x: real, y: real): real { x * y }

  predicate Unit(x: real) { 0.0 <= x <= 1.0 }

  function MultChan(src: real, dst: real, fa: real, fb: real): real {
    Min(Times(src, fa) + Times(dst, fb), 1.0)
  }

  // ---------- the operators as the code computes them ----------

  /** The guarded factors of the Disjoint and Conjoint families, for one side's alpha `x` and the other's `y`. */
  function DisjointOut(x: real, y: real): real { if x == 0.0 then 1.0 else Min(1.0, (1.0 - y) / x) }
  function DisjointIn(x: real, y: real): real { if x == 0.0 then 0.0 else Max(0.0, 1.0 - (1.0 - y) / x) }
  function ConjointOut(x: real, y: real): real { if x == 0.0 then 0.0 else Max(0.0, 1.0 - y / x) }
  function ConjointIn(x: real, y: real): real { if x == 0.0 then 1.0 else Min(1.0, y / x) }

  /** The pair (Fa, Fb) each case of `calc_op` passes to `mult_chan`. */
  function Factors(op: Op, sa: real, da: real): (real, real) {
    match op
    case Op(_, Clear) => (0.0, 0.0)
    case Op(_, Src) => (1.0, 0.0)
    case Op(_, Dst) => (0.0, 1.0)
    case Op(Plain, Over) => (1.0, 1.0 - sa)
    case Op(Plain, OverReverse) => (1.0 - da, 1.0)
    case Op(Plain, In) => (da, 0.0)
    case Op(Plain, InReverse) => (0.0, sa)
    case Op(Plain, Out) => (1.0 - da, 0.0)
    case Op(Plain, OutReverse) => (0.0, 1.0 - sa)
    case Op(Plain, Atop) => (da, 1.0 - sa)
    case Op(Plain, AtopReverse) => (1.0 - da, sa)
    case Op(Plain, Xor) => (1.0 - da, 1.0 - sa)
    case Add => (1.0, 1.0)
    case Saturate => (DisjointOut(sa, da), 1.0)
    case Op(Disjoint, OverReverse) => (DisjointOut(sa, da), 1.0)
    case Op(Disjoint, Over) => (1.0, DisjointOut(da, sa))
    case Op(Disjoint, In) => (DisjointIn(sa, da), 0.0)
    case Op(Disjoint, InReverse) => (0.0, DisjointIn(da, sa))
    case Op(Disjoint, Out) => (DisjointOut(sa, da), 0.0)
    case Op(Disjoint, OutReverse) => (0.0, DisjointOut(da, sa))
    case Op(Disjoint, Atop) => (DisjointIn(sa, da), DisjointOut(da, sa))
    case Op(Disjoint, AtopReverse) => (DisjointOut(sa, da), DisjointIn(da, sa))
    case Op(Disjoint, Xor) => (DisjointOut(sa, da), DisjointOut(da, sa))
    case Op(Conjoint, Over) => (1.0, ConjointOut(da, sa))
    case Op(Conjoint, OverReverse) => (ConjointOut(sa, da), 1.0)
    case Op(Conjoint, In) => (ConjointIn(sa, da), 0.0)
    case Op(Conjoint, InReverse) => (0.0, ConjointIn(da, sa))
    case Op(Conjoint, Out) => (ConjointOut(sa, da), 0.0)
    case Op(Conjoint, OutReverse) => (0.0, ConjointOut(da, sa))
    case Op(Conjoint, Atop) => (ConjointIn(sa, da), ConjointOut(da, sa))
    case Op(Conjoint, AtopReverse) => (ConjointOut(sa, da), ConjointIn(da, sa))
    case Op(Conjoint, Xor) => (ConjointOut(sa, da), ConjointOut(da, sa))
  }

  function CalcOp(op: Op, src: real, dst: real, sa: real, da: real): real {
    MultChan(src, dst, Factors(op, sa, da).0, Factors(op, sa, da).1)
  }

  // ---------- the reference: who covers what ----------

  datatype Shows = Source | Destination | Nobody

  /** How much of the pixel both pictures cover. */
  function Overlap(f: Family, sa: real, da: real): real {
    match f
    case Plain => Times(sa, da)
    case Disjoint => Max(0.0, sa + da - 1.0)
    case Conjoint => Min(sa, da)
  }

  predicate ShowsSourceAlone(k: Kind) {
    k == Src || k == Over || k == OverReverse || k == Out || k == AtopReverse || k == Xor
  }

  predicate ShowsDestinationAlone(k: Kind) {
    k == Dst || k == Over || k == OverReverse || k == OutReverse || k == Atop || k == Xor
  }

  function ShowsInOverlap(k: Kind): Shows {
    if k == Src || k == Over || k == In || k == Atop then Source
    else if k == Dst || k == OverReverse || k == InReverse || k == AtopReverse then Destination
    else Nobody
  }

  function SourceArea(f: Family, k: Kind, sa: real, da: real): real {
    (if ShowsSourceAlone(k) then sa - Overlap(f, sa, da) else 0.0)
    + (if ShowsInOverlap(k) == Source then Overlap(f, sa, da) else 0.0)
  }

  function DestinationArea(f: Family, k: Kind, sa: real, da: real): real {
    (if ShowsDestinationAlone(k) then da - Overlap(f, sa, da) else 0.0)
    + (if ShowsInOverlap(k) == Destination then Overlap(f, sa, da) else 0.0)
  }

  // ---------- arithmetic of products ----------

  lemma TimesFacts(x: real, y: real)
    ensures Times(x, y) == Times(y, x) && Times(1.0 - x, y) == y - Times(x, y)
    ensures Times(0.0, x) == 0.0 && Times(1.0, x) == x && Times(x, 1.0) == x && Times(x, 0.0) == 0.0
  {
  }

  lemma TimesOrder(x: real, y: real, f: real)
    requires x <= y && 0.0 <= f
    ensures Times(x, f) <= Times(y, f)
  {
  }

  lemma TimesMoves(a: real, c: real, f: real)
    ensures Times(Times(a, c), f) == Times(c, Times(f, a))
  {
  }

  lemma TimesAdds(x: real, i: real, o: real)
    ensures Times(x, i) + Times(x, o) == Times(x, i + o)
  {
  }

  lemma TimesInUnit(x: real, y: real)
    requires Unit(x) && Unit(y)
    ensures 0.0 <= Times(x, y) <= x && Times(x, y) <= y && x + y - Times(x, y) <= 1.0
  {
    hide Times;
    TimesFacts(x, y);
    TimesFacts(y, x);
    TimesOrder(0.0, x, y);
    TimesOrder(x, 1.0, y);
    TimesOrder(y, 1.0, x);
    TimesOrder(y, 1.0, 1.0 - x);
    TimesFacts(y, 1.0 - x);
    TimesFacts(1.0 - x, y);
  }

  lemma TimesQuotient(x: real, y: real)
    requires 0.0 < x
    ensures Times(y / x, x) == y
  {
  }

  lemma TimesMin(a: real, b: real, x: real)
    requires 0.0 <= x
    ensures Times(Min(a, b), x) == Min(Times(a, x), Times(b, x))
    ensures Times(Max(a, b), x) == Max(Times(a, x), Times(b, x))
  {
    hide Times;
    if a <= b { TimesOrder(a, b, x); } else { TimesOrder(b, a, x); }
  }

  // ---------- the guarded factors are shares of the covered area ----------

  /** `Min(1, q)` and `Max(0, 1 - q)` split `x` at `y`, when `q` is `y / x`. */
  lemma Split(x: real, y: real)
    requires 0.0 < x && 0.0 <= y
    ensures var q := y / x;
      && Times(Min(1.0, q), x) == Min(x, y)
      && Times(Max(0.0, 1.0 - q), x) == x - Min(x, y)
      && 0.0 <= q && Min(1.0, q) + Max(0.0, 1.0 - q) == 1.0
  {
    hide Times;
    var q := y / x;
    TimesQuotient(x, y);
    TimesMin(1.0, q, x);
    TimesMin(0.0, 1.0 - q, x);
    TimesFacts(q, x);
    TimesFacts(x, q);
    QuotientSign(x, y);
  }

  lemma QuotientSign(x: real, y: real)
    requires 0.0 < x && 0.0 <= y
    ensures 0.0 <= y / x
  {
  }

  lemma DisjointShares(x: real, y: real)
    requires Unit(x) && Unit(y)
    ensures Times(DisjointOut(x, y), x) == x - Overlap(Disjoint, x, y)
    ensures Times(DisjointIn(x, y), x) == Overlap(Disjoint, x, y)
    ensures DisjointIn(x, y) + DisjointOut(x, y) == 1.0
    ensures Unit(DisjointIn(x, y)) && Unit(DisjointOut(x, y))
  {
    hide Times;
    TimesFacts(0.0, x);
    TimesFacts(x, 0.0);
    if x != 0.0 { Split(x, 1.0 - y); }
  }

  lemma ConjointShares(x: real, y: real)
    requires Unit(x) && Unit(y)
    ensures Times(ConjointOut(x, y), x) == x - Overlap(Conjoint, x, y)
    ensures Times(ConjointIn(x, y), x) == Overlap(Conjoint, x, y)
    ensures ConjointIn(x, y) + ConjointOut(x, y) == 1.0
    ensures Unit(ConjointIn(x, y)) && Unit(ConjointOut(x, y))
  {
    hide Times;
    TimesFacts(0.0, x);
    TimesFacts(x, 0.0);
    if x != 0.0 { Split(x, y); }
  }

  lemma OverlapBounds(f: Family, sa: real, da: real)
    requires Unit(sa) && Unit(da)
    ensures 0.0 <= Overlap(f, sa, da) <= Min(sa, da) && sa + da - Overlap(f, sa, da) <= 1.0
    ensures Overlap(f, sa, da) == Overlap(f, da, sa)
  {
    hide Times;
    TimesInUnit(sa, da);
    TimesFacts(sa, da);
  }

  lemma PlainShares(k: Kind, sa: real, da: real)
    requires Unit(sa) && Unit(da)
    ensures var (fa, fb) := Factors(Op(Plain, k), sa, da);
            && Times(fa, sa) == SourceArea(Plain, k, sa, da) && Times(fb, da) == DestinationArea(Plain, k, sa, da)
            && Unit(fa) && Unit(fb)
  {
    hide Times, DisjointOut, DisjointIn, ConjointOut, ConjointIn;
    TimesFacts(sa, da);
    TimesFacts(da, sa);
    OverlapBounds(Plain, sa, da);
  }

  lemma DisjointFactors(k: Kind, sa: real, da: real)
    requires Unit(sa) && Unit(da)
    ensures var (fa, fb) := Factors(Op(Disjoint, k), sa, da);
            && Times(fa, sa) == SourceArea(Disjoint, k, sa, da) && Times(fb, da) == DestinationArea(Disjoint, k, sa, da)
            && Unit(fa) && Unit(fb)
  {
    hide Times, DisjointOut, DisjointIn, ConjointOut, ConjointIn;
    TimesFacts(sa, da);
    TimesFacts(da, sa);
    OverlapBounds(Disjoint, sa, da);
    DisjointShares(sa, da);
    DisjointShares(da, sa);
  }

  lemma ConjointFactors(k: Kind, sa: real, da: real)
    requires Unit(sa) && Unit(da)
    ensures var (fa, fb) := Factors(Op(Conjoint, k), sa, da);
            && Times(fa, sa) == SourceArea(Conjoint, k, sa, da) && Times(fb, da) == DestinationArea(Conjoint, k, sa, da)
            && Unit(fa) && Unit(fb)
  {
    hide Times, DisjointOut, DisjointIn, ConjointOut, ConjointIn;
    TimesFacts(sa, da);
    TimesFacts(da, sa);
    OverlapBounds(Conjoint, sa, da);
    ConjointShares(sa, da);
    ConjointShares(da, sa);
  }

  /** The factors of every operator are the shares of source and destination that show. */
  lemma FactorsAreShares(f: Family, k: Kind, sa: real, da: real)
    requires Unit(sa) && Unit(da)
    ensures var (fa, fb) := Factors(Op(f, k), sa, da);
            && Times(fa, sa) == SourceArea(f, k, sa, da) && Times(fb, da) == DestinationArea(f, k, sa, da)
            && Unit(fa) && Unit(fb)
  {
    hide Times, Factors, SourceArea, DestinationArea;
    match f
    case Plain => PlainShares(k, sa, da);
    case Disjoint => DisjointFactors(k, sa, da);
    case Conjoint => ConjointFactors(k, sa, da);
  }

  lemma AreasFit(f: Family, k: Kind, sa: real, da: real)
    requires Unit(sa) && Unit(da)
    ensures 0.0 <= SourceArea(f, k, sa, da) && 0.0 <= DestinationArea(f, k, sa, da)
    ensures SourceArea(f, k, sa, da) + DestinationArea(f, k, sa, da) <= 1.0
  {
    hide Overlap;
    OverlapBounds(f, sa, da);
  }

  /**
   All 36 family operators: compositing colours `c` and `d` of coverages `sa` and `da`
   gives each colour weighted by the area in which it shows, with no clamping.
   */
  lemma CompositeIsAreaMix(f: Family, k: Kind, c: real, d: real, sa: real, da: real)
    requires Unit(c) && Unit(d) && Unit(sa) && Unit(da)
    ensures CalcOp(Op(f, k), Times(sa, c), Times(da, d), sa, da)
            == Times(c, SourceArea(f, k, sa, da)) + Times(d, DestinationArea(f, k, sa, da))
  {
    hide Times, Factors, SourceArea, DestinationArea;
    var s, t := SourceArea(f, k, sa, da), DestinationArea(f, k, sa, da);
    FactorsAreShares(f, k, sa, da);
    AreasFit(f, k, sa, da);
    TimesMoves(sa, c, Factors(Op(f, k), sa, da).0);
    TimesMoves(da, d, Factors(Op(f, k), sa, da).1);
    TimesInUnit(c, s);
    TimesInUnit(d, t);
  }

  /** The alpha channel of the result is the whole area that shows. */
  lemma AlphaIsArea(f: Family, k: Kind, sa: real, da: real)
    requires Unit(sa) && Unit(da)
    ensures CalcOp(Op(f, k), sa, da, sa, da) == SourceArea(f, k, sa, da) + DestinationArea(f, k, sa, da)
  {
    hide Times, CalcOp, SourceArea, DestinationArea;
    CompositeIsAreaMix(f, k, 1.0, 1.0, sa, da);
    TimesFacts(sa, da);
    TimesFacts(da, sa);
    TimesFacts(SourceArea(f, k, sa, da), DestinationArea(f, k, sa, da));
    TimesFacts(DestinationArea(f, k, sa, da), SourceArea(f, k, sa, da));
  }

  lemma SaturateAlpha(sa: real, da: real)
    requires Unit(sa) && Unit(da)
    ensures CalcOp(Saturate, sa, da, sa, da) == CalcOp(Add, sa, da, sa, da) == Min(1.0, sa + da)
  {
    hide Times, DisjointOut;
    AlphaIsArea(Disjoint, OverReverse, sa, da);
    TimesFacts(sa, da);
    TimesFacts(da, sa);
  }

  lemma AlphaClosedForms(sa: real, da: real)
    requires Unit(sa) && Unit(da)
    ensures CalcOp(Op(Disjoint, Over), sa, da, sa, da) == Min(1.0, sa + da)
    ensures CalcOp(Op(Disjoint, In), sa, da, sa, da) == Max(0.0, sa + da - 1.0)
    ensures CalcOp(Op(Conjoint, Over), sa, da, sa, da) == Max(sa, da)
    ensures CalcOp(Op(Conjoint, In), sa, da, sa, da) == Min(sa, da)
    ensures CalcOp(Op(Conjoint, Xor), sa, da, sa, da) == if sa < da then da - sa else sa - da
    ensures forall f: Family :: CalcOp(Op(f, Atop), sa, da, sa, da) == da
    ensures CalcOp(Saturate, sa, da, sa, da) == CalcOp(Add, sa, da, sa, da) == Min(1.0, sa + da)
  {
    hide Times, CalcOp;
    forall f: Family, k: Kind
      ensures CalcOp(Op(f, k), sa, da, sa, da) == SourceArea(f, k, sa, da) + DestinationArea(f, k, sa, da)
    {
      AlphaIsArea(f, k, sa, da);
    }
    SaturateAlpha(sa, da);
  }

  // ---------- range, premultiplication, symmetry ----------

  lemma FactorsInUnit(op: Op, sa: real, da: real)
    requires Unit(sa) && Unit(da)
    ensures Unit(Factors(op, sa, da).0) && Unit(Factors(op, sa, da).1)
  {
    hide Times, DisjointOut;
    match op
    case Op(f, k) => FactorsAreShares(f, k, sa, da);
    case Add =>
    case Saturate => DisjointShares(sa, da);
  }

  /** Every operator maps the unit range into itself. */
  lemma ResultInUnit(op: Op, src: real, dst: real, sa: real, da: real)
    requires Unit(src) && Unit(dst) && Unit(sa) && Unit(da)
    ensures Unit(CalcOp(op, src, dst, sa, da))
  {
    hide Times, Factors;
    FactorsInUnit(op, sa, da);
    TimesInUnit(src, Factors(op, sa, da).0);
    TimesInUnit(dst, Factors(op, sa, da).1);
  }

  /** A channel that does not exceed its alpha still does not afterwards. */
  lemma ChannelStaysBelowAlpha(op: Op, src: real, dst: real, sa: real, da: real)
    requires 0.0 <= src <= sa <= 1.0 && 0.0 <= dst <= da <= 1.0
    ensures CalcOp(op, src, dst, sa, da) <= CalcOp(op, sa, da, sa, da)
  {
    hide Times, Factors;
    FactorsInUnit(op, sa, da);
    TimesOrder(src, sa, Factors(op, sa, da).0);
    TimesOrder(dst, da, Factors(op, sa, da).1);
  }

  function Reverse(k: Kind): Kind {
    match k
    case Clear => Clear
    case Src => Dst
    case Dst => Src
    case Over => OverReverse
    case OverReverse => Over
    case In => InReverse
    case InReverse => In
    case Out => OutReverse
    case OutReverse => Out
    case Atop => AtopReverse
    case AtopReverse => Atop
    case Xor => Xor
  }

  /** In each family the reverse operator is the plain one with the pictures exchanged; Xor is symmetric. */
  lemma ReverseSwaps(f: Family, k: Kind, src: real, dst: real, sa: real, da: real)
    ensures CalcOp(Op(f, Reverse(k)), src, dst, sa, da) == CalcOp(Op(f, k), dst, src, da, sa)
  {
    hide Times, DisjointOut, DisjointIn, ConjointOut, ConjointIn;
    var (fa, fb) := Factors(Op(f, k), da, sa);
    assert Factors(Op(f, Reverse(k)), sa, da) == (fb, fa);
  }

  /** What In keeps of the source and what Out keeps of it make up the source. */
  lemma InAndOutSplitSource(f: Family, src: real, dst: real, sa: real, da: real)
    requires Unit(src) && Unit(sa) && Unit(da)
    ensures CalcOp(Op(f, In), src, dst, sa, da) + CalcOp(Op(f, Out), src, dst, sa, da) == src
  {
    hide Times, DisjointOut, DisjointIn, ConjointOut, ConjointIn;
    var i, o := Factors(Op(f, In), sa, da).0, Factors(Op(f, Out), sa, da).0;
    DisjointShares(sa, da);
    ConjointShares(sa, da);
    TimesAdds(src, i, o);
    TimesInUnit(src, i);
    TimesInUnit(src, o);
    TimesFacts(src, dst);
    TimesFacts(dst, src);
  }

  /** In every family, and for all alphas, the other operators take their factors from In and Out. */
  lemma FactorsCompose(f: Family, sa: real, da: real)
    ensures Factors(Op(f, Over), sa, da) == (1.0, Factors(Op(f, OutReverse), sa, da).1)
    ensures Factors(Op(f, Atop), sa, da) == (Factors(Op(f, In), sa, da).0, Factors(Op(f, OutReverse), sa, da).1)
    ensures Factors(Op(f, Xor), sa, da) == (Factors(Op(f, Out), sa, da).0, Factors(Op(f, OutReverse), sa, da).1)
    ensures Factors(Op(f, In), sa, da).0 + Factors(Op(f, Out), sa, da).0 == 1.0 || !Unit(sa) || !Unit(da)
    ensures Factors(Op(Disjoint, Out), 0.0, da).0 == 1.0 && Factors(Op(Conjoint, Out), 0.0, da).0 == 0.0
  {
    if Unit(sa) && Unit(da) {
      hide Times;
      DisjointShares(sa, da);
      ConjointShares(sa, da);
    }
  }

  // ---------- whole pixels ----------

  datatype Pixel = Pixel(r: real, g: real, b: real, a: real)

  predicate InUnit(p: Pixel) { Unit(p.r) && Unit(p.g) && Unit(p.b) && Unit(p.a) }

  predicate Premultiplied(p: Pixel) { InUnit(p) && p.r <= p.a && p.g <= p.a && p.b <= p.a }

  function Scale(p: Pixel, m: Pixel): Pixel {
    Pixel(Times(p.r, m.r), Times(p.g, m.g), Times(p.b, m.b), Times(p.a, m.a))
  }

  function Grey(a: real): Pixel { Pixel(a, a, a, a) }

  datatype Mask = NoMask | Mask(p: Pixel)

  function MaskedSource(src: Pixel, mask: Mask, componentAlpha: bool): Pixel {
    if mask.NoMask? then src else Scale(src, if componentAlpha then mask.p else Grey(mask.p.a))
  }

  function MaskedAlpha(src: Pixel, mask: Mask, componentAlpha: bool): Pixel {
    MaskedSource(Grey(src.a), mask, componentAlpha)
  }

  function Composite(op: Op, src: Pixel, mask: Mask, dst: Pixel, componentAlpha: bool): Pixel {
    var v, al := MaskedSource(src, mask, componentAlpha), MaskedAlpha(src, mask, componentAlpha);
    Pixel(CalcOp(op, v.r, dst.r, al.r, dst.a), CalcOp(op, v.g, dst.g, al.g, dst.a),
          CalcOp(op, v.b, dst.b, al.b, dst.a), CalcOp(op, v.a, dst.a, al.a, dst.a))
  }

  class Color4d {
    var r: real
    var g: real
    var b: real
    var a: real

    constructor (p: Pixel)
      ensures Value() == p
    {
      r, g, b, a := p.r, p.g, p.b, p.a;
    }

    function Value(): Pixel
      reads this
    {
      Pixel(r, g, b, a)
    }
  }

  function MaskValue(mask: Color4d?): Mask
    reads mask
  {
    if mask == null then NoMask else Mask(mask.Value())
  }

  /** `result` may be any of the operands: every channel is read before it is overwritten. */
  method DoComposite(op: Op, src: Color4d, mask: Color4d?, dst: Color4d, result: Color4d, componentAlpha: bool)
    modifies result
    ensures result.Value() == Composite(op, old(src.Value()), old(MaskValue(mask)), old(dst.Value()), componentAlpha)
  {
    hide Times, CalcOp;
    var v, al: Pixel;
    if mask != null && componentAlpha {
      v := Pixel(Times(src.r, mask.r), Times(src.g, mask.g), Times(src.b, mask.b), Times(src.a, mask.a));
      al := Pixel(Times(src.a, mask.r), Times(src.a, mask.g), Times(src.a, mask.b), Times(src.a, mask.a));
    } else if mask != null {
      v := Pixel(Times(src.r, mask.a), Times(src.g, mask.a), Times(src.b, mask.a), Times(src.a, mask.a));
      al := Pixel(Times(src.a, mask.a), Times(src.a, mask.a), Times(src.a, mask.a), Times(src.a, mask.a));
    } else {
      v := src.Value();
      al := Pixel(src.a, src.a, src.a, src.a);
    }
    result.r := CalcOp(op, v.r, dst.r, al.r, dst.a);
    result.g := CalcOp(op, v.g, dst.g, al.g, dst.a);
    result.b := CalcOp(op, v.b, dst.b, al.b, dst.a);
    result.a := CalcOp(op, v.a, dst.a, al.a, dst.a);
  }

  lemma ScaledInUnit(p: Pixel, m: Pixel)
    requires InUnit(p) && InUnit(m)
    ensures InUnit(Scale(p, m))
  {
    hide Times;
    TimesInUnit(p.r, m.r);
    TimesInUnit(p.g, m.g);
    TimesInUnit(p.b, m.b);
    TimesInUnit(p.a, m.a);
  }

  lemma MaskedInUnit(src: Pixel, mask: Mask, componentAlpha: bool)
    requires InUnit(src) && (mask.Mask? ==> InUnit(mask.p))
    ensures InUnit(MaskedSource(src, mask, componentAlpha)) && InUnit(MaskedAlpha(src, mask, componentAlpha))
  {
    hide Scale;
    if mask.Mask? {
      ScaledInUnit(src, if componentAlpha then mask.p else Grey(mask.p.a));
      ScaledInUnit(Grey(src.a), if componentAlpha then mask.p else Grey(mask.p.a));
    }
  }

  /** For every operator and either kind of mask, unit-range pixels give a unit-range pixel. */
  lemma CompositeInUnit(op: Op, src: Pixel, mask: Mask, dst: Pixel, componentAlpha: bool)
    requires InUnit(src) && InUnit(dst) && (mask.Mask? ==> InUnit(mask.p))
    ensures InUnit(Composite(op, src, mask, dst, componentAlpha))
  {
    hide CalcOp, MaskedSource, MaskedAlpha;
    var v, al := MaskedSource(src, mask, componentAlpha), MaskedAlpha(src, mask, componentAlpha);
    MaskedInUnit(src, mask, componentAlpha);
    ResultInUnit(op, v.r, dst.r, al.r, dst.a);
    ResultInUnit(op, v.g, dst.g, al.g, dst.a);
    ResultInUnit(op, v.b, dst.b, al.b, dst.a);
    ResultInUnit(op, v.a, dst.a, al.a, dst.a);
  }

  lemma MaskedPremultiplied(src: Pixel, mask: Mask)
    requires Premultiplied(src) && (mask.Mask? ==> InUnit(mask.p))
    ensures var v := MaskedSource(src, mask, false); Premultiplied(v) && MaskedAlpha(src, mask, false) == Grey(v.a)
  {
    hide Times;
    MaskedInUnit(src, mask, false);
    if mask.Mask? {
      TimesOrder(src.r, src.a, mask.p.a);
      TimesOrder(src.g, src.a, mask.p.a);
      TimesOrder(src.b, src.a, mask.p.a);
    }
  }

  /** Without component alpha, premultiplied operands give a premultiplied result. */
  lemma CompositePremultiplied(op: Op, src: Pixel, mask: Mask, dst: Pixel)
    requires Premultiplied(src) && Premultiplied(dst) && (mask.Mask? ==> InUnit(mask.p))
    ensures Premultiplied(Composite(op, src, mask, dst, false))
  {
    hide CalcOp, MaskedSource, MaskedAlpha;
    var v := MaskedSource(src, mask, false);
    CompositeInUnit(op, src, mask, dst, false);
    MaskedPremultiplied(src, mask);
    ChannelStaysBelowAlpha(op, v.r, dst.r, v.a, dst.a);
    ChannelStaysBelowAlpha(op, v.g, dst.g, v.a, dst.a);
    ChannelStaysBelowAlpha(op, v.b, dst.b, v.a, dst.a);
  }

  /** With component alpha it need not: a mask that passes red and stops alpha keeps red alone. */
  lemma ComponentAlphaMayExceed()
    ensures !Premultiplied(Composite(Op(Plain, InReverse), Grey(1.0), Mask(Pixel(1.0, 0.0, 0.0, 0.0)), Grey(1.0), true))
  {
  }

  // ---------- the two operators outside the families, and what a mask does ----------

  /** Add adds, up to full, whatever the alphas. */
  lemma AddAdds(src: real, dst: real, sa: real, da: real)
    ensures CalcOp(Add, src, dst, sa, da) == Min(1.0, src + dst)
  {
  }

  /** Saturate lets the source fill what the destination leaves free. */
  lemma SaturateFills(c: real, d: real, sa: real, da: real)
    requires Unit(c) && Unit(d) && Unit(sa) && Unit(da)
    ensures CalcOp(Saturate, Times(sa, c), Times(da, d), sa, da) == Times(c, Min(sa, 1.0 - da)) + Times(d, da)
    ensures forall src, dst :: CalcOp(Saturate, src, dst, sa, da) == CalcOp(Op(Disjoint, OverReverse), src, dst, sa, da)
  {
    hide Times, DisjointOut;
    CompositeIsAreaMix(Disjoint, OverReverse, c, d, sa, da);
  }

  /** A mask without component alpha takes the source In the mask. */
  lemma MaskIsIn(op: Op, src: Pixel, m: Pixel, dst: Pixel)
    requires InUnit(src) && InUnit(m)
    ensures Composite(op, src, Mask(m), dst, false)
            == Composite(op, Composite(Op(Plain, In), src, NoMask, m, false), NoMask, dst, false)
  {
    hide Times;
    InIsProduct(src.r, m.r, src.a, m.a);
    InIsProduct(src.g, m.g, src.a, m.a);
    InIsProduct(src.b, m.b, src.a, m.a);
    InIsProduct(src.a, m.a, src.a, m.a);
  }

  lemma InIsProduct(c: real, d: real, sa: real, ma: real)
    requires Unit(c) && Unit(ma)
    ensures CalcOp(Op(Plain, In), c, d, sa, ma) == Times(c, ma)
  {
    hide Times;
    TimesFacts(d, 0.0);
    TimesInUnit(c, ma);
  }

  /** Component alpha gives every channel its own mask: the mask's channel, used as plain alpha. */
  lemma ComponentIsOwnMask(op: Op, src: Pixel, m: Pixel, dst: Pixel)
    ensures var p := Composite(op, src, Mask(m), dst, true);
      && p.r == Composite(op, src, Mask(Grey(m.r)), dst, false).r
      && p.g == Composite(op, src, Mask(Grey(m.g)), dst, false).g
      && p.b == Composite(op, src, Mask(Grey(m.b)), dst, false).b
      && p.a == Composite(op, src, Mask(Grey(m.a)), dst, false).a
  {
    hide CalcOp, Times;
  }

  /** A full mask is no mask, with component alpha or without. */
  lemma FullMaskIsNone(op: Op, src: Pixel, dst: Pixel, componentAlpha: bool)
    ensures Composite(op, src, Mask(Grey(1.0)), dst, componentAlpha) == Composite(op, src, NoMask, dst, componentAlpha)
  {
    hide CalcOp;
  }

  /** Src gives the source and Dst the destination, channel by channel. */
  lemma SrcAndDst(f: Family, src: Pixel, dst: Pixel)
    requires InUnit(src) && InUnit(dst)
    ensures Composite(Op(f, Src), src, NoMask, dst, false) == src
    ensures Composite(Op(f, Dst), src, NoMask, dst, false) == dst
  {
  }

  // ---------- component alpha: which masks keep pixels premultiplied ----------

  function Alpha(op: Op, sa: real, da: real): real { CalcOp(op, sa, da, sa, da) }

  /** How an operator's result alpha moves with the source's. */
  datatype Trend = Constant | Rising | Falling | Mixed

  function TrendOf(op: Op): Trend {
    match op
    case Op(_, Clear) => Constant
    case Op(_, Dst) => Constant
    case Op(_, Atop) => Constant
    case Op(_, OutReverse) => Falling
    case Op(_, Xor) => Mixed
    case _ => Rising
  }

  predicate Suits(t: Trend, m: Pixel) {
    match t
    case Constant => true
    case Rising => m.r <= m.a && m.g <= m.a && m.b <= m.a
    case Falling => m.a <= m.r && m.a <= m.g && m.a <= m.b
    case Mixed => m == Grey(m.a)
  }

  lemma OverlapMoves(f: Family, x: real, y: real, d: real)
    requires Unit(x) && Unit(y) && Unit(d) && x <= y
    ensures 0.0 <= Overlap(f, y, d) - Overlap(f, x, d) <= y - x
  {
    hide Times;
    TimesAdds(d, x, y - x);
    TimesFacts(d, x);
    TimesFacts(d, y);
    TimesInUnit(d, y - x);
  }

  lemma AlphaMoves(op: Op, x: real, y: real, d: real)
    requires Unit(x) && Unit(y) && Unit(d) && x <= y
    ensures TrendOf(op) == Constant ==> Alpha(op, x, d) == Alpha(op, y, d)
    ensures TrendOf(op) == Rising ==> Alpha(op, x, d) <= Alpha(op, y, d)
    ensures TrendOf(op) == Falling ==> Alpha(op, y, d) <= Alpha(op, x, d)
  {
    hide CalcOp, Overlap;
    match op
    case Op(f, k) =>
      AlphaIsArea(f, k, x, d);
      AlphaIsArea(f, k, y, d);
      OverlapMoves(f, x, y, d);
    case Add =>
      SaturateAlpha(x, d);
      SaturateAlpha(y, d);
    case Saturate =>
      SaturateAlpha(x, d);
      SaturateAlpha(y, d);
  }

  lemma OverlapAtEnds(f: Family, x: real)
    requires Unit(x)
    ensures Overlap(f, x, 0.0) == 0.0 && Overlap(f, x, 1.0) == x
  {
    hide Times;
    TimesFacts(x, x);
  }

  /** Over nothing or over everything the result's alpha is the source's, or what it leaves. */
  lemma AlphaTells(op: Op, x: real)
    requires Unit(x)
    ensures TrendOf(op) == Rising && (op.Op? ==> op.kind != In && op.kind != InReverse) ==> Alpha(op, x, 0.0) == x
    ensures op.Op? && (op.kind == In || op.kind == InReverse) ==> Alpha(op, x, 1.0) == x
    ensures TrendOf(op) == Falling ==> Alpha(op, x, 1.0) == 1.0 - x
    ensures TrendOf(op) == Mixed ==> Alpha(op, x, 0.0) == x && Alpha(op, x, 1.0) == 1.0 - x
  {
    hide CalcOp, Overlap;
    match op
    case Op(f, k) =>
      AlphaIsArea(f, k, x, 0.0);
      AlphaIsArea(f, k, x, 1.0);
      OverlapAtEnds(f, x);
    case Add =>
      SaturateAlpha(x, 0.0);
    case Saturate =>
      SaturateAlpha(x, 0.0);
  }

  /** One channel under a mask that suits the operator stays below the result's alpha. */
  lemma ChannelFits(op: Op, s: real, sa: real, d: real, da: real, m: real, ma: real)
    requires 0.0 <= s <= sa <= 1.0 && 0.0 <= d <= da <= 1.0 && Unit(m) && Unit(ma)
    requires match TrendOf(op)
      case Constant => true
      case Rising => m <= ma
      case Falling => ma <= m
      case Mixed => m == ma
    ensures CalcOp(op, Times(s, m), d, Times(sa, m), da) <= Alpha(op, Times(sa, ma), da)
  {
    hide Times, CalcOp, TrendOf;
    TimesInUnit(s, m);
    TimesInUnit(sa, m);
    TimesInUnit(sa, ma);
    TimesOrder(s, sa, m);
    ChannelStaysBelowAlpha(op, Times(s, m), d, Times(sa, m), da);
    TimesFacts(sa, m);
    TimesFacts(sa, ma);
    if m <= ma { TimesOrder(m, ma, sa); AlphaMoves(op, Times(sa, m), Times(sa, ma), da); }
    if ma <= m { TimesOrder(ma, m, sa); AlphaMoves(op, Times(sa, ma), Times(sa, m), da); }
  }

  /** Under the component-alpha mask `m`, the operator takes premultiplied pixels to premultiplied pixels. */
  ghost predicate Preserves(op: Op, m: Pixel) {
    forall src, dst ::
      Premultiplied(src) && Premultiplied(dst) ==> Premultiplied(Composite(op, src, Mask(m), dst, true))
  }

  lemma SuitingMaskPreserves(op: Op, m: Pixel, src: Pixel, dst: Pixel)
    requires InUnit(m) && Suits(TrendOf(op), m) && Premultiplied(src) && Premultiplied(dst)
    ensures Premultiplied(Composite(op, src, Mask(m), dst, true))
  {
    hide Times, CalcOp, TrendOf;
    CompositeInUnit(op, src, Mask(m), dst, true);
    ChannelFits(op, src.r, src.a, dst.r, dst.a, m.r, m.a);
    ChannelFits(op, src.g, src.a, dst.g, dst.a, m.g, m.a);
    ChannelFits(op, src.b, src.a, dst.b, dst.a, m.b, m.a);
  }

  /** A full source shows the mask itself, operated with the destination. */
  lemma FullSource(op: Op, m: Pixel, d: real)
    requires Preserves(op, m) && Unit(d)
    ensures Alpha(op, m.r, d) <= Alpha(op, m.a, d)
    ensures Alpha(op, m.g, d) <= Alpha(op, m.a, d)
    ensures Alpha(op, m.b, d) <= Alpha(op, m.a, d)
  {
    hide Times, CalcOp;
    TimesFacts(m.r, 1.0);
    TimesFacts(m.g, 1.0);
    TimesFacts(m.b, 1.0);
    TimesFacts(m.a, 1.0);
    assert Premultiplied(Composite(op, Grey(1.0), Mask(m), Grey(d), true));
  }

  /** Over nothing and over everything the trend shows which of two alphas is larger. */
  lemma AlphaOrders(op: Op, x: real, y: real)
    requires Unit(x) && Unit(y)
    requires Alpha(op, x, 0.0) <= Alpha(op, y, 0.0) && Alpha(op, x, 1.0) <= Alpha(op, y, 1.0)
    ensures match TrendOf(op)
      case Constant => true
      case Rising => x <= y
      case Falling => y <= x
      case Mixed => x == y
  {
    hide Alpha;
    AlphaTells(op, x);
    AlphaTells(op, y);
  }

  lemma PreservingMaskSuits(op: Op, m: Pixel)
    requires InUnit(m) && Preserves(op, m)
    ensures Suits(TrendOf(op), m)
  {
    hide Preserves, Alpha, TrendOf;
    FullSource(op, m, 0.0);
    FullSource(op, m, 1.0);
    AlphaOrders(op, m.r, m.a);
    AlphaOrders(op, m.g, m.a);
    AlphaOrders(op, m.b, m.a);
  }

  /** With component alpha, exactly the masks that suit an operator's trend keep pixels premultiplied under it. */
  lemma PreservesIff(op: Op, m: Pixel)
    requires InUnit(m)
    ensures Preserves(op, m) <==> Suits(TrendOf(op), m)
  {
    hide Suits, TrendOf, Premultiplied, Composite, InUnit;
    if Suits(TrendOf(op), m) {
      forall src, dst | Premultiplied(src) && Premultiplied(dst)
        ensures Premultiplied(Composite(op, src, Mask(m), dst, true))
      {
        SuitingMaskPreserves(op, m, src, dst);
      }
    }
    if Preserves(op, m) { PreservingMaskSuits(op, m); }
  }

  /** Under every operator, only a mask with all channels equal does. */
  lemma AllPreserveIffGrey(m: Pixel)
    requires InUnit(m)
    ensures (forall op: Op :: Preserves(op, m)) <==> m == Grey(m.a)
  {
    hide Preserves;
    forall op: Op ensures Preserves(op, m) <==> Suits(TrendOf(op), m) { PreservesIff(op, m); }
    assert Preserves(Op(Plain, Xor), m) <==> m == Grey(m.a);
  }
}
