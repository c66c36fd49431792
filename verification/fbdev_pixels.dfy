/**
 The loops that touch the frame buffer: building the test table, writing and inverting
 every pixel through it, and copying whole frames in and out.
 */
module FbdevPixels {
  import opened Fbdev
  import opened Products

  // ---------- the shuffled table ----------

  predicate Apart(p: nat, q: nat, w: nat) { p + w <= q || q + w <= p }

  ghost predicate AllApart(lut: seq<nat>, w: nat) {
    forall i, j :: 0 <= i < j < |lut| ==> Apart(lut[i], lut[j], w)
  }

  ghost predicate IsPixel(g: Geometry, p: nat) {
    exists x, y :: 0 <= x < g.xres && 0 <= y < g.yres && p == PixelOffset(g, x, y)
  }

  /** Every visible pixel is in the table, nothing else is, and no two entries overlap. */
  ghost predicate Table(g: Geometry, lut: seq<nat>) {
    |lut| == Count(g) && AllApart(lut, g.bytes) && forall p :: p in lut <==> IsPixel(g, p)
  }

  lemma InOrderIsTable(g: Geometry, lut: seq<nat>)
    requires InOrder(g, lut) && Times(g.xres, g.bytes) <= g.line && Addressable(g)
    ensures Table(g, lut)
  {
    hide Times, PixelOffset, Place;
    forall x, y | 0 <= x < g.xres && 0 <= y < g.yres
      ensures Place(g, x, y) < |lut| && lut[Place(g, x, y)] == PixelOffset(g, x, y)
    {
      assert PixelOffset(g, x, y) < U32;
    }
    forall i, j | 0 <= i < j < |lut| ensures Apart(lut[i], lut[j], g.bytes) {
      var x, y := PlaceOf(g, i, g.yres);
      var x', y' := PlaceOf(g, j, g.yres);
      PixelsApart(g, x, y, x', y');
    }
    forall p | p in lut ensures IsPixel(g, p) {
      var k :| 0 <= k < |lut| && lut[k] == p;
      var x, y := PlaceOf(g, k, g.yres);
    }
  }

  lemma {:induction false} ShuffledIsTable(g: Geometry, s: seq<nat>, n: nat, rand: seq<nat>)
    requires Table(g, s) && n <= |s| && n <= |rand|
    ensures Table(g, Shuffled(s, n, rand))
    decreases n
  {
    if n > 0 {
      var k := rand[0] % n;
      var u := Swap(s, n - 1, k);
      forall p ensures p in u <==> p in s {
        assert forall i :: 0 <= i < |s| && i != n - 1 && i != k ==> u[i] == s[i];
        assert u[n - 1] == s[k] && u[k] == s[n - 1];
      }
      ShuffledIsTable(g, u, n - 1, rand[1..]);
    }
  }

  lemma WrappedIsNoTable(g: Geometry, lut: seq<nat>)
    requires Table(g, lut) && forall k :: 0 <= k < |lut| ==> lut[k] < U32
    ensures Addressable(g)
  {
    forall x, y | 0 <= x < g.xres && 0 <= y < g.yres ensures PixelOffset(g, x, y) < U32 {
      assert IsPixel(g, PixelOffset(g, x, y));
      var k :| 0 <= k < |lut| && lut[k] == PixelOffset(g, x, y);
    }
  }

  lemma InOrderBelow(g: Geometry, lut: seq<nat>)
    requires InOrder(g, lut)
    ensures forall k :: 0 <= k < |lut| ==> lut[k] < U32
  {
    hide Times, PixelOffset, Place;
    forall k | 0 <= k < |lut| ensures lut[k] < U32 {
      var x, y := PlaceOf(g, k, g.yres);
    }
  }

  lemma {:induction false} ShuffledBelow(s: seq<nat>, n: nat, rand: seq<nat>)
    requires n <= |s| && n <= |rand| && forall k :: 0 <= k < |s| ==> s[k] < U32
    ensures forall k :: 0 <= k < |s| ==> Shuffled(s, n, rand)[k] < U32
    decreases n
  {
    if n > 0 { ShuffledBelow(Swap(s, n - 1, rand[0] % n), n - 1, rand[1..]); }
  }

  /** The shuffled table has every visible pixel once if and only if their offsets fit 32 bits. */
  method NewTestData(g: Geometry, rand: seq<nat>) returns (overrun: bool, lut: array<nat>)
    requires Times(g.xres, g.bytes) <= g.line && |rand| >= Count(g)
    ensures fresh(lut)
    ensures overrun <==> U32 <= Count(g)
    ensures !overrun ==> (Table(g, lut[..]) <==> Addressable(g))
  {
    hide InOrder, Table, Addressable, Shuffled;
    overrun, lut := FillTable(g);
    if overrun { return; }
    ghost var filled := lut[..];
    InOrderBelow(g, filled);
    assert |filled| == Count(g) by { InOrderLength(g, filled); }
    ShuffledBelow(filled, lut.Length, rand);
    if Addressable(g) {
      InOrderIsTable(g, filled);
      ShuffledIsTable(g, filled, lut.Length, rand);
    }
    Shuffle(lut, rand);
    if Table(g, lut[..]) { WrappedIsNoTable(g, lut[..]); }
  }

  lemma InOrderLength(g: Geometry, lut: seq<nat>)
    requires InOrder(g, lut)
    ensures |lut| == Count(g)
  {
  }

  // ---------- per-pixel loops ----------

  ghost predicate Covered(lut: seq<nat>, w: nat, b: nat) {
    exists k :: 0 <= k < |lut| && lut[k] <= b < lut[k] + w
  }

  /** Byte `b` belongs to a visible pixel. */
  ghost predicate Visible(g: Geometry, b: nat) {
    exists x, y :: 0 <= x < g.xres && 0 <= y < g.yres && PixelOffset(g, x, y) <= b < PixelOffset(g, x, y) + g.bytes
  }

  lemma CoveredIsVisible(g: Geometry, lut: seq<nat>, b: nat)
    requires Table(g, lut)
    ensures Covered(lut, g.bytes, b) <==> Visible(g, b)
  {
    if Covered(lut, g.bytes, b) {
      var k :| 0 <= k < |lut| && lut[k] <= b < lut[k] + g.bytes;
      assert lut[k] in lut;
    }
    if Visible(g, b) {
      var x, y :| 0 <= x < g.xres && 0 <= y < g.yres && PixelOffset(g, x, y) <= b < PixelOffset(g, x, y) + g.bytes;
      assert IsPixel(g, PixelOffset(g, x, y));
      var k :| 0 <= k < |lut| && lut[k] == PixelOffset(g, x, y);
    }
  }

  lemma CoveredStep(lut: seq<nat>, w: nat, i: nat, b: nat)
    requires i < |lut| && AllApart(lut, w)
    ensures Covered(lut[..i + 1], w, b) <==> Covered(lut[..i], w, b) || lut[i] <= b < lut[i] + w
    ensures !(Covered(lut[..i], w, b) && lut[i] <= b < lut[i] + w)
  {
    var s, t := lut[..i], lut[..i + 1];
    if k :| 0 <= k < |t| && t[k] <= b < t[k] + w {
      if k < i { assert s[k] <= b < s[k] + w; }
    }
    if k :| 0 <= k < |s| && s[k] <= b < s[k] + w {
      assert t[k] <= b < t[k] + w;
      assert Apart(lut[k], lut[i], w);
    }
    if lut[i] <= b < lut[i] + w { assert t[i] <= b < t[i] + w; }
  }

  ghost predicate TableFits(g: Geometry, lut: seq<nat>, size: nat) {
    Table(g, lut) && forall k :: 0 <= k < |lut| ==> lut[k] + g.bytes <= size
  }

  lemma FittingIsAddressable(g: Geometry, size: nat)
    requires Fits(g, size) && 0 < g.bytes
    ensures Addressable(g)
  {
  }

  lemma FittingTable(g: Geometry, lut: seq<nat>, size: nat)
    requires Fits(g, size) && Table(g, lut)
    ensures TableFits(g, lut, size)
    ensures forall k :: 0 <= k < |lut| && 0 < g.bytes ==> lut[k] < 0x1_0000_0000
  {
    forall k | 0 <= k < |lut| ensures lut[k] + g.bytes <= size {
      assert lut[k] in lut;
      assert IsPixel(g, lut[k]);
    }
  }

  function Invert(b: Byte): Byte { b ^ 0xff }

  /** Inverting a byte complements its value. */
  lemma InvertComplements(b: Byte)
    ensures Invert(b) as int == 255 - b as int
  {
    assert Invert(b) == 0xff - b;
  }

  lemma InvertTwice(b: Byte)
    ensures Invert(Invert(b)) == b
  {
  }

  /** The pixels of the first `i` table entries have been inverted, nothing else. */
  ghost predicate InvertedUpTo(was: seq<Byte>, now: seq<Byte>, lut: seq<nat>, w: nat, i: nat)
    requires i <= |lut|
  {
    |now| == |was| &&
    forall b :: 0 <= b < |was| ==> now[b] == if Covered(lut[..i], w, b) then Invert(was[b]) else was[b]
  }

  ghost predicate PixelInverted(was: seq<Byte>, now: seq<Byte>, p: nat, w: nat) {
    |now| == |was| && p + w <= |was| &&
    forall b :: 0 <= b < |was| ==> now[b] == if p <= b < p + w then Invert(was[b]) else was[b]
  }

  lemma InvertedStep(was: seq<Byte>, before: seq<Byte>, now: seq<Byte>, lut: seq<nat>, w: nat, i: nat)
    requires i < |lut| && AllApart(lut, w)
    requires InvertedUpTo(was, before, lut, w, i) && PixelInverted(before, now, lut[i], w)
    ensures InvertedUpTo(was, now, lut, w, i + 1)
  {
    hide Covered, Invert;
    forall b | 0 <= b < |was|
      ensures now[b] == if Covered(lut[..i + 1], w, b) then Invert(was[b]) else was[b]
    {
      CoveredStep(lut, w, i, b);
    }
  }

  method InvertPixel(fb: array<Byte>, p: nat, w: nat)
    requires p + w <= fb.Length
    modifies fb
    ensures PixelInverted(old(fb[..]), fb[..], p, w)
  {
    forall b | p <= b < p + w { fb[b] := Invert(fb[b]); }
  }

  /** Every visible byte inverted, every other byte untouched. */
  ghost predicate FrameInverted(g: Geometry, was: seq<Byte>, now: seq<Byte>) {
    |now| == |was| &&
    forall b :: 0 <= b < |was| ==> now[b] == if Visible(g, b) then Invert(was[b]) else was[b]
  }

  lemma WholeTableInverted(g: Geometry, was: seq<Byte>, now: seq<Byte>, lut: seq<nat>)
    requires Table(g, lut) && InvertedUpTo(was, now, lut, g.bytes, |lut|)
    ensures FrameInverted(g, was, now)
  {
    hide Covered, Invert, Visible, Table;
    assert lut[..|lut|] == lut;
    forall b | 0 <= b < |was| ensures now[b] == if Visible(g, b) then Invert(was[b]) else was[b] {
      CoveredIsVisible(g, lut, b);
    }
  }

  lemma InvertedTwice(g: Geometry, a: seq<Byte>, b: seq<Byte>, c: seq<Byte>)
    requires FrameInverted(g, a, b) && FrameInverted(g, b, c)
    ensures c == a
  {
    hide Visible, Invert;
    forall k | 0 <= k < |a| ensures c[k] == a[k] { InvertTwice(a[k]); }
  }

  /** One frame of read-invert-write. */
  method InvertFrame(g: Geometry, lut: array<nat>, fb: array<Byte>)
    requires TableFits(g, lut[..], fb.Length) && lut as object != fb as object
    modifies fb
    ensures FrameInverted(g, old(fb[..]), fb[..])
  {
    hide Times, Covered, InvertedUpTo, PixelInverted, FrameInverted;
    ghost var was, s := fb[..], lut[..];
    TimesStep(0, g.xres);
    NothingInverted(was, s, g.bytes);
    ghost var i := 0;
    for y := 0 to g.yres
      invariant i == Times(y, g.xres) && i <= |s| && lut[..] == s
      invariant InvertedUpTo(was, fb[..], s, g.bytes, i)
    {
      RowInTable(g, y);
      for x := 0 to g.xres
        invariant i == Times(y, g.xres) + x && i <= |s| && lut[..] == s
        invariant InvertedUpTo(was, fb[..], s, g.bytes, i)
      {
        PlacesDiffer(g, x, y, x, y);
        ghost var before := fb[..];
        assert lut[Place(g, x, y)] == s[i];
        InvertPixel(fb, lut[Place(g, x, y)], g.bytes);
        InvertedStep(was, before, fb[..], s, g.bytes, i);
        i := i + 1;
      }
      TimesStep(y, g.xres);
    }
    WholeTableInverted(g, was, fb[..], s);
  }

  lemma NothingInverted(was: seq<Byte>, lut: seq<nat>, w: nat)
    ensures InvertedUpTo(was, was, lut, w, 0)
  {
  }

  lemma RowInTable(g: Geometry, y: nat)
    requires y < g.yres
    ensures Times(y, g.xres) + g.xres <= Count(g)
  {
    TimesBelow(y, g.yres, g.xres);
  }

  /** The read/write benchmark: one hundred inverted frames leave the whole buffer as it was. */
  method OnePixelReadWrite(g: Geometry, bitsPerPixel: nat, lut: array<nat>, fb: array<Byte>) returns (ret: int)
    requires TableFits(g, lut[..], fb.Length) && g.bytes == bitsPerPixel / 8 && lut as object != fb as object
    modifies fb
    ensures fb[..] == old(fb[..])
    ensures ret == if bitsPerPixel == 32 || bitsPerPixel == 16 then 0 else -1
  {
    hide FrameInverted, TableFits;
    if bitsPerPixel != 32 && bitsPerPixel != 16 { return -1; }
    ghost var was, s := fb[..], lut[..];
    for frame := 0 to 100
      invariant lut[..] == s && fb.Length == |was|
      invariant if frame % 2 == 0 then fb[..] == was else FrameInverted(g, was, fb[..])
    {
      ghost var before := fb[..];
      InvertFrame(g, lut, fb);
      if frame % 2 == 1 { InvertedTwice(g, was, before, fb[..]); }
    }
    ret := 0;
  }

  /** Byte `c` of the little-endian pixel written in frame `frame`. */
  function Pattern(bitsPerPixel: nat, frame: nat, c: nat): Byte {
    if bitsPerPixel == 32 && c % 2 == 1 then 0 else (frame % 256) as Byte
  }

  function ByteValue(b: Byte): nat { b as nat }

  /** The little-endian number whose bytes are `s`. */
  function LittleEndian(s: seq<Byte>): nat { if s == [] then 0 else ByteValue(s[0]) + 256 * LittleEndian(s[1..]) }

  lemma ByteBack(n: nat)
    requires n < 256
    ensures ByteValue(n as Byte) == n
  {
  }

  lemma PatternBytes(frame: nat, c: nat)
    ensures ByteValue(Pattern(32, frame, c)) == if c % 2 == 1 then 0 else frame % 256
    ensures ByteValue(Pattern(16, frame, c)) == frame % 256
  {
    hide ByteValue;
    var f := frame % 256;
    ByteBack(f);
    ByteBack(0);
    assert 0 as Byte == 0;
  }

  lemma Prepended(b: Byte, s: seq<Byte>)
    ensures LittleEndian([b] + s) == ByteValue(b) + 256 * LittleEndian(s)
  {
    assert ([b] + s)[1..] == s;
  }

  lemma TwoBytes(s: seq<Byte>)
    requires |s| == 2
    ensures LittleEndian(s) == ByteValue(s[0]) + 0x100 * ByteValue(s[1])
  {
    hide ByteValue;
    Prepended(s[1], []);
    Prepended(s[0], [s[1]]);
    assert s == [s[0]] + [s[1]] && [s[1]] == [s[1]] + [];
  }

  lemma FourBytes(s: seq<Byte>)
    requires |s| == 4
    ensures LittleEndian(s)
            == ByteValue(s[0]) + 0x100 * ByteValue(s[1]) + 0x10000 * ByteValue(s[2]) + 0x100_0000 * ByteValue(s[3])
  {
    hide ByteValue, LittleEndian;
    TwoBytes(s[2..]);
    Prepended(s[1], s[2..]);
    Prepended(s[0], s[1..]);
    assert s == [s[0]] + s[1..] && s[1..] == [s[1]] + s[2..];
  }

  /** A pixel written holds the frame number in its lower and, shifted by 16 or 8 bits, its upper half. */
  lemma PatternValue(frame: nat, wide: seq<Byte>, narrow: seq<Byte>)
    requires |wide| == 4 && forall c :: 0 <= c < 4 ==> wide[c] == Pattern(32, frame, c)
    requires |narrow| == 2 && forall c :: 0 <= c < 2 ==> narrow[c] == Pattern(16, frame, c)
    ensures LittleEndian(wide) == frame % 256 * 0x10001 && LittleEndian(narrow) == frame % 256 * 0x101
  {
    hide Pattern, ByteValue, LittleEndian;
    FourBytes(wide);
    TwoBytes(narrow);
    PatternBytes(frame, 0);
    PatternBytes(frame, 1);
    PatternBytes(frame, 2);
    PatternBytes(frame, 3);
  }

  /** The pixel at offset `p` holds the value written in frame `frame`. */
  ghost predicate Holds(fb: seq<Byte>, p: nat, w: nat, bitsPerPixel: nat, frame: nat) {
    p + w <= |fb| && forall b :: p <= b < p + w ==> fb[b] == Pattern(bitsPerPixel, frame, b - p)
  }

  ghost predicate SameOutside(g: Geometry, was: seq<Byte>, now: seq<Byte>) {
    |now| == |was| && forall b :: 0 <= b < |was| && !Visible(g, b) ==> now[b] == was[b]
  }

  ghost predicate WrittenUpTo(now: seq<Byte>, lut: seq<nat>, w: nat, bitsPerPixel: nat, frame: nat, i: nat) {
    i <= |lut| && forall k :: 0 <= k < i ==> Holds(now, lut[k], w, bitsPerPixel, frame)
  }

  ghost predicate OnlyPixelChanged(was: seq<Byte>, now: seq<Byte>, p: nat, w: nat) {
    |now| == |was| && forall b :: 0 <= b < |was| && !(p <= b < p + w) ==> now[b] == was[b]
  }

  method WritePixel(fb: array<Byte>, p: nat, w: nat, bitsPerPixel: nat, frame: nat)
    requires p + w <= fb.Length
    modifies fb
    ensures Holds(fb[..], p, w, bitsPerPixel, frame)
    ensures OnlyPixelChanged(old(fb[..]), fb[..], p, w)
  {
    hide Pattern;
    forall b | p <= b < p + w { fb[b] := Pattern(bitsPerPixel, frame, b - p); }
  }

  lemma WrittenStep(g: Geometry, was: seq<Byte>, before: seq<Byte>, now: seq<Byte>, lut: seq<nat>,
                    bitsPerPixel: nat, frame: nat, i: nat)
    requires Table(g, lut) && i < |lut|
    requires WrittenUpTo(before, lut, g.bytes, bitsPerPixel, frame, i) && SameOutside(g, was, before)
    requires OnlyPixelChanged(before, now, lut[i], g.bytes) && Holds(now, lut[i], g.bytes, bitsPerPixel, frame)
    ensures WrittenUpTo(now, lut, g.bytes, bitsPerPixel, frame, i + 1) && SameOutside(g, was, now)
  {
    hide Pattern, PixelOffset;
    forall k | 0 <= k < i ensures Holds(now, lut[k], g.bytes, bitsPerPixel, frame) {
      assert Apart(lut[k], lut[i], g.bytes) && Holds(before, lut[k], g.bytes, bitsPerPixel, frame);
    }
    forall b | 0 <= b < |was| && !Visible(g, b) ensures now[b] == was[b] {
      assert lut[i] in lut;
    }
  }

  method WriteFrame(g: Geometry, bitsPerPixel: nat, frame: nat, lut: array<nat>, fb: array<Byte>)
    requires TableFits(g, lut[..], fb.Length) && lut as object != fb as object
    modifies fb
    ensures SameOutside(g, old(fb[..]), fb[..])
    ensures WrittenUpTo(fb[..], lut[..], g.bytes, bitsPerPixel, frame, lut.Length)
  {
    hide Times, Holds, Visible;
    ghost var was, s := fb[..], lut[..];
    TimesStep(0, g.xres);
    ghost var i := 0;
    for y := 0 to g.yres
      invariant i == Times(y, g.xres) && i <= |s| && lut[..] == s && fb.Length == |was|
      invariant SameOutside(g, was, fb[..]) && WrittenUpTo(fb[..], s, g.bytes, bitsPerPixel, frame, i)
    {
      RowInTable(g, y);
      for x := 0 to g.xres
        invariant i == Times(y, g.xres) + x && i <= |s| && lut[..] == s && fb.Length == |was|
        invariant SameOutside(g, was, fb[..]) && WrittenUpTo(fb[..], s, g.bytes, bitsPerPixel, frame, i)
      {
        PlacesDiffer(g, x, y, x, y);
        ghost var before := fb[..];
        assert lut[Place(g, x, y)] == s[i];
        WritePixel(fb, lut[Place(g, x, y)], g.bytes, bitsPerPixel, frame);
        WrittenStep(g, was, before, fb[..], s, bitsPerPixel, frame, i);
        i := i + 1;
      }
      TimesStep(y, g.xres);
    }
  }

  /** The write benchmark: every visible pixel ends with the last frame's value, nothing else changes. */
  method OnePixelWrite(g: Geometry, bitsPerPixel: nat, lut: array<nat>, fb: array<Byte>) returns (ret: int)
    requires TableFits(g, lut[..], fb.Length) && g.bytes == bitsPerPixel / 8 && lut as object != fb as object
    modifies fb
    ensures ret == if bitsPerPixel == 32 || bitsPerPixel == 16 then 0 else -1
    ensures ret == -1 ==> fb[..] == old(fb[..])
    ensures SameOutside(g, old(fb[..]), fb[..])
    ensures ret == 0 ==>
              forall x, y :: 0 <= x < g.xres && 0 <= y < g.yres ==>
                Holds(fb[..], PixelOffset(g, x, y), g.bytes, bitsPerPixel, 99)
  {
    hide Holds, Visible, PixelOffset;
    if bitsPerPixel != 32 && bitsPerPixel != 16 { return -1; }
    ghost var was, s := fb[..], lut[..];
    for frame := 0 to 100
      invariant lut[..] == s && fb.Length == |was|
      invariant SameOutside(g, was, fb[..])
      invariant frame > 0 ==> WrittenUpTo(fb[..], s, g.bytes, bitsPerPixel, frame - 1, |s|)
    {
      WriteFrame(g, bitsPerPixel, frame, lut, fb);
    }
    forall x, y | 0 <= x < g.xres && 0 <= y < g.yres
      ensures Holds(fb[..], PixelOffset(g, x, y), g.bytes, bitsPerPixel, 99)
    {
      assert IsPixel(g, PixelOffset(g, x, y));
      var k :| 0 <= k < |s| && s[k] == PixelOffset(g, x, y);
    }
    ret := 0;
  }

  // ---------- whole frames ----------

  function RowBytes(g: Geometry): nat { Times(g.xres, g.bytes) }

  /** Frame-buffer position of the first byte of visible row `y`. */
  function RowAt(g: Geometry, y: nat): nat { Start(g) + Times(y, g.line) }

  ghost predicate InRows(g: Geometry, b: nat) {
    exists y :: 0 <= y < g.yres && RowAt(g, y) <= b < RowAt(g, y) + RowBytes(g)
  }

  /** Pixel x of a visible row is x pixels behind the row's start, so the rows' bytes are the visible pixels'. */
  lemma RowsAreVisible(g: Geometry, b: nat)
    ensures InRows(g, b) <==> Visible(g, b)
  {
    hide Times, Start;
    if InRows(g, b) {
      var y :| 0 <= y < g.yres && RowAt(g, y) <= b < RowAt(g, y) + RowBytes(g);
      var x := PixelInRow(b - RowAt(g, y), g.xres, g.bytes);
      assert PixelOffset(g, x, y) == RowAt(g, y) + Times(x, g.bytes);
    }
    if Visible(g, b) {
      var x, y :| 0 <= x < g.xres && 0 <= y < g.yres && PixelOffset(g, x, y) <= b < PixelOffset(g, x, y) + g.bytes;
      TimesBelow(x, g.xres, g.bytes);
      assert RowAt(g, y) <= b < RowAt(g, y) + RowBytes(g);
    }
  }

  lemma {:induction false} PixelInRow(c: nat, n: nat, w: nat) returns (x: nat)
    requires c < Times(n, w)
    ensures x < n && Times(x, w) <= c < Times(x, w) + w
    decreases n
  {
    hide Times;
    TimesStep(0, w);
    if n > 0 {
      TimesStep(n - 1, w);
      if c < Times(n - 1, w) { x := PixelInRow(c, n - 1, w); } else { x := n - 1; }
    }
  }

  ghost predicate RowsFit(g: Geometry, size: nat) {
    RowBytes(g) <= g.line && forall y :: 0 <= y < g.yres ==> RowAt(g, y) + RowBytes(g) <= size
  }

  /** The visible rows of `fb` hold the frame packed in `packed`. */
  ghost predicate Shows(g: Geometry, fb: seq<Byte>, packed: seq<Byte>, rows: nat) {
    forall y :: 0 <= y < rows ==>
      RowAt(g, y) + RowBytes(g) <= |fb| && Times(y, RowBytes(g)) + RowBytes(g) <= |packed| &&
      fb[RowAt(g, y)..RowAt(g, y) + RowBytes(g)] == packed[Times(y, RowBytes(g))..Times(y, RowBytes(g)) + RowBytes(g)]
  }

  lemma RowsApart(g: Geometry, y: nat, y': nat)
    requires RowBytes(g) <= g.line && y < y'
    ensures RowAt(g, y) + RowBytes(g) <= RowAt(g, y')
    ensures Times(y, RowBytes(g)) + RowBytes(g) <= Times(y', RowBytes(g))
  {
    hide Times, RowBytes;
    TimesBelow(y, y', g.line);
    TimesBelow(y, y', RowBytes(g));
  }

  method CopyBytes(dst: array<Byte>, d: nat, src: array<Byte>, s: nat, n: nat)
    requires d + n <= dst.Length && s + n <= src.Length && dst != src
    modifies dst
    ensures dst[d..d + n] == src[s..s + n]
    ensures forall b :: 0 <= b < dst.Length && !(d <= b < d + n) ==> dst[b] == old(dst[b])
  {
    forall b | d <= b < d + n { dst[b] := src[s + (b - d)]; }
    assert forall b :: d <= b < d + n ==> dst[b] == src[s + (b - d)];
  }

  lemma ShowsNone(g: Geometry, fb: seq<Byte>, packed: seq<Byte>)
    ensures Shows(g, fb, packed, 0)
  {
  }

  method Blit(g: Geometry, fb: array<Byte>, buffer: array<Byte>)
    requires RowsFit(g, fb.Length) && Times(g.yres, RowBytes(g)) <= buffer.Length && fb != buffer
    modifies fb
    ensures Shows(g, fb[..], buffer[..], g.yres)
    ensures forall b :: 0 <= b < fb.Length && !InRows(g, b) ==> fb[b] == old(fb[b])
  {
    hide Times, RowBytes, Start, Shows;
    ShowsNone(g, fb[..], buffer[..]);
    var dest := Start(g);
    var from := 0;
    TimesStep(0, g.line);
    TimesStep(0, RowBytes(g));
    for i := 0 to g.yres
      invariant dest == RowAt(g, i) && from == Times(i, RowBytes(g))
      invariant Shows(g, fb[..], buffer[..], i)
      invariant forall b :: 0 <= b < fb.Length && !InRows(g, b) ==> fb[b] == old(fb[b])
    {
      ghost var before := fb[..];
      TimesBelow(i, g.yres, RowBytes(g));
      CopyBytes(fb, dest, buffer, from, RowBytes(g));
      assert fb[..][RowAt(g, i)..RowAt(g, i) + RowBytes(g)] == fb[dest..dest + RowBytes(g)];
      RowCopied(g, before, fb[..], buffer[..], i);
      TimesStep(i, g.line);
      TimesStep(i, RowBytes(g));
      dest := dest + g.line;
      from := from + RowBytes(g);
    }
  }

  lemma RowCopied(g: Geometry, before: seq<Byte>, after: seq<Byte>, packed: seq<Byte>, i: nat)
    requires RowBytes(g) <= g.line && |before| == |after| && RowAt(g, i) + RowBytes(g) <= |after|
    requires Times(i, RowBytes(g)) + RowBytes(g) <= |packed|
    requires Shows(g, before, packed, i)
    requires after[RowAt(g, i)..RowAt(g, i) + RowBytes(g)]
             == packed[Times(i, RowBytes(g))..Times(i, RowBytes(g)) + RowBytes(g)]
    requires forall b :: 0 <= b < |after| && !(RowAt(g, i) <= b < RowAt(g, i) + RowBytes(g)) ==> after[b] == before[b]
    ensures Shows(g, after, packed, i + 1)
  {
    hide Times, RowBytes, RowAt;
    forall y | 0 <= y < i
      ensures RowAt(g, y) + RowBytes(g) <= |after| && Times(y, RowBytes(g)) + RowBytes(g) <= |packed|
      ensures after[RowAt(g, y)..RowAt(g, y) + RowBytes(g)]
              == packed[Times(y, RowBytes(g))..Times(y, RowBytes(g)) + RowBytes(g)]
    {
      RowsApart(g, y, i);
      assert after[RowAt(g, y)..RowAt(g, y) + RowBytes(g)] == before[RowAt(g, y)..RowAt(g, y) + RowBytes(g)];
    }
  }

  method Grab(g: Geometry, fb: array<Byte>, buffer: array<Byte>)
    requires RowsFit(g, fb.Length) && Times(g.yres, RowBytes(g)) <= buffer.Length && fb != buffer
    modifies buffer
    ensures Shows(g, fb[..], buffer[..], g.yres)
    ensures forall b :: Times(g.yres, RowBytes(g)) <= b < buffer.Length ==> buffer[b] == old(buffer[b])
  {
    hide Times, RowBytes, Start, Shows;
    ShowsNone(g, fb[..], buffer[..]);
    var src := Start(g);
    var at := 0;
    TimesStep(0, g.line);
    TimesStep(0, RowBytes(g));
    for i := 0 to g.yres
      invariant src == RowAt(g, i) && at == Times(i, RowBytes(g))
      invariant Shows(g, fb[..], buffer[..], i)
      invariant forall b :: Times(g.yres, RowBytes(g)) <= b < buffer.Length ==> buffer[b] == old(buffer[b])
    {
      ghost var before := buffer[..];
      TimesBelow(i, g.yres, RowBytes(g));
      CopyBytes(buffer, at, fb, src, RowBytes(g));
      assert buffer[..][at..at + RowBytes(g)] == buffer[at..at + RowBytes(g)];
      RowGrabbed(g, fb[..], before, buffer[..], i);
      TimesStep(i, g.line);
      TimesStep(i, RowBytes(g));
      src := src + g.line;
      at := at + RowBytes(g);
    }
  }

  lemma RowGrabbed(g: Geometry, fb: seq<Byte>, before: seq<Byte>, after: seq<Byte>, i: nat)
    requires RowBytes(g) <= g.line && |before| == |after| && RowAt(g, i) + RowBytes(g) <= |fb|
    requires Times(i, RowBytes(g)) + RowBytes(g) <= |after|
    requires Shows(g, fb, before, i)
    requires fb[RowAt(g, i)..RowAt(g, i) + RowBytes(g)]
             == after[Times(i, RowBytes(g))..Times(i, RowBytes(g)) + RowBytes(g)]
    requires forall b :: 0 <= b < |after| && !(Times(i, RowBytes(g)) <= b < Times(i, RowBytes(g)) + RowBytes(g))
               ==> after[b] == before[b]
    ensures Shows(g, fb, after, i + 1)
  {
    hide Times, RowBytes, RowAt;
    forall y | 0 <= y < i
      ensures RowAt(g, y) + RowBytes(g) <= |fb| && Times(y, RowBytes(g)) + RowBytes(g) <= |after|
      ensures fb[RowAt(g, y)..RowAt(g, y) + RowBytes(g)]
              == after[Times(y, RowBytes(g))..Times(y, RowBytes(g)) + RowBytes(g)]
    {
      RowsApart(g, y, i);
      var n := Times(y, RowBytes(g));
      assert after[n..n + RowBytes(g)] == before[n..n + RowBytes(g)];
    }
  }

  lemma ShowsRow(g: Geometry, fb: seq<Byte>, p: seq<Byte>, rows: nat)
    requires rows > 0 && Shows(g, fb, p, rows)
    ensures Shows(g, fb, p, rows - 1)
    ensures var n, w, at := Times(rows - 1, RowBytes(g)), RowBytes(g), RowAt(g, rows - 1);
            n + w <= |p| && at + w <= |fb| && p[n..n + w] == fb[at..at + w]
  {
  }

  lemma TakeMore(p: seq<Byte>, q: seq<Byte>, n: nat, w: nat)
    requires n + w <= |p| && n + w <= |q| && p[..n] == q[..n] && p[n..n + w] == q[n..n + w]
    ensures p[..n + w] == q[..n + w]
  {
    assert p[..n + w] == p[..n] + p[n..n + w] && q[..n + w] == q[..n] + q[n..n + w];
  }

  /** Two packed frames shown by the same rows are the same frame. */
  lemma {:induction false} PackedUnique(g: Geometry, fb: seq<Byte>, p: seq<Byte>, q: seq<Byte>, rows: nat)
    requires Shows(g, fb, p, rows) && Shows(g, fb, q, rows)
    requires Times(rows, RowBytes(g)) <= |p| && Times(rows, RowBytes(g)) <= |q|
    ensures p[..Times(rows, RowBytes(g))] == q[..Times(rows, RowBytes(g))]
  {
    hide Times, RowBytes, RowAt, Shows;
    TimesStep(0, RowBytes(g));
    if rows > 0 {
      TimesStep(rows - 1, RowBytes(g));
      ShowsRow(g, fb, p, rows);
      ShowsRow(g, fb, q, rows);
      PackedUnique(g, fb, p, q, rows - 1);
      TakeMore(p, q, Times(rows - 1, RowBytes(g)), RowBytes(g));
    }
  }

  /** Grabbing after blitting gives back the blitted frame. */
  method BlitThenGrab(g: Geometry, fb: array<Byte>, frame: array<Byte>, out: array<Byte>)
    requires RowsFit(g, fb.Length) && fb != frame && fb != out && frame != out
    requires Times(g.yres, RowBytes(g)) <= frame.Length && Times(g.yres, RowBytes(g)) <= out.Length
    modifies fb, out
    ensures out[..Times(g.yres, RowBytes(g))] == frame[..Times(g.yres, RowBytes(g))]
    ensures forall b :: 0 <= b < fb.Length && !InRows(g, b) ==> fb[b] == old(fb[b])
  {
    hide Times, RowBytes, RowAt;
    Blit(g, fb, frame);
    Grab(g, fb, out);
    PackedUnique(g, fb[..], frame[..], out[..], g.yres);
    assert frame[..][..Times(g.yres, RowBytes(g))] == frame[..Times(g.yres, RowBytes(g))];
    assert out[..][..Times(g.yres, RowBytes(g))] == out[..Times(g.yres, RowBytes(g))];
  }
}
