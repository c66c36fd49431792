/**
 Frame buffer addressing: where the visible pixels are, the table of their offsets, and the
 shuffle of that table. A pixel is `bytes` bytes at its offset.
 */
module Fbdev {
  import opened Products

  type Byte = bv8

  datatype Geometry = Geometry(
    xres: nat, yres: nat, xoffset: nat, yoffset: nat, line: nat, bytes: nat)

  /** Byte offset of the first visible pixel. */
  function Start(g: Geometry): nat {
    Times(g.line, g.yoffset) + Times(g.bytes, g.xoffset)
  }

  function PixelOffset(g: Geometry, x: nat, y: nat): nat {
    Start(g) + Times(y, g.line) + Times(x, g.bytes)
  }

  function Count(g: Geometry): nat { Times(g.yres, g.xres) }

  /** Place of pixel (x, y) in a table filled row by row. */
  function Place(g: Geometry, x: nat, y: nat): nat { Times(y, g.xres) + x }

  /** A row of pixels does not exceed a line, and the visible area lies in a 32-bit addressable buffer. */
  ghost predicate Fits(g: Geometry, size: nat) {
    && Times(g.xres, g.bytes) <= g.line
    && size <= 0x1_0000_0000
    && forall x, y :: 0 <= x < g.xres && 0 <= y < g.yres ==> PixelOffset(g, x, y) + g.bytes <= size
  }

  /** A visible pixel is `yoffset` lines and `xoffset` pixels into the whole buffer. */
  lemma PixelPosition(g: Geometry, x: nat, y: nat)
    ensures PixelOffset(g, x, y) == Times(g.line, g.yoffset + y) + Times(g.bytes, g.xoffset + x)
  {
    hide Times;
    TimesSpread(g.line, g.yoffset, y);
    TimesSpread(g.bytes, g.xoffset, x);
  }

  // ---------- pixels do not overlap ----------

  lemma PixelsApart(g: Geometry, x: nat, y: nat, x': nat, y': nat)
    requires Times(g.xres, g.bytes) <= g.line && x < g.xres && x' < g.xres && (x != x' || y != y')
    ensures PixelOffset(g, x, y) + g.bytes <= PixelOffset(g, x', y')
            || PixelOffset(g, x', y') + g.bytes <= PixelOffset(g, x, y)
  {
    hide Times, Start;
    TimesBelow(x, g.xres, g.bytes);
    TimesBelow(x', g.xres, g.bytes);
    if y < y' {
      TimesBelow(y, y', g.line);
    } else if y' < y {
      TimesBelow(y', y, g.line);
    } else if x < x' {
      TimesBelow(x, x', g.bytes);
    } else {
      TimesBelow(x', x, g.bytes);
    }
  }

  lemma PlacesDiffer(g: Geometry, x: nat, y: nat, x': nat, y': nat)
    requires x < g.xres && x' < g.xres && y < g.yres && y' < g.yres
    ensures Place(g, x, y) < Count(g)
    ensures Place(g, x, y) == Place(g, x', y') <==> x == x' && y == y'
  {
    hide Times;
    TimesBelow(y, g.yres, g.xres);
    if y < y' {
      TimesBelow(y, y', g.xres);
    } else if y' < y {
      TimesBelow(y', y, g.xres);
    }
  }

  lemma {:induction false} PlaceOf(g: Geometry, k: nat, h: nat) returns (x: nat, y: nat)
    requires k < Times(h, g.xres)
    ensures x < g.xres && y < h && k == Place(g, x, y)
  {
    hide Times;
    if h == 0 {
      TimesStep(0, g.xres);
    } else {
      TimesStep(h - 1, g.xres);
      if k < Times(h - 1, g.xres) {
        x, y := PlaceOf(g, k, h - 1);
      } else {
        x, y := k - Times(h - 1, g.xres), h - 1;
      }
    }
  }

  // ---------- the offset table ----------

  const U32: nat := 0x1_0000_0000

  /** Row by row, the offsets of all visible pixels, as 32-bit numbers. */
  ghost predicate InOrder(g: Geometry, lut: seq<nat>) {
    |lut| == Count(g) &&
    forall x, y :: 0 <= x < g.xres && 0 <= y < g.yres ==>
      Place(g, x, y) < |lut| && lut[Place(g, x, y)] == PixelOffset(g, x, y) % U32
  }

  /** No visible pixel's offset needs more than 32 bits. */
  ghost predicate Addressable(g: Geometry) {
    forall x, y :: 0 <= x < g.xres && 0 <= y < g.yres ==> PixelOffset(g, x, y) < U32
  }

  lemma ModuloAdds(a: nat, b: nat)
    ensures (a % U32 + b % U32) % U32 == (a + b) % U32
    ensures (a % U32 + b) % U32 == (a + b) % U32
  {
  }

  /** All in 32 bits; `overrun` reports more pixels than their wrapped count allocates entries for. */
  method FillTable(g: Geometry) returns (overrun: bool, lut: array<nat>)
    ensures fresh(lut)
    ensures overrun <==> U32 <= Count(g)
    ensures !overrun ==> InOrder(g, lut[..])
  {
    hide Times, Start, Place;
    lut := new nat[Times(g.xres, g.yres) % U32];
    CountSymmetric(g);
    var lineStart := Start(g) % U32;
    var i := 0;
    TimesStep(0, g.line);
    TimesStep(0, g.xres);
    for y := 0 to g.yres
      invariant i == Times(y, g.xres) <= lut.Length && lineStart == (Start(g) + Times(y, g.line)) % U32
      invariant forall x', y' :: 0 <= x' < g.xres && 0 <= y' < y ==>
                  Place(g, x', y') < lut.Length && lut[Place(g, x', y')] == PixelOffset(g, x', y') % U32
    {
      var xOffset := 0;
      TimesStep(0, g.bytes);
      for x := 0 to g.xres
        invariant i == Times(y, g.xres) + x <= lut.Length && xOffset == Times(x, g.bytes) % U32
        invariant forall x', y' :: 0 <= x' < g.xres && 0 <= y' <= y && (y' < y || x' < x) ==>
                    Place(g, x', y') < lut.Length && lut[Place(g, x', y')] == PixelOffset(g, x', y') % U32
      {
        PlaceIs(g, x, y);
        if lut.Length <= i { return true, lut; }
        forall x', y' | 0 <= x' < g.xres && 0 <= y' <= y && (y' < y || x' < x)
          ensures Place(g, x', y') != Place(g, x, y)
        {
          PlacesDiffer(g, x', y', x, y);
        }
        ModuloAdds(Start(g) + Times(y, g.line), Times(x, g.bytes));
        assert PixelOffset(g, x, y) == Start(g) + Times(y, g.line) + Times(x, g.bytes);
        lut[i] := (lineStart + xOffset) % U32;
        i := i + 1;
        TimesStep(x, g.bytes);
        ModuloAdds(Times(x, g.bytes), g.bytes);
        xOffset := (xOffset + g.bytes) % U32;
      }
      TimesStep(y, g.line);
      ModuloAdds(Start(g) + Times(y, g.line), g.line);
      lineStart := (lineStart + g.line) % U32;
      TimesStep(y, g.xres);
    }
    overrun := false;
  }

  lemma PlaceIs(g: Geometry, x: nat, y: nat)
    requires x < g.xres && y < g.yres
    ensures Place(g, x, y) == Times(y, g.xres) + x < Count(g)
  {
    PlacesDiffer(g, x, y, x, y);
  }

  lemma CountSymmetric(g: Geometry)
    ensures Times(g.xres, g.yres) == Count(g)
  {
  }

  /** The Knuth shuffle, with the values of `rand()` given. */
  method Shuffle(lut: array<nat>, rand: seq<nat>)
    requires |rand| >= lut.Length
    modifies lut
    ensures multiset(lut[..]) == multiset(old(lut[..]))
    ensures lut[..] == Shuffled(old(lut[..]), lut.Length, rand)
  {
    var n: nat := lut.Length;
    ghost var was := lut[..];
    while n > 0
      invariant n <= lut.Length
      invariant multiset(lut[..]) == multiset(was)
      invariant Shuffled(lut[..], n, rand[lut.Length - n..]) == Shuffled(was, lut.Length, rand)
    {
      var r := rand[lut.Length - n];
      assert rand[lut.Length - n..][0] == r;
      assert rand[lut.Length - n..][1..] == rand[lut.Length - (n - 1)..];
      var k := r % n;
      n := n - 1;
      ghost var before := lut[..];
      var tmp := lut[n];
      lut[n] := lut[k];
      lut[k] := tmp;
      assert lut[..] == Swap(before, n, k);
    }
  }

  function Swap(s: seq<nat>, i: nat, j: nat): (t: seq<nat>)
    requires i < |s| && j < |s|
    ensures |t| == |s|
  {
    s[i := s[j]][j := s[i]]
  }

  /** The table after the remaining `n` steps of the shuffle. */
  function Shuffled(s: seq<nat>, n: nat, rand: seq<nat>): (t: seq<nat>)
    requires n <= |s| && n <= |rand|
    ensures |t| == |s|
    decreases n
  {
    if n == 0 then s else Shuffled(Swap(s, n - 1, rand[0] % n), n - 1, rand[1..])
  }

  /** A choice for each step of the shuffle, within its range. */
  ghost predicate Choices(n: nat, rand: seq<nat>) {
    |rand| == n && forall k :: 0 <= k < n ==> rand[k] < n - k
  }

  lemma FirstChoice(s: seq<nat>, n: nat, k: nat, rest: seq<nat>)
    requires k < n <= |s| && Choices(n - 1, rest)
    ensures Choices(n, [k] + rest)
    ensures Shuffled(s, n, [k] + rest) == Shuffled(Swap(s, n - 1, k), n - 1, rest)
  {
    hide Swap;
    var r := [k] + rest;
    SmallMod(k, n);
    assert r[0] % n == k && r[1..] == rest;
    forall j | 0 <= j < n ensures r[j] < n - j {
      if j > 0 { assert r[j] == rest[j - 1]; }
    }
  }

  lemma SmallMod(k: nat, n: nat)
    requires k < n
    ensures k % n == k
  {
  }

  /**
   The shuffle can produce every arrangement: some sequence of choices takes `s` to any
   rearrangement `t` of it.
   */
  lemma {:induction false} ShuffleReachesEvery(s: seq<nat>, t: seq<nat>, n: nat) returns (rand: seq<nat>)
    requires n <= |s| == |t| && multiset(s[..n]) == multiset(t[..n]) && s[n..] == t[n..]
    ensures Choices(n, rand) && Shuffled(s, n, rand) == t
    decreases n
  {
    hide Swap;
    if n == 0 {
      assert s == s[..0] + s[0..] && t == t[..0] + t[0..];
      rand := [];
    } else {
      var k := IndexOf(s[..n], t[..n], n - 1);
      SwapKeeps(s, n, k);
      DropLast(Swap(s, n - 1, k), t, n);
      rand := ShuffleReachesEvery(Swap(s, n - 1, k), t, n - 1);
      FirstChoice(s, n, k, rand);
      rand := [k] + rand;
    }
  }

  lemma IndexOf(s: seq<nat>, t: seq<nat>, i: nat) returns (k: nat)
    requires multiset(s) == multiset(t) && i < |t|
    ensures k < |s| && s[k] == t[i]
  {
    assert t[i] in multiset(t);
    assert t[i] in s;
    k :| k < |s| && s[k] == t[i];
  }

  lemma {:induction false} ShuffleKeepsTail(s: seq<nat>, n: nat, rand: seq<nat>)
    requires n <= |s| && n <= |rand|
    ensures Shuffled(s, n, rand)[n..] == s[n..]
    decreases n
  {
    if n > 0 {
      var u := Swap(s, n - 1, rand[0] % n);
      ShuffleKeepsTail(u, n - 1, rand[1..]);
      assert Shuffled(s, n, rand)[n..] == Shuffled(s, n, rand)[n - 1..][1..];
      assert s[n..] == u[n..] == u[n - 1..][1..];
    }
  }

  ghost predicate Distinct(s: seq<nat>) {
    forall i, j :: 0 <= i < j < |s| ==> s[i] != s[j]
  }

  /** ... and only one: with distinct entries, different choices give different arrangements. */
  lemma {:induction false} ShuffleIsFair(s: seq<nat>, n: nat, r1: seq<nat>, r2: seq<nat>)
    requires n <= |s| && Distinct(s) && Choices(n, r1) && Choices(n, r2)
    requires Shuffled(s, n, r1) == Shuffled(s, n, r2)
    ensures r1 == r2
    decreases n
  {
    if n > 0 {
      LastPlaced(s, n, r1);
      LastPlaced(s, n, r2);
      assert r1[0] == r2[0];
      ShuffleIsFair(Swap(s, n - 1, r1[0]), n - 1, r1[1..], r2[1..]);
      assert r1 == [r1[0]] + r1[1..] && r2 == [r2[0]] + r2[1..];
    }
  }

  lemma LaterChoices(n: nat, rand: seq<nat>)
    requires 0 < n && Choices(n, rand)
    ensures Choices(n - 1, rand[1..])
  {
    forall k | 0 <= k < n - 1 ensures rand[1..][k] < n - 1 - k { assert rand[1..][k] == rand[k + 1]; }
  }

  lemma LastPlaced(s: seq<nat>, n: nat, rand: seq<nat>)
    requires 0 < n <= |s| && Choices(n, rand)
    ensures Shuffled(s, n, rand)[n - 1] == s[rand[0]]
    ensures Shuffled(s, n, rand) == Shuffled(Swap(s, n - 1, rand[0]), n - 1, rand[1..])
    ensures Choices(n - 1, rand[1..])
  {
    hide Swap;
    var u := Swap(s, n - 1, rand[0]);
    LaterChoices(n, rand);
    SwapKeeps(s, n, rand[0]);
    SmallMod(rand[0], n);
    LastKept(u, n, rand[1..]);
  }

  lemma LastKept(u: seq<nat>, n: nat, rest: seq<nat>)
    requires 0 < n <= |u| && n - 1 <= |rest|
    ensures Shuffled(u, n - 1, rest)[n - 1] == u[n - 1]
  {
    hide Shuffled;
    ShuffleKeepsTail(u, n - 1, rest);
    assert Shuffled(u, n - 1, rest)[n - 1..][0] == u[n - 1..][0];
  }

  lemma SwapKeeps(s: seq<nat>, n: nat, k: nat)
    requires k < n <= |s|
    ensures var u := Swap(s, n - 1, k);
            multiset(u[..n]) == multiset(s[..n]) && u[n..] == s[n..] && u[n - 1] == s[k]
  {
    assert Swap(s, n - 1, k)[..n] == s[..n][n - 1 := s[k]][k := s[n - 1]];
  }

  lemma TakeLast(u: seq<nat>, n: nat)
    requires 0 < n <= |u|
    ensures multiset(u[..n]) == multiset(u[..n - 1]) + multiset{u[n - 1]}
    ensures u[n - 1..] == [u[n - 1]] + u[n..]
  {
    assert u[..n] == u[..n - 1] + [u[n - 1]];
  }

  lemma DropLast(u: seq<nat>, t: seq<nat>, n: nat)
    requires 0 < n <= |u| == |t| && u[n - 1] == t[n - 1]
    requires multiset(u[..n]) == multiset(t[..n]) && u[n..] == t[n..]
    ensures multiset(u[..n - 1]) == multiset(t[..n - 1]) && u[n - 1..] == t[n - 1..]
  {
    TakeLast(u, n);
    TakeLast(t, n);
    SumsCancel(multiset(u[..n - 1]), multiset(t[..n - 1]), u[n - 1]);
  }

  lemma SumsCancel(a: multiset<nat>, b: multiset<nat>, x: nat)
    requires a + multiset{x} == b + multiset{x}
    ensures a == b
  {
    assert a == a + multiset{x} - multiset{x};
    assert b == b + multiset{x} - multiset{x};
  }
}
