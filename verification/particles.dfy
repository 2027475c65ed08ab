/** The particle-dissolve engine of the chat input: sampling a rasterised
    RGBA buffer into particles, the per-frame sweep step, and the right-most
    x that seeds the sweep frontier. The random coin flips and decay amounts
    of a frame are passed in as `RandomDraw`s, one per particle. */
module Particles {

  newtype byte = x: int | 0 <= x < 256

  /** The four channel bytes a particle's `rgba(...)` colour is built from. */
  datatype Rgba = Rgba(red: byte, green: byte, blue: byte, alpha: byte)

  datatype Particle = Particle(x: int, y: int, r: real, color: Rgba)

  /** The random choices made for one particle in one frame: the two
      `Math.random() > 0.5` coin flips and the radius decay `0.05 * Math.random()`. */
  datatype RandomDraw = RandomDraw(xUp: bool, yUp: bool, decay: real)

  /** Width and height of the off-screen raster. */
  const Size: int := 800
  /** Length of the RGBA buffer: four bytes per pixel. */
  const BufferLength: int := 4 * 800 * 800
  /** How far the sweep frontier moves left per frame. */
  const FrontierStep: int := 8
  /** Upper bound (exclusive) of a frame's radius decay. */
  const MaxDecay: real := 0.05

  predicate ValidDraw(d: RandomDraw)
  {
    0.0 <= d.decay < MaxDecay
  }

  predicate ValidDraws(ds: seq<RandomDraw>)
  {
    forall i :: 0 <= i < |ds| ==> ValidDraw(ds[i])
  }

  function Sign(up: bool): int
  {
    if up then 1 else -1
  }

  // ---------------------------------------------------------------------
  // One animation frame
  // ---------------------------------------------------------------------

  /** A particle at or right of the frontier is caught by the sweep. */
  predicate Caught(p: Particle, pos: int)
  {
    p.x >= pos
  }

  /** A caught particle whose radius has reached zero is removed; everything
      else goes on to the next frame. */
  predicate Survives(p: Particle, pos: int)
  {
    !Caught(p, pos) || p.r > 0.0
  }

  /** What a frame does to one kept particle. */
  function Advance(p: Particle, pos: int, d: RandomDraw): (q: Particle)
    ensures q.color == p.color
    ensures !Caught(p, pos) ==> q == p
    ensures Caught(p, pos) ==>
      (q.x == p.x + 1 || q.x == p.x - 1) && (q.y == p.y + 1 || q.y == p.y - 1)
    ensures Caught(p, pos) && ValidDraw(d) ==> p.r - MaxDecay < q.r <= p.r
  {
    if p.x < pos then p
    else p.(x := p.x + Sign(d.xUp), y := p.y + Sign(d.yUp), r := p.r - d.decay)
  }

  /** The list a frame with frontier `pos` leaves behind, built in the order
      the frame's loop visits the particles. */
  function Step(ps: seq<Particle>, pos: int, ds: seq<RandomDraw>): seq<Particle>
    requires |ds| == |ps|
  {
    if ps == [] then []
    else
      var n := |ps| - 1;
      Step(ps[..n], pos, ds[..n]) + (if Survives(ps[n], pos) then [Advance(ps[n], pos, ds[n])] else [])
  }

  /** The positions, in increasing order, of the particles a frame keeps. */
  function KeptIndices(ps: seq<Particle>, pos: int): (idx: seq<nat>)
    ensures forall k :: 0 <= k < |idx| ==> idx[k] < |ps|
    ensures forall k, l :: 0 <= k < l < |idx| ==> idx[k] < idx[l]
    ensures forall i :: 0 <= i < |ps| ==> (i in idx <==> Survives(ps[i], pos))
  {
    if ps == [] then []
    else
      var n := |ps| - 1;
      var prefix := KeptIndices(ps[..n], pos);
      assert forall i :: 0 <= i < n ==> ps[..n][i] == ps[i];
      prefix + (if Survives(ps[n], pos) then [n] else [])
  }

  /** The frame keeps exactly the surviving particles, in their original
      order, and transforms each one by `Advance` with its own draw. */
  lemma {:induction false} StepByIndex(ps: seq<Particle>, pos: int, ds: seq<RandomDraw>)
    requires |ds| == |ps|
    ensures var out, idx := Step(ps, pos, ds), KeptIndices(ps, pos);
      |out| == |idx| &&
      forall k :: 0 <= k < |idx| ==> out[k] == Advance(ps[idx[k]], pos, ds[idx[k]])
  {
    if ps != [] {
      var n := |ps| - 1;
      StepByIndex(ps[..n], pos, ds[..n]);
      var prev := KeptIndices(ps[..n], pos);
      forall k | 0 <= k < |prev|
        ensures ps[..n][prev[k]] == ps[prev[k]] && ds[..n][prev[k]] == ds[prev[k]]
      {
      }
    }
  }

  /** A frame never adds particles, and removes exactly the caught ones
      whose radius is not positive. */
  lemma StepLength(ps: seq<Particle>, pos: int, ds: seq<RandomDraw>)
    requires |ds| == |ps|
    ensures |Step(ps, pos, ds)| <= |ps|
    ensures |Step(ps, pos, ds)| == |ps| <==> forall i :: 0 <= i < |ps| ==> Survives(ps[i], pos)
  {
    StepByIndex(ps, pos, ds);
    var idx := KeptIndices(ps, pos);
    IncreasingIndicesBound(idx, |ps|);
    if |idx| == |ps| {
      IncreasingIndicesFull(idx, |ps|);
    } else {
      var i :| 0 <= i < |ps| && i !in idx;
      assert !Survives(ps[i], pos);
    }
  }

  /** Strictly increasing indices below `n` number at most `n`. */
  lemma {:induction false} IncreasingIndicesBound(idx: seq<nat>, n: nat)
    requires forall k :: 0 <= k < |idx| ==> idx[k] < n
    requires forall k, l :: 0 <= k < l < |idx| ==> idx[k] < idx[l]
    ensures |idx| <= n
    ensures forall k :: 0 <= k < |idx| ==> k <= idx[k]
  {
    if idx != [] {
      var m := |idx| - 1;
      IncreasingIndicesBound(idx[..m], idx[m]);
      if m > 0 {
        assert idx[..m][m - 1] == idx[m - 1];
      }
    }
  }

  /** `n` strictly increasing indices below `n` are all of them. */
  lemma IncreasingIndicesFull(idx: seq<nat>, n: nat)
    requires |idx| == n
    requires forall k :: 0 <= k < |idx| ==> idx[k] < n
    requires forall k, l :: 0 <= k < l < |idx| ==> idx[k] < idx[l]
    ensures forall i :: 0 <= i < n ==> i in idx
  {
    IncreasingIndicesBound(idx, n);
    forall i | 0 <= i < n
      ensures i in idx
    {
      // Read from the top, idx[k] >= k and the gaps leave no room: idx[k] == k.
      IndexIsPosition(idx, n, i);
    }
  }

  lemma {:induction false} IndexIsPosition(idx: seq<nat>, n: nat, i: nat)
    requires |idx| == n && i < n
    requires forall k :: 0 <= k < |idx| ==> idx[k] < n
    requires forall k, l :: 0 <= k < l < |idx| ==> idx[k] < idx[l]
    ensures idx[i] == i
  {
    IncreasingIndicesBound(idx, n);
    // From the top: idx[n-1] <= n-1 and each step down loses at least one.
    var k := n - 1;
    while k > i
      invariant i <= k <= n - 1
      invariant idx[k] <= k
    {
      k := k - 1;
    }
  }

  /** Particles left of the frontier reach the next frame untouched. */
  lemma UnsweptUntouched(ps: seq<Particle>, pos: int, ds: seq<RandomDraw>, i: int)
    requires |ds| == |ps| && 0 <= i < |ps| && !Caught(ps[i], pos)
    ensures exists k :: 0 <= k < |Step(ps, pos, ds)| && Step(ps, pos, ds)[k] == ps[i]
  {
    StepByIndex(ps, pos, ds);
    var idx := KeptIndices(ps, pos);
    var k :| 0 <= k < |idx| && idx[k] == i;
    assert Step(ps, pos, ds)[k] == ps[i];
  }

  /** How one frame may move a particle it keeps: unswept ones not at all;
      swept ones (which had a positive radius) by exactly one unit on each
      axis, with the radius lowered by less than `MaxDecay`, so that they are
      still caught at the next frontier. The radius never grows and the
      colour never changes. */
  predicate FrameMove(p: Particle, q: Particle, pos: int)
  {
    q.color == p.color && q.r <= p.r &&
    (!Caught(p, pos) ==> q == p) &&
    (Caught(p, pos) ==>
      p.r > 0.0 && p.r - MaxDecay < q.r &&
      (q.x - p.x == 1 || q.x - p.x == -1) &&
      (q.y - p.y == 1 || q.y - p.y == -1) &&
      Caught(q, pos - FrontierStep))
  }

  /** Every particle of the next frame is the frame move of the survivor at
      the same position in `KeptIndices`. */
  lemma StepBounds(ps: seq<Particle>, pos: int, ds: seq<RandomDraw>)
    requires |ds| == |ps| && ValidDraws(ds)
    ensures |Step(ps, pos, ds)| == |KeptIndices(ps, pos)|
    ensures forall k :: 0 <= k < |Step(ps, pos, ds)| ==>
      FrameMove(ps[KeptIndices(ps, pos)[k]], Step(ps, pos, ds)[k], pos)
  {
    StepByIndex(ps, pos, ds);
    var idx := KeptIndices(ps, pos);
    forall k | 0 <= k < |idx|
      ensures FrameMove(ps[idx[k]], Step(ps, pos, ds)[k], pos)
    {
      assert ValidDraw(ds[idx[k]]);
    }
  }

  // The frame's loop, as `animateFrame` runs it over the particle list.
  method StepParticles(ps: seq<Particle>, pos: int, ds: seq<RandomDraw>) returns (out: seq<Particle>)
    requires |ds| == |ps|
    ensures out == Step(ps, pos, ds)
  {
    out := [];
    var i := 0;
    while i < |ps|
      invariant 0 <= i <= |ps|
      invariant out == Step(ps[..i], pos, ds[..i])
    {
      var current := ps[i];
      assert ps[..i + 1][..i] == ps[..i] && ds[..i + 1][..i] == ds[..i];
      if current.x < pos {
        out := out + [current];
      } else {
        if current.r <= 0.0 {
          i := i + 1;
          continue;
        }
        var dx := if ds[i].xUp then 1 else -1;
        var dy := if ds[i].yUp then 1 else -1;
        current := current.(x := current.x + dx, y := current.y + dy, r := current.r - ds[i].decay);
        out := out + [current];
      }
      i := i + 1;
    }
    assert ps[..i] == ps && ds[..i] == ds;
  }

  // ---------------------------------------------------------------------
  // Sampling the raster
  // ---------------------------------------------------------------------

  /** Byte offset of pixel (column n, row t) in the RGBA buffer. */
  function PixelOffset(t: int, n: int): int
  {
    4 * t * 800 + 4 * n
  }

  predicate InRaster(t: int, n: int)
  {
    0 <= t < Size && 0 <= n < Size
  }

  /** A pixel becomes a particle when its red, green and blue bytes are all
      nonzero; alpha is not looked at. */
  predicate Lit(px: seq<byte>, t: int, n: int)
    requires |px| == BufferLength && InRaster(t, n)
  {
    var e := PixelOffset(t, n);
    px[e] != 0 && px[e + 1] != 0 && px[e + 2] != 0
  }

  /** The fresh particle for pixel (n, t): radius 1 and the pixel's four bytes. */
  function PixelParticle(px: seq<byte>, t: int, n: int): Particle
    requires |px| == BufferLength && InRaster(t, n)
  {
    var e := PixelOffset(t, n);
    Particle(n, t, 1.0, Rgba(px[e], px[e + 1], px[e + 2], px[e + 3]))
  }

  /** Particles from the first `n` pixels of row `t`. */
  function RowScan(px: seq<byte>, t: int, n: int): seq<Particle>
    requires |px| == BufferLength && 0 <= t < Size && 0 <= n <= Size
  {
    if n == 0 then []
    else RowScan(px, t, n - 1) + (if Lit(px, t, n - 1) then [PixelParticle(px, t, n - 1)] else [])
  }

  /** Particles from the first `t` rows. */
  function Scan(px: seq<byte>, t: int): seq<Particle>
    requires |px| == BufferLength && 0 <= t <= Size
  {
    if t == 0 then [] else Scan(px, t - 1) + RowScan(px, t - 1, Size)
  }

  /** The particle list sampled from a whole raster. */
  function Sampled(px: seq<byte>): seq<Particle>
    requires |px| == BufferLength
  {
    Scan(px, Size)
  }

  /** p comes strictly before q in row-major order (rows outer, columns inner). */
  predicate RowMajorBefore(p: Particle, q: Particle)
  {
    p.y < q.y || (p.y == q.y && p.x < q.x)
  }

  /** Everything RowScan yields is the particle of a lit pixel of row t
      left of column n, in increasing column order. */
  lemma {:induction false} RowScanSound(px: seq<byte>, t: int, n: int)
    requires |px| == BufferLength && 0 <= t < Size && 0 <= n <= Size
    ensures forall k :: 0 <= k < |RowScan(px, t, n)| ==>
      var p := RowScan(px, t, n)[k];
      p.y == t && 0 <= p.x < n && Lit(px, t, p.x) && p == PixelParticle(px, t, p.x)
    ensures forall k, l :: 0 <= k < l < |RowScan(px, t, n)| ==>
      RowScan(px, t, n)[k].x < RowScan(px, t, n)[l].x
  {
    if n > 0 {
      RowScanSound(px, t, n - 1);
    }
  }

  /** Every lit pixel of row t left of column n has its particle in RowScan. */
  lemma {:induction false} RowScanComplete(px: seq<byte>, t: int, n: int, c: int)
    requires |px| == BufferLength && 0 <= t < Size && 0 <= c < n <= Size
    requires Lit(px, t, c)
    ensures PixelParticle(px, t, c) in RowScan(px, t, n)
  {
    var tail := if Lit(px, t, n - 1) then [PixelParticle(px, t, n - 1)] else [];
    assert RowScan(px, t, n) == RowScan(px, t, n - 1) + tail;
    if c < n - 1 {
      RowScanComplete(px, t, n - 1, c);
    } else {
      assert tail == [PixelParticle(px, t, c)];
    }
  }

  /** Everything Scan yields is the particle of a lit pixel in the first t
      rows, in strictly increasing row-major order. */
  lemma {:induction false} ScanSound(px: seq<byte>, t: int)
    requires |px| == BufferLength && 0 <= t <= Size
    ensures forall k :: 0 <= k < |Scan(px, t)| ==>
      var p := Scan(px, t)[k];
      InRaster(p.y, p.x) && p.y < t && Lit(px, p.y, p.x) && p == PixelParticle(px, p.y, p.x)
    ensures forall k, l :: 0 <= k < l < |Scan(px, t)| ==>
      RowMajorBefore(Scan(px, t)[k], Scan(px, t)[l])
  {
    if t > 0 {
      ScanSound(px, t - 1);
      RowScanSound(px, t - 1, Size);
    }
  }

  /** Every lit pixel in the first t rows has its particle in Scan. */
  lemma {:induction false} ScanComplete(px: seq<byte>, t: int, row: int, col: int)
    requires |px| == BufferLength && 0 <= row < t <= Size && 0 <= col < Size
    requires Lit(px, row, col)
    ensures PixelParticle(px, row, col) in Scan(px, t)
  {
    assert Scan(px, t) == Scan(px, t - 1) + RowScan(px, t - 1, Size);
    if row < t - 1 {
      ScanComplete(px, t - 1, row, col);
    } else {
      RowScanComplete(px, row, Size, col);
    }
  }

  /** The sampled list holds exactly one particle per lit pixel of the
      800 x 800 raster, in row-major order, each with radius 1 and the
      colour of its pixel. */
  lemma SampledExactly(px: seq<byte>)
    requires |px| == BufferLength
    ensures forall k :: 0 <= k < |Sampled(px)| ==>
      var p := Sampled(px)[k];
      InRaster(p.y, p.x) && Lit(px, p.y, p.x) && p == PixelParticle(px, p.y, p.x) && p.r == 1.0
    ensures forall k, l :: 0 <= k < l < |Sampled(px)| ==> RowMajorBefore(Sampled(px)[k], Sampled(px)[l])
    ensures forall t, n :: InRaster(t, n) && Lit(px, t, n) ==> PixelParticle(px, t, n) in Sampled(px)
  {
    ScanSound(px, Size);
    forall t, n | InRaster(t, n) && Lit(px, t, n)
      ensures PixelParticle(px, t, n) in Sampled(px)
    {
      ScanComplete(px, Size, t, n);
    }
  }

  // The nested scan of `draw` over the `getImageData` buffer.
  method SamplePixels(pixels: array<byte>) returns (ps: seq<Particle>)
    requires pixels.Length == BufferLength
    ensures ps == Sampled(pixels[..])
  {
    ghost var px := pixels[..];
    ps := [];
    var t := 0;
    while t < 800
      invariant 0 <= t <= Size
      invariant ps == Scan(px, t)
    {
      var i := 4 * t * 800;
      var n := 0;
      ghost var before := ps;
      while n < 800
        invariant 0 <= n <= Size
        invariant ps == before + RowScan(px, t, n)
      {
        var e := i + 4 * n;
        assert e == PixelOffset(t, n);
        if pixels[e] != 0 && pixels[e + 1] != 0 && pixels[e + 2] != 0 {
          ps := ps + [Particle(n, t, 1.0, Rgba(pixels[e], pixels[e + 1], pixels[e + 2], pixels[e + 3]))];
        }
        n := n + 1;
      }
      t := t + 1;
    }
  }

  // ---------------------------------------------------------------------
  // Seeding the frontier
  // ---------------------------------------------------------------------

  /** `reduce((prev, current) => current.x > prev ? current.x : prev, acc)`. */
  function FoldMaxX(ps: seq<Particle>, acc: int): (m: int)
    ensures m >= acc
    ensures forall i :: 0 <= i < |ps| ==> ps[i].x <= m
    ensures m == acc || exists i :: 0 <= i < |ps| && ps[i].x == m
  {
    if ps == [] then acc
    else
      var m := FoldMaxX(ps[1..], if ps[0].x > acc then ps[0].x else acc);
      assert forall i :: 1 <= i < |ps| ==> ps[i] == ps[1..][i - 1];
      m
  }

  /** The start frontier: the largest x of the list, or 0 if the list is
      empty or every x is negative. */
  function MaxX(ps: seq<Particle>): (m: int)
    ensures m >= 0
    ensures forall i :: 0 <= i < |ps| ==> ps[i].x <= m
    ensures m == 0 || exists i :: 0 <= i < |ps| && ps[i].x == m
  {
    FoldMaxX(ps, 0)
  }

  /** For a sampled raster the start frontier lies in the raster, and the
      first frame catches at least the right-most particles. */
  lemma SampledMaxX(px: seq<byte>)
    requires |px| == BufferLength
    ensures 0 <= MaxX(Sampled(px)) < Size
    ensures Sampled(px) != [] ==> exists k :: 0 <= k < |Sampled(px)| && Caught(Sampled(px)[k], MaxX(Sampled(px)))
  {
    SampledExactly(px);
    var ps := Sampled(px);
    if ps != [] {
      if MaxX(ps) == 0 {
        assert Caught(ps[0], MaxX(ps));
      }
    }
  }
}
