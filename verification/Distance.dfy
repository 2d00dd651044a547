// Grid distance transforms: the two-pass scans and what they compute.
module Distance {
  import opened Basics


  // The chessboard metric, and the 3-4 chamfer metric.
  datatype Metric = Linf | Chamfer34 {
    function Axial(): nat { if Linf? then 1 else 3 }
    function Diagonal(): nat { if Linf? then 1 else 4 }
    // The value of a cell no obstacle reaches: u16::MAX, and u32::MAX / 2.
    function Cap(): nat { if Linf? then 65535 else 2147483647 }
    // What the scan adds to a neighbour: saturating u16, or plain u32.
    function Add(v: nat, k: nat): nat { if Linf? && v + k > 65535 then 65535 else v + k }
  }

  function Abs(a: int): nat { if a < 0 then -a else a }
  function MinOf(a: nat, b: nat): nat { if b < a then b else a }
  function MaxOf(a: nat, b: nat): nat { if b < a then a else b }

  // The metric itself: 3 * max + min for chamfer, max for chessboard.
  function Norm(m: Metric, dx: int, dy: int): nat {
    Radius(m, Abs(dx), Abs(dy))
  }

  function Radius(m: Metric, a: nat, b: nat): nat {
    match m
    case Linf => MaxOf(a, b)
    case Chamfer34 => 3 * MaxOf(a, b) + MinOf(a, b)
  }

  predicate InGrid(w: int, h: int, x: int, y: int) { 0 <= x < w && 0 <= y < h }

  // A row-major field read at a cell.
  function At<T>(d: seq<T>, w: nat, h: nat, x: int, y: int): T
    requires |d| == w * h && InGrid(w, h, x, y)
  {
    RowBelow(y, h, w, x);
    d[y * w + x]
  }

  lemma AtWrite<T>(d: seq<T>, w: nat, h: nat, x: int, y: int, v: T)
    requires |d| == w * h && InGrid(w, h, x, y)
    ensures 0 <= y * w + x < |d|
    ensures forall x', y' :: InGrid(w, h, x', y') ==>
      At(d[y * w + x := v], w, h, x', y') == if x' == x && y' == y then v else At(d, w, h, x', y')
  {
    RowBelow(y, h, w, x);
    forall x', y' | InGrid(w, h, x', y')
      ensures At(d[y * w + x := v], w, h, x', y') == if x' == x && y' == y then v else At(d, w, h, x', y')
    {
      RowBelow(y', h, w, x');
      if y' * w + x' == y * w + x {
        RowUnique(w, y, x, y', x');
      }
    }
  }

  // ------------------------------------------------------------ exactness

  // Every value below the cap is reached by an obstacle at most that far away.
  ghost predicate Sound(m: Metric, cap: nat, d: seq<nat>, obs: seq<bool>, w: nat, h: nat)
    requires |d| == |obs| == w * h
  {
    forall x, y :: InGrid(w, h, x, y) ==>
      At(d, w, h, x, y) <= cap && (At(d, w, h, x, y) < cap ==> Near(m, obs, w, h, x, y, At(d, w, h, x, y)))
  }

  ghost predicate Near(m: Metric, obs: seq<bool>, w: nat, h: nat, x: int, y: int, r: nat)
    requires |obs| == w * h
  {
    exists qx, qy :: InGrid(w, h, qx, qy) && At(obs, w, h, qx, qy) && Norm(m, x - qx, y - qy) <= r
  }

  // No value exceeds the distance to any obstacle.
  ghost predicate Below(m: Metric, d: seq<nat>, obs: seq<bool>, w: nat, h: nat)
    requires |d| == |obs| == w * h
  {
    forall x, y, qx, qy :: InGrid(w, h, x, y) && InGrid(w, h, qx, qy) && At(obs, w, h, qx, qy) ==>
      At(d, w, h, x, y) <= Norm(m, x - qx, y - qy)
  }

  // The field is min(cap, distance to the nearest obstacle) everywhere.
  ghost predicate IsDistance(m: Metric, cap: nat, d: seq<nat>, obs: seq<bool>, w: nat, h: nat)
    requires |obs| == w * h
  {
    |d| == w * h && Sound(m, cap, d, obs, w, h) && Below(m, d, obs, w, h)
  }

  // Fields with different caps agree up to the smaller cap; with the same cap
  // they are equal. Without obstacles each is its cap everywhere.
  lemma DistanceUnique(m: Metric, cap: nat, cap': nat, d: seq<nat>, d': seq<nat>, obs: seq<bool>, w: nat, h: nat,
                       x: int, y: int)
    requires |obs| == w * h && cap <= cap' && InGrid(w, h, x, y)
    requires IsDistance(m, cap, d, obs, w, h) && IsDistance(m, cap', d', obs, w, h)
    ensures At(d, w, h, x, y) == MinOf(cap, At(d', w, h, x, y))
  {
    hide Norm;
    var v, v' := At(d, w, h, x, y), At(d', w, h, x, y);
    if v < cap {
      var qx, qy :| InGrid(w, h, qx, qy) && At(obs, w, h, qx, qy) && Norm(m, x - qx, y - qy) <= v;
    }
    if v' < cap' {
      var qx, qy :| InGrid(w, h, qx, qy) && At(obs, w, h, qx, qy) && Norm(m, x - qx, y - qy) <= v';
    }
  }

  // ------------------------------------------------------------ geometry of the metric

  function Step(m: Metric, dx: int, dy: int): nat { if dx != 0 && dy != 0 then m.Diagonal() else m.Axial() }

  // One step changes the distance by at most its weight.
  lemma NormLipschitz(m: Metric, dx: int, dy: int, sx: int, sy: int)
    requires -1 <= sx <= 1 && -1 <= sy <= 1 && (sx != 0 || sy != 0)
    ensures Norm(m, dx + sx, dy + sy) <= Norm(m, dx, dy) + Step(m, sx, sy)
  {
    hide Abs, Radius, Metric.Axial, Metric.Diagonal;
    AbsStep(dx, sx);
    AbsStep(dy, sy);
    RadiusStep(m, Abs(dx), Abs(dy), Abs(dx + sx), Abs(dy + sy), sx != 0, sy != 0);
  }

  lemma RadiusStep(m: Metric, a: nat, b: nat, a': nat, b': nat, p: bool, q: bool)
    requires a' <= a + (if p then 1 else 0) && b' <= b + (if q then 1 else 0) && (p || q)
    ensures Radius(m, a', b') <= Radius(m, a, b) + if p && q then m.Diagonal() else m.Axial()
  {
  }

  lemma AbsStep(a: int, s: int)
    requires -1 <= s <= 1
    ensures Abs(a + s) <= Abs(a) + if s == 0 then 0 else 1
  {
  }

  // The step from q towards p = q + (dx, dy) that is nearest to p on a best path.
  function TowardX(dx: int): int { if dx > 0 then 1 else if dx < 0 then -1 else 0 }

  lemma NormToward(m: Metric, dx: int, dy: int)
    requires dx != 0 || dy != 0
    ensures var sx, sy := TowardX(dx), TowardX(dy);
            Norm(m, dx, dy) == Norm(m, dx - sx, dy - sy) + Step(m, sx, sy)
  {
  }

  // ------------------------------------------------------------ the scan of one cell

  function Relax(m: Metric, v: nat, d: seq<nat>, w: nat, h: nat, x: int, y: int, k: nat): nat
    requires |d| == w * h
  {
    if InGrid(w, h, x, y) then MinOf(v, m.Add(At(d, w, h, x, y), k)) else v
  }

  // The value a scan in direction s (1 forward, -1 backward) gives a cell: the
  // four neighbours behind it are west, north, north-west and north-east,
  // mirrored for the backward scan.
  function Scanned(m: Metric, s: int, d: seq<nat>, w: nat, h: nat, x: int, y: int): nat
    requires |d| == w * h && InGrid(w, h, x, y)
  {
    var v0 := Relax(m, At(d, w, h, x, y), d, w, h, x - s, y, m.Axial());
    var v1 := Relax(m, v0, d, w, h, x, y - s, m.Axial());
    var v2 := Relax(m, v1, d, w, h, x - s, y - s, m.Diagonal());
    Relax(m, v2, d, w, h, x + s, y - s, m.Diagonal())
  }

  // The cell is at most each neighbour behind it plus the step.
  ghost predicate Tight(m: Metric, s: int, d: seq<nat>, w: nat, h: nat, x: int, y: int)
    requires |d| == w * h && InGrid(w, h, x, y)
  {
    var v := At(d, w, h, x, y);
    && (InGrid(w, h, x - s, y) ==> v <= At(d, w, h, x - s, y) + m.Axial())
    && (InGrid(w, h, x, y - s) ==> v <= At(d, w, h, x, y - s) + m.Axial())
    && (InGrid(w, h, x - s, y - s) ==> v <= At(d, w, h, x - s, y - s) + m.Diagonal())
    && (InGrid(w, h, x + s, y - s) ==> v <= At(d, w, h, x + s, y - s) + m.Diagonal())
  }

  // (x, y) comes before (ix, iy) in the scan.
  predicate Behind(s: int, x: int, y: int, ix: int, iy: int) {
    if s == 1 then y < iy || (y == iy && x < ix) else y > iy || (y == iy && x > ix)
  }

  ghost predicate TightBehind(m: Metric, s: int, d: seq<nat>, w: nat, h: nat, ix: int, iy: int)
    requires |d| == w * h
  {
    forall x, y :: InGrid(w, h, x, y) && Behind(s, x, y, ix, iy) ==> Tight(m, s, d, w, h, x, y)
  }

  ghost predicate LeqField(d: seq<nat>, e: seq<nat>, w: nat, h: nat)
    requires |d| == |e| == w * h
  {
    forall x, y :: InGrid(w, h, x, y) ==> At(d, w, h, x, y) <= At(e, w, h, x, y)
  }

  // ------------------------------------------------------------ one scan step

  // A sum below the cap is exact.
  lemma AddFacts(m: Metric, u: nat, k: nat)
    ensures m.Add(u, k) <= u + k && (m.Add(u, k) < m.Cap() ==> m.Add(u, k) == u + k)
  {
  }

  lemma RelaxSound(m: Metric, v: nat, d: seq<nat>, obs: seq<bool>, w: nat, h: nat, x: int, y: int, sx: int, sy: int)
    requires |d| == |obs| == w * h && Sound(m, m.Cap(), d, obs, w, h) && InGrid(w, h, x, y)
    requires -1 <= sx <= 1 && -1 <= sy <= 1 && (sx != 0 || sy != 0)
    requires v <= m.Cap() && (v < m.Cap() ==> Near(m, obs, w, h, x, y, v))
    ensures var r := Relax(m, v, d, w, h, x + sx, y + sy, Step(m, sx, sy));
            r <= v && (r < m.Cap() ==> Near(m, obs, w, h, x, y, r))
    ensures var r := Relax(m, v, d, w, h, x + sx, y + sy, Step(m, sx, sy));
            InGrid(w, h, x + sx, y + sy) ==> r <= At(d, w, h, x + sx, y + sy) + Step(m, sx, sy)
  {
    hide Near, Step, Metric.Cap, Metric.Add;
    if InGrid(w, h, x + sx, y + sy) {
      var u := At(d, w, h, x + sx, y + sy);
      AddFacts(m, u, Step(m, sx, sy));
      if u < m.Cap() { NearNext(m, obs, w, h, x, y, sx, sy, u); }
    }
  }

  // What is near a neighbour is near the cell at one step more.
  lemma NearNext(m: Metric, obs: seq<bool>, w: nat, h: nat, x: int, y: int, sx: int, sy: int, u: nat)
    requires |obs| == w * h && -1 <= sx <= 1 && -1 <= sy <= 1 && (sx != 0 || sy != 0)
    requires Near(m, obs, w, h, x + sx, y + sy, u)
    ensures Near(m, obs, w, h, x, y, u + Step(m, sx, sy))
  {
    hide Norm, Step;
    var qx, qy :| InGrid(w, h, qx, qy) && At(obs, w, h, qx, qy) && Norm(m, x + sx - qx, y + sy - qy) <= u;
    NormLipschitz(m, x + sx - qx, y + sy - qy, -sx, -sy);
    StepBack(m, sx, sy);
    assert x + sx - qx + -sx == x - qx && y + sy - qy + -sy == y - qy;
  }

  lemma StepBack(m: Metric, sx: int, sy: int)
    ensures Step(m, -sx, -sy) == Step(m, sx, sy)
  {
  }

  lemma ScannedSound(m: Metric, s: int, d: seq<nat>, obs: seq<bool>, w: nat, h: nat, x: int, y: int)
    requires |d| == |obs| == w * h && Sound(m, m.Cap(), d, obs, w, h) && InGrid(w, h, x, y) && (s == 1 || s == -1)
    ensures var v := Scanned(m, s, d, w, h, x, y);
      && v <= At(d, w, h, x, y) <= m.Cap() && (v < m.Cap() ==> Near(m, obs, w, h, x, y, v))
      && (InGrid(w, h, x - s, y) ==> v <= At(d, w, h, x - s, y) + m.Axial())
      && (InGrid(w, h, x, y - s) ==> v <= At(d, w, h, x, y - s) + m.Axial())
      && (InGrid(w, h, x - s, y - s) ==> v <= At(d, w, h, x - s, y - s) + m.Diagonal())
      && (InGrid(w, h, x + s, y - s) ==> v <= At(d, w, h, x + s, y - s) + m.Diagonal())
  {
    hide Norm, Relax, Near;
    var v0 := Relax(m, At(d, w, h, x, y), d, w, h, x - s, y, m.Axial());
    var v1 := Relax(m, v0, d, w, h, x, y - s, m.Axial());
    var v2 := Relax(m, v1, d, w, h, x - s, y - s, m.Diagonal());
    RelaxSound(m, At(d, w, h, x, y), d, obs, w, h, x, y, -s, 0);
    RelaxSound(m, v0, d, obs, w, h, x, y, 0, -s);
    RelaxSound(m, v1, d, obs, w, h, x, y, -s, -s);
    RelaxSound(m, v2, d, obs, w, h, x, y, s, -s);
  }

  // Scanning a cell in place keeps the field sound, lowers it at most there,
  // and makes the cell tight for good.
  lemma ScanStep(m: Metric, s: int, d: seq<nat>, obs: seq<bool>, w: nat, h: nat, x: int, y: int)
    requires |d| == |obs| == w * h && Sound(m, m.Cap(), d, obs, w, h) && InGrid(w, h, x, y) && (s == 1 || s == -1)
    requires TightBehind(m, s, d, w, h, x, y)
    ensures 0 <= y * w + x < |d|
    ensures var d' := d[y * w + x := Scanned(m, s, d, w, h, x, y)];
      && Sound(m, m.Cap(), d', obs, w, h) && TightBehind(m, s, d', w, h, x + s, y) && LeqField(d', d, w, h)
  {
    hide Norm, Scanned, Near;
    var v := Scanned(m, s, d, w, h, x, y);
    ScannedSound(m, s, d, obs, w, h, x, y);
    AtWrite(d, w, h, x, y, v);
    ScanTight(m, s, d, d[y * w + x := v], w, h, x, y, v);
    hide At, Tight, TightBehind;
  }

  // d' is d with v written at (x, y).
  ghost predicate Written(d: seq<nat>, d': seq<nat>, w: nat, h: nat, x: int, y: int, v: nat)
    requires |d| == |d'| == w * h
  {
    forall x', y' :: InGrid(w, h, x', y') ==>
      At(d', w, h, x', y') == if x' == x && y' == y then v else At(d, w, h, x', y')
  }

  lemma TightElsewhere(m: Metric, s: int, d: seq<nat>, d': seq<nat>, w: nat, h: nat, x: int, y: int, v: nat, x': int, y': int)
    requires |d| == |d'| == w * h && (s == 1 || s == -1) && Written(d, d', w, h, x, y, v)
    requires InGrid(w, h, x', y') && Behind(s, x', y', x, y) && Tight(m, s, d, w, h, x', y')
    ensures Tight(m, s, d', w, h, x', y')
  {
    hide Metric.Axial, Metric.Diagonal, Written;
    Elsewhere(d, d', w, h, x, y, v, x', y');
    if InGrid(w, h, x' - s, y') { Elsewhere(d, d', w, h, x, y, v, x' - s, y'); }
    if InGrid(w, h, x', y' - s) { Elsewhere(d, d', w, h, x, y, v, x', y' - s); }
    if InGrid(w, h, x' - s, y' - s) { Elsewhere(d, d', w, h, x, y, v, x' - s, y' - s); }
    if InGrid(w, h, x' + s, y' - s) { Elsewhere(d, d', w, h, x, y, v, x' + s, y' - s); }
  }

  lemma Elsewhere(d: seq<nat>, d': seq<nat>, w: nat, h: nat, x: int, y: int, v: nat, x': int, y': int)
    requires |d| == |d'| == w * h && Written(d, d', w, h, x, y, v) && InGrid(w, h, x', y')
    ensures x' != x || y' != y ==> At(d', w, h, x', y') == At(d, w, h, x', y')
  {
  }

  lemma TightHere(m: Metric, s: int, d: seq<nat>, d': seq<nat>, w: nat, h: nat, x: int, y: int, v: nat)
    requires |d| == |d'| == w * h && InGrid(w, h, x, y) && (s == 1 || s == -1) && Written(d, d', w, h, x, y, v)
    requires (InGrid(w, h, x - s, y) ==> v <= At(d, w, h, x - s, y) + m.Axial())
      && (InGrid(w, h, x, y - s) ==> v <= At(d, w, h, x, y - s) + m.Axial())
      && (InGrid(w, h, x - s, y - s) ==> v <= At(d, w, h, x - s, y - s) + m.Diagonal())
      && (InGrid(w, h, x + s, y - s) ==> v <= At(d, w, h, x + s, y - s) + m.Diagonal())
    ensures Tight(m, s, d', w, h, x, y)
  {
  }

  lemma ScanTight(m: Metric, s: int, d: seq<nat>, d': seq<nat>, w: nat, h: nat, x: int, y: int, v: nat)
    requires |d| == |d'| == w * h && InGrid(w, h, x, y) && (s == 1 || s == -1) && TightBehind(m, s, d, w, h, x, y)
    requires Written(d, d', w, h, x, y, v)
    requires (InGrid(w, h, x - s, y) ==> v <= At(d, w, h, x - s, y) + m.Axial())
      && (InGrid(w, h, x, y - s) ==> v <= At(d, w, h, x, y - s) + m.Axial())
      && (InGrid(w, h, x - s, y - s) ==> v <= At(d, w, h, x - s, y - s) + m.Diagonal())
      && (InGrid(w, h, x + s, y - s) ==> v <= At(d, w, h, x + s, y - s) + m.Diagonal())
    ensures TightBehind(m, s, d', w, h, x + s, y)
  {
    hide Tight, At, Written;
    TightHere(m, s, d, d', w, h, x, y, v);
    forall x', y' | InGrid(w, h, x', y') && Behind(s, x', y', x + s, y)
      ensures Tight(m, s, d', w, h, x', y')
    {
      if x' != x || y' != y {
        TightElsewhere(m, s, d, d', w, h, x, y, v, x', y');
      }
    }
  }

  // ------------------------------------------------------------ reaching obstacles

  // In a tight forward field with zero at q, every cell in the forward cone of
  // q is at most its distance from q.
  lemma {:induction false} ForwardReach(m: Metric, d: seq<nat>, w: nat, h: nat, qx: int, qy: int, x: int, y: int)
    requires |d| == w * h && TightBehind(m, 1, d, w, h, 0, h)
    requires InGrid(w, h, qx, qy) && InGrid(w, h, x, y) && At(d, w, h, qx, qy) == 0
    requires y >= qy && x - qx >= -(y - qy)
    ensures At(d, w, h, x, y) <= Norm(m, x - qx, y - qy)
    decreases y - qy + Abs(x - qx)
  {
    hide Norm, TightBehind, Tight;
    if x != qx || y != qy {
      var sx, sy := TowardX(x - qx), TowardX(y - qy);
      NormToward(m, x - qx, y - qy);
      TightTowards(m, d, w, h, x, y, sx, sy);
      ForwardReach(m, d, w, h, qx, qy, x - sx, y - sy);
      assert x - qx - sx == x - sx - qx && y - qy - sy == y - sy - qy;
    }
  }

  // In a tight forward field a cell is within one step of the cell before it.
  lemma TightTowards(m: Metric, d: seq<nat>, w: nat, h: nat, x: int, y: int, sx: int, sy: int)
    requires |d| == w * h && TightBehind(m, 1, d, w, h, 0, h) && InGrid(w, h, x, y) && InGrid(w, h, x - sx, y - sy)
    requires -1 <= sx <= 1 && (sy == 1 || (sy == 0 && sx == 1))
    ensures At(d, w, h, x, y) <= At(d, w, h, x - sx, y - sy) + Step(m, sx, sy)
  {
    hide TightBehind;
    assert Tight(m, 1, d, w, h, x, y) by { TightAt(m, d, w, h, x, y); }
    if sy == 0 {
      assert x - sx == x - 1 && y - sy == y;
    } else if sx == 1 {
      assert x - sx == x - 1 && y - sy == y - 1;
    } else if sx == 0 {
      assert x - sx == x && y - sy == y - 1;
    } else {
      assert x - sx == x + 1 && y - sy == y - 1;
    }
  }

  lemma TightAt(m: Metric, d: seq<nat>, w: nat, h: nat, x: int, y: int)
    requires |d| == w * h && TightBehind(m, 1, d, w, h, 0, h) && InGrid(w, h, x, y)
    ensures Tight(m, 1, d, w, h, x, y)
  {
    assert Behind(1, x, y, 0, h);
  }

  lemma TightBack(m: Metric, d: seq<nat>, w: nat, h: nat, x: int, y: int, sx: int, sy: int)
    requires |d| == w * h && TightBehind(m, -1, d, w, h, w - 1, -1)
    requires InGrid(w, h, x, y) && InGrid(w, h, x - sx, y - sy)
    requires -1 <= sx <= 1 && (sy == -1 || (sy == 0 && sx == -1))
    ensures At(d, w, h, x, y) <= At(d, w, h, x - sx, y - sy) + Step(m, sx, sy)
  {
    hide Metric.Axial, Metric.Diagonal;
    assert Tight(m, -1, d, w, h, x, y);
  }

  // In a tight backward field below d1, every cell in the backward cone of r
  // is at most d1 at r plus its distance from r.
  lemma {:induction false} BackwardReach(m: Metric, d: seq<nat>, d1: seq<nat>, w: nat, h: nat, rx: int, ry: int, x: int, y: int)
    requires |d| == |d1| == w * h && TightBehind(m, -1, d, w, h, w - 1, -1) && LeqField(d, d1, w, h)
    requires InGrid(w, h, rx, ry) && InGrid(w, h, x, y)
    requires y <= ry && x - rx <= ry - y
    ensures At(d, w, h, x, y) <= At(d1, w, h, rx, ry) + Norm(m, x - rx, y - ry)
    decreases ry - y + Abs(x - rx)
  {
    if x != rx || y != ry {
      var sx, sy := TowardX(x - rx), TowardX(y - ry);
      hide Norm, Step, TightBehind;
      NormToward(m, x - rx, y - ry);
      TightBack(m, d, w, h, x, y, sx, sy);
      BackwardReach(m, d, d1, w, h, rx, ry, x - sx, y - sy);
      assert x - rx - sx == x - sx - rx && y - ry - sy == y - sy - ry;
    }
  }

  // Two tight scans reach every cell from every obstacle: directly inside one
  // of the two cones, through one turning cell otherwise.
  lemma TwoScansReach(m: Metric, d1: seq<nat>, d2: seq<nat>, w: nat, h: nat, qx: int, qy: int, x: int, y: int)
    requires |d1| == |d2| == w * h && TightBehind(m, 1, d1, w, h, 0, h)
    requires TightBehind(m, -1, d2, w, h, w - 1, -1) && LeqField(d2, d1, w, h)
    requires InGrid(w, h, qx, qy) && InGrid(w, h, x, y) && At(d1, w, h, qx, qy) == 0
    ensures At(d2, w, h, x, y) <= Norm(m, x - qx, y - qy)
  {
    hide At, TightBehind, Tight;
    var dx, dy := x - qx, y - qy;
    if dy >= 0 {
      var rx := if dx >= -dy then x else qx - dy;
      ForwardReach(m, d1, w, h, qx, qy, rx, y);
      BackwardReach(m, d2, d1, w, h, rx, y, x, y);
    } else {
      var rx := if dx <= -dy then qx else qx + (dx + dy);
      ForwardReach(m, d1, w, h, qx, qy, rx, qy);
      BackwardReach(m, d2, d1, w, h, rx, qy, x, y);
    }
  }
}
