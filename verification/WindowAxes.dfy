// The local window: how its fore and aft half axes follow the motion.
module WindowAxes {
  import opened Basics

  datatype Shape = Square | Circle | Ellipse | Capsule {
    predicate Oriented() { !Square? }
    predicate Dynamic() { Ellipse? || Capsule? }
  }

  function Max(a: real, b: real): real { if a < b then b else a }
  function Min(a: real, b: real): real { if a < b then a else b }
  function Abs(a: real): real { if a < 0.0 then -a else a }
  function Clamp(x: real, lo: real, hi: real): real { if x < lo then lo else if x > hi then hi else x }

  // Metres to cells, truncated as `as i32` does for values that are not negative.
  function Cells(x: real, res: real): int
    requires res > 0.0
  {
    (x / res).Floor
  }

  // Forward displacements below this many cells are noise.
  const DEADBAND: real := 0.3

  datatype Config = Config(shape: Shape, range: real, latOpt: real, ratio: real, slew: real, fwRef: real) {
    function Lat(): real { if latOpt > 0.0 then latOpt else range }

    // The largest half axis the shape can take.
    function Longest(): real { Max(range * Max(ratio, 1.0), Lat()) }

    // What the bounding radius truncates.
    function Extent(): real { if shape.Oriented() then Longest() else Max(range, Lat()) }

    // Radii of the bounding rectangle, in cells.
    function RadiiCells(res: real): (int, int)
      requires res > 0.0
    {
      if shape.Oriented() then
        var m := Cells(Longest(), res);
        (m, m)
      else (Cells(range, res), Cells(Lat(), res))
    }

    function BboxCells(res: real): int
      requires res > 0.0
    {
      var (rx, ry) := RadiiCells(res);
      if rx < ry then ry else rx
    }

    predicate Valid() { range > 0.0 }

    // The smallest half axis, sideways included, as the margin inflation assumes it.
    function MinRadius(): real { Min(if shape.Dynamic() then range / Max(ratio, 1.0) else range, Lat()) }

    // The range of the fore and aft half axes.
    function Shortest(): real { if Deforms() then range / ratio else range }
    function Reach(): real { if Deforms() then 2.0 * range - range / ratio else range }

    // m is a half axis the shape can take, fore, aft or sideways.
    predicate HasAxis(m: real) { Shortest() <= m <= Reach() || m == Lat() }

    // The bounding radius reaches as far as every half axis.
    ghost predicate Covered(res: real)
      requires res > 0.0
    {
      forall axis: real :: HasAxis(Metres(axis, res)) ==> axis <= BboxCells(res) as real
    }

    predicate Deforms() { shape.Dynamic() && ratio > 1.0 && fwRef > 0.0 }

    // Where the forward axis wants to be for a displacement.
    function Goal(disp: real): real
      requires Deforms()
    {
      var v := Clamp(disp / fwRef, -1.0, 1.0);
      var lo := range / ratio;
      var hi := Min(2.0 * range - lo, range * ratio);
      Clamp(Wish(v), lo, hi)
    }

    // The reach for a relative speed v in [-1, 1].
    function Wish(v: real): real { range * (1.0 + (ratio - 1.0) * v) }

    // One call moves the axis towards its goal, by at most the slew.
    function Next(cur: real, disp: real): real
      requires Deforms()
    {
      if slew > 0.0 then Clamp(Goal(disp), cur - slew, cur + slew) else Goal(disp)
    }
  }

  // The upper clamp of the code is always the first of its two candidates.
  lemma UpperIsSum(c: Config)
    requires c.Valid() && c.Deforms()
    ensures c.range / c.ratio <= c.range <= 2.0 * c.range - c.range / c.ratio <= c.range * c.ratio
  {
    var (r, p) := (c.range, c.ratio);
    var lo := r / p;
    assert lo * p == r;
    Scale(p - 1.0, p - 1.0);
    Scale(lo, (p - 1.0) * (p - 1.0));
    assert lo * ((p - 1.0) * (p - 1.0)) == r * p - 2.0 * r + lo by { Expand(lo, p, r); }
    Scale(lo, p - 1.0);
  }

  lemma Scale(a: real, b: real)
    requires a > 0.0 && b >= 0.0
    ensures a * b >= 0.0
  {
  }

  lemma Expand(lo: real, p: real, r: real)
    requires lo * p == r
    ensures lo * ((p - 1.0) * (p - 1.0)) == r * p - 2.0 * r + lo
  {
    assert lo * ((p - 1.0) * (p - 1.0)) == (lo * p) * p - 2.0 * (lo * p) + lo;
  }

  lemma WishSide(c: Config, v: real)
    requires c.Valid() && c.Deforms()
    ensures v >= 0.0 ==> c.Wish(v) >= c.range
    ensures v <= 0.0 ==> c.Wish(v) <= c.range
    ensures v == 1.0 ==> c.Wish(v) == c.range * c.ratio
  {
    var k := c.ratio - 1.0;
    assert c.Wish(v) == c.range + c.range * (k * v);
    if v >= 0.0 {
      Scale(k, v);
      Scale(c.range, k * v);
    } else {
      Scale(k, -v);
      Scale(c.range, k * -v);
      assert c.range * (k * -v) == -(c.range * (k * v));
    }
  }

  // The goal stays between the limits and follows the sign of the displacement.
  lemma GoalSide(c: Config, disp: real)
    requires c.Valid() && c.Deforms()
    ensures c.range / c.ratio <= c.Goal(disp) <= 2.0 * c.range - c.range / c.ratio
    ensures disp >= 0.0 ==> c.Goal(disp) >= c.range
    ensures disp <= 0.0 ==> c.Goal(disp) <= c.range
    ensures disp >= c.fwRef ==> c.Goal(disp) == 2.0 * c.range - c.range / c.ratio
  {
    UpperIsSum(c);
    SignOf(disp, c.fwRef);
    WishSide(c, Clamp(disp / c.fwRef, -1.0, 1.0));
    hide Config.Wish;
  }

  lemma SignOf(a: real, b: real)
    requires b > 0.0
    ensures (a >= 0.0 ==> a / b >= 0.0) && (a <= 0.0 ==> a / b <= 0.0) && (a >= b ==> a / b >= 1.0)
  {
  }

  // ------------------------------------------------------------ the window

  // A number of cells in metres.
  function Metres(cells: real, res: real): real { cells * res }

  function Steps(n: nat, step: real): real { n as real * step }

  class Window {
    const cfg: Config
    const res: real
    var aFwd: real
    var aBwd: real
    var prev: Option<(real, real)>

    // The two half axes share 2r, and neither leaves [r/p, 2r - r/p].
    ghost predicate Valid()
      reads this
    {
      && res > 0.0 && cfg.Valid()
      && Metres(aFwd + aBwd, res) == 2.0 * cfg.range
      && cfg.Shortest() <= Metres(aFwd, res) <= cfg.Reach()
    }

    // Setting a shape starts from the symmetric window.
    constructor (cfg: Config, res: real)
      requires cfg.Valid() && res > 0.0
      ensures Valid() && this.cfg == cfg && this.res == res && prev == None && aFwd == aBwd
    {
      this.cfg, this.res := cfg, res;
      aFwd, aBwd := cfg.range / res, cfg.range / res;
      prev := None;
      Shared(cfg.range, cfg.range, res);
      if cfg.Deforms() { UpperIsSum(cfg); }
    }

    // One pose, with the cosine and sine of its heading.
    method UpdateAxes(x: real, y: real, c: real, s: real)
      requires Valid()
      modifies this
      ensures Valid() && prev == Some((x, y))
      ensures cfg.Deforms() && old(prev).Some? && Abs(Forward(old(prev).value, x, y, c, s)) >= 0.3 * res ==>
        Metres(aFwd, res) == cfg.Next(Metres(old(aFwd), res), Forward(old(prev).value, x, y, c, s))
      ensures !(cfg.Deforms() && old(prev).Some? && Abs(Forward(old(prev).value, x, y, c, s)) >= 0.3 * res) ==>
        aFwd == old(aFwd) && aBwd == old(aBwd)
      ensures cfg.slew > 0.0 ==> Abs(Metres(aFwd, res) - Metres(old(aFwd), res)) <= cfg.slew
    {
      var last := prev;
      prev := Some((x, y));
      if !cfg.shape.Dynamic() || cfg.ratio <= 1.0 || cfg.fwRef <= 0.0 { return; }
      if last.None? { return; }
      var disp := Forward(last.value, x, y, c, s);
      if Abs(disp) < DEADBAND * res { return; }
      hide Forward, Config.Goal, Config.Next, Metres;
      var cur := Metres(aFwd, res);
      NextSide(cfg, cur, disp);
      var next := cfg.Next(cur, disp);
      aFwd := next / res;
      aBwd := (2.0 * cfg.range - next) / res;
      Shared(next, 2.0 * cfg.range - next, res);
    }

    // A whole drive: the window stays valid, and n calls move an axis by at
    // most n times the slew.
    method Drive(poses: seq<(real, real, real, real)>)
      requires Valid()
      modifies this
      ensures Valid()
      ensures cfg.slew > 0.0 ==> Abs(Metres(aFwd, res) - Metres(old(aFwd), res)) <= Steps(|poses|, cfg.slew)
    {
      ghost var start := Metres(aFwd, res);
      StepsNext(0, cfg.slew);
      hide Forward, Config.Next, Config.Deforms, Valid, Metres, Steps;
      for k := 0 to |poses|
        invariant Valid() && (cfg.slew > 0.0 ==> Abs(Metres(aFwd, res) - start) <= Steps(k, cfg.slew))
      {
        var (x, y, c, s) := poses[k];
        UpdateAxes(x, y, c, s);
        StepsNext(k, cfg.slew);
      }
    }
  }

  // Displacement along the heading.
  function Forward(p: (real, real), x: real, y: real, c: real, s: real): real { (x - p.0) * c + (y - p.1) * s }

  lemma Shared(a: real, b: real, res: real)
    requires res > 0.0
    ensures Metres(a / res, res) == a && Metres(b / res, res) == b && Metres(a / res + b / res, res) == a + b
  {
    assert (a / res + b / res) * res == a / res * res + b / res * res;
  }

  lemma StepsNext(k: nat, step: real)
    ensures Steps(0, step) == 0.0 && Steps(k + 1, step) == Steps(k, step) + step
  {
    assert (k + 1) as real * step == k as real * step + step;
  }

  // Moving forward never shortens a forward axis that is at most its rest
  // length; backing up never lengthens one that is at least that.
  lemma NextSide(c: Config, cur: real, disp: real)
    requires c.Valid() && c.Deforms() && c.range / c.ratio <= cur <= 2.0 * c.range - c.range / c.ratio
    ensures c.range / c.ratio <= c.Next(cur, disp) <= 2.0 * c.range - c.range / c.ratio
    ensures disp >= 0.0 && cur <= c.range ==> cur <= c.Next(cur, disp)
    ensures disp <= 0.0 && cur >= c.range ==> c.Next(cur, disp) <= cur
    ensures c.slew > 0.0 ==> Abs(c.Next(cur, disp) - cur) <= c.slew
  {
    GoalSide(c, disp);
    hide Config.Goal;
  }

  // Both half axes of a valid window are among those its shape can take.
  lemma WindowHasAxes(w: Window)
    requires w.Valid()
    ensures w.cfg.HasAxis(Metres(w.aFwd, w.res)) && w.cfg.HasAxis(Metres(w.aBwd, w.res))
  {
    assert Metres(w.aFwd + w.aBwd, w.res) == Metres(w.aFwd, w.res) + Metres(w.aBwd, w.res) by {
      SumMetres(w.aFwd, w.aBwd, w.res);
    }
    hide Metres;
  }

  lemma SumMetres(a: real, b: real, res: real)
    ensures Metres(a + b, res) == Metres(a, res) + Metres(b, res)
  {
  }

  // No half axis is below the minimum radius, or beyond what the bounding radius
  // truncates.
  lemma AxisRange(c: Config)
    requires c.Valid()
    ensures 0.0 < c.MinRadius() <= c.Shortest() <= c.Reach() && 0.0 < c.Lat()
    ensures c.MinRadius() <= c.Lat()
    ensures c.Reach() <= c.Extent() && c.Lat() <= c.Extent() && (c.Deforms() ==> c.Reach() < c.range * c.ratio)
  {
    var (r, p) := (c.range, c.ratio);
    hide Config.Lat, Config.Longest;
    LongestIs(c);
    LatPositive(c);
    if p > 1.0 { Stretched(r, p); }
  }

  lemma LongestIs(c: Config)
    ensures c.Longest() == if c.ratio > 1.0 then Max(c.range * c.ratio, c.Lat()) else Max(c.range, c.Lat())
  {
  }

  lemma LatPositive(c: Config)
    requires c.Valid()
    ensures c.Lat() > 0.0
  {
  }

  lemma Stretched(r: real, p: real)
    requires r > 0.0 && p > 1.0
    ensures 0.0 < r / p < r < 2.0 * r - r / p < r * p
  {
    var lo := r / p;
    assert lo * p == r;
    Expand(lo, p, r);
    PositiveSquare(lo, p - 1.0);
    Positive(lo, p - 1.0);
  }

  lemma PositiveSquare(a: real, b: real)
    requires a > 0.0 && b > 0.0
    ensures a * (b * b) > 0.0
  {
    Positive(a, b);
    Positive(a * b, b);
    assert a * b * b == a * (b * b);
  }

  lemma Positive(a: real, b: real)
    requires a > 0.0 && b > 0.0
    ensures a * b > 0.0
  {
  }

  // The bounding radius is one truncated length.
  lemma BboxIs(c: Config, res: real)
    requires res > 0.0
    ensures c.BboxCells(res) == Cells(c.Extent(), res)
  {
    hide Config.Longest, Config.Lat, Cells;
    if c.range < c.Lat() { CellsGrow(c.range, c.Lat(), res); } else { CellsGrow(c.Lat(), c.range, res); }
  }

  lemma CellsGrow(a: real, b: real, res: real)
    requires res > 0.0 && a <= b
    ensures Cells(a, res) <= Cells(b, res)
  {
    Shared(a, b, res);
    if a / res > b / res { Longer(a / res, b / res, res); }
  }

  // The goal is the resting length changed in proportion to the speed, cut off at
  // the two limits; that the speed is cut off before is never felt.
  lemma GoalIs(c: Config, disp: real)
    requires c.Valid() && c.Deforms()
    ensures c.Goal(disp) == Clamp(c.Wish(disp / c.fwRef), c.range / c.ratio, 2.0 * c.range - c.range / c.ratio)
    ensures forall v: real :: c.Wish(v) == c.range * (1.0 + (c.ratio - 1.0) * v)
    ensures disp >= c.fwRef ==> c.Goal(disp) == 2.0 * c.range - c.range / c.ratio
    ensures disp <= -c.fwRef ==> c.Goal(disp) == c.range / c.ratio
    ensures disp == 0.0 ==> c.Goal(disp) == c.range
  {
    GoalOfWish(c, disp);
    hide Config.Goal, Clamp;
  }

  lemma GoalOfWish(c: Config, disp: real)
    requires c.Valid() && c.Deforms()
    ensures c.Goal(disp) == Clamp(c.Wish(disp / c.fwRef), c.range / c.ratio, 2.0 * c.range - c.range / c.ratio)
    ensures disp >= c.fwRef ==> c.Goal(disp) == 2.0 * c.range - c.range / c.ratio
    ensures disp <= -c.fwRef ==> c.Goal(disp) == c.range / c.ratio
    ensures disp == 0.0 ==> c.Goal(disp) == c.range
  {
    hide Config.Wish;
    var v := disp / c.fwRef;
    UpperIsSum(c);
    SpeedOf(disp, c.fwRef);
    WishEnds(c);
    if v >= 1.0 { WishGrows(c, v, 1.0); }
    if v <= -1.0 { WishGrows(c, -1.0, v); }
  }

  lemma WishEnds(c: Config)
    requires c.Valid() && c.Deforms()
    ensures c.Wish(1.0) >= 2.0 * c.range - c.range / c.ratio && c.Wish(0.0) == c.range && c.Wish(-1.0) <= c.range / c.ratio
  {
    UpperIsSum(c);
    var (r, p) := (c.range, c.ratio);
    assert r / p * p == r;
    Expand(r / p, p, r);
    PositiveSquare(r / p, p - 1.0);
  }

  lemma WishGrows(c: Config, a: real, b: real)
    requires c.Valid() && c.Deforms() && a >= b
    ensures c.Wish(a) >= c.Wish(b)
  {
    var k := c.ratio - 1.0;
    Steeper(k, a, b);
    Steeper(c.range, 1.0 + k * a, 1.0 + k * b);
  }

  lemma SpeedOf(a: real, b: real)
    requires b > 0.0
    ensures (a >= b ==> a / b >= 1.0) && (a <= -b ==> a / b <= -1.0) && (a == 0.0 ==> a / b == 0.0)
  {
    var q := a / b;
    assert q * b == a;
    if a >= b && q < 1.0 { Stretch(1.0, q, b); }
    if a <= -b && q > -1.0 { Stretch(q, -1.0, b); }
  }

  lemma Steeper(k: real, a: real, b: real)
    requires k > 0.0 && a >= b
    ensures k * a >= k * b
  {
  }

  // One call reaches the goal when it is within the slew (or there is none), and
  // otherwise moves towards it by exactly the slew.
  lemma NextReaches(c: Config, cur: real, disp: real)
    requires c.Valid() && c.Deforms()
    ensures c.slew <= 0.0 || Abs(c.Goal(disp) - cur) <= c.slew ==> c.Next(cur, disp) == c.Goal(disp)
    ensures c.slew > 0.0 && c.Goal(disp) - cur > c.slew ==> c.Next(cur, disp) == cur + c.slew
    ensures c.slew > 0.0 && cur - c.Goal(disp) > c.slew ==> c.Next(cur, disp) == cur - c.slew
  {
    hide Config.Goal;
  }

  // Driving d along a heading is a displacement of d, whatever is added across it.
  lemma ForwardAlong(p: (real, real), d: real, e: real, c: real, s: real)
    requires c * c + s * s == 1.0
    ensures Forward(p, p.0 + d * c - e * s, p.1 + d * s + e * c, c, s) == d
  {
    assert (d * c - e * s) * c + (d * s + e * c) * s == d * (c * c + s * s);
  }

  // Every half axis of every shape, fore, aft or sideways, is at least the minimum
  // radius and at most the length the bounding radius truncates, so in cells it
  // stays below the bounding radius plus one.
  lemma WithinRadius(c: Config, res: real, axis: real)
    requires c.Valid() && res > 0.0 && c.HasAxis(Metres(axis, res))
    ensures 0.0 < c.MinRadius() <= Metres(axis, res) <= c.Extent()
    ensures axis < c.BboxCells(res) as real + 1.0
  {
    AxisRange(c);
    BboxIs(c, res);
    hide Config.MinRadius, Config.Shortest, Config.Reach, Config.Lat, Config.Extent, Config.BboxCells, Metres;
    CellsAtMost(axis, res, c.Extent());
  }

  lemma Longer(a: real, b: real, res: real)
    requires a > b && res > 0.0
    ensures Metres(a, res) > Metres(b, res)
  {
    Stretch(a, b, res);
  }

  lemma CellsAtMost(axis: real, res: real, m: real)
    requires res > 0.0 && Metres(axis, res) <= m
    ensures axis <= m / res
  {
    Shared(m, 0.0, res);
    if axis > m / res { Longer(axis, m / res, res); }
  }

  // The bounding radius covers every half axis the shape can take, fore, aft and
  // sideways, exactly when the truncated radius covers the longest of them; and
  // where that is the length truncated, exactly when it is a whole number of cells.
  lemma RadiusCoversIff(c: Config, res: real)
    requires c.Valid() && res > 0.0
    ensures c.Covered(res) <==> Max(c.Reach(), c.Lat()) <= Metres(c.BboxCells(res) as real, res)
    ensures Max(c.Reach(), c.Lat()) == c.Extent() ==> (c.Covered(res) <==> Metres(c.BboxCells(res) as real, res) == c.Extent())
  {
    AxisRange(c);
    BboxIs(c, res);
    TruncatedBelow(c.Extent(), res);
    var (top, box) := (Max(c.Reach(), c.Lat()), c.BboxCells(res) as real);
    Shared(top, 0.0, res);
    assert c.HasAxis(Metres(top / res, res));
    hide Config.Shortest, Config.Reach, Config.Lat, Config.Extent, Config.BboxCells, Metres, Cells;
    if top <= Metres(box, res) {
      forall axis: real | c.HasAxis(Metres(axis, res))
        ensures axis <= box
      {
        if axis > box { Longer(axis, box, res); }
      }
    } else if top / res <= box {
      if top / res < box { Longer(box, top / res, res); }
      assert false;
    }
  }

  lemma TruncatedBelow(m: real, res: real)
    requires res > 0.0
    ensures Metres(Cells(m, res) as real, res) <= m
  {
    Shared(m, 0.0, res);
    var k := Cells(m, res) as real;
    assert k <= m / res;
    if k < m / res { Longer(m / res, k, res); }
  }

  // The truncation can cut a fully stretched axis, 10 cells of radius for an axis
  // of more than 10.09, and a lateral one, 11 cells for one of 11.9.
  lemma RadiusCanBeShort()
    ensures var c := Config(Ellipse, 1.0, 0.5, 1.01, 0.0, 1.0);
            && c.Valid() && c.Deforms() && c.BboxCells(0.1) == 10
            && c.Next(1.0, 1.0) > 1.009 && c.Next(1.0, 1.0) / 0.1 > 10.09
    ensures var c := Config(Ellipse, 1.0, 1.19, 1.01, 0.0, 1.0);
            && c.Valid() && c.BboxCells(0.1) == 11 && c.Lat() / 0.1 == 11.9
            && c.Reach() <= Metres(11.0, 0.1) && !c.Covered(0.1)
  {
    var c := Config(Ellipse, 1.0, 0.5, 1.01, 0.0, 1.0);
    GoalSide(c, 1.0);
    assert 1.0 / 1.01 < 0.9901;
    assert Cells(1.01, 0.1) == 10;
    var d := Config(Ellipse, 1.0, 1.19, 1.01, 0.0, 1.0);
    assert Cells(1.19, 0.1) == 11;
    assert d.BboxCells(0.1) == 11;
    assert 1.0 / 1.01 > 0.99;
    RadiusCoversIff(d, 0.1);
  }
}
