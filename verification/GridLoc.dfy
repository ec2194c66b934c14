/** utils/tile_splitter/grid.py: check_grid_loc. */
module GridLoc {
  import opened Sequences
  import opened Matrix

  datatype Loc = Loc(x: nat, y: nat)

  /** Exactly the locations of a w by h grid. */
  ghost predicate IsGrid<T>(m: map<Loc, T>, w: nat, h: nat) {
    forall l :: l in m <==> l.x < w && l.y < h
  }

  method MaxCoordinates<T>(m: map<Loc, T>) returns (w: nat, h: nat)
    requires m.Keys != {}
    ensures forall l :: l in m ==> l.x <= w && l.y <= h
    ensures (exists l :: l in m && l.x == w) && exists l :: l in m && l.y == h
  {
    var left := m.Keys;
    var first :| first in left;
    w, h := first.x, first.y;
    while left != {}
      invariant left <= m.Keys
      invariant forall l :: l in m && l !in left ==> l.x <= w && l.y <= h
      invariant (exists l :: l in m && l.x == w) && exists l :: l in m && l.y == h
      decreases left
    {
      var l :| l in left;
      left := left - {l};
      if l.x > w { w := l.x; }
      if l.y > h { h := l.y; }
    }
  }

  /** Accepts exactly the full rectangles that start at (0, 0). */
  method CheckGridLoc<T>(m: map<Loc, T>) returns (ok: bool)
    ensures ok <==> exists w: nat, h: nat :: w > 0 && h > 0 && IsGrid(m, w, h)
  {
    if m.Keys == {} {
      forall w: nat, h: nat | w > 0 && h > 0 ensures !IsGrid(m, w, h) {
        assert Loc(0, 0) !in m;
      }
      return false;
    }
    var maxX, maxY := MaxCoordinates(m);
    for x := 0 to maxX + 1
      invariant forall l: Loc :: l.x < x && l.y <= maxY ==> l in m
    {
      for y := 0 to maxY + 1
        invariant forall l: Loc :: (l.x < x && l.y <= maxY) || (l.x == x && l.y < y) ==> l in m
      {
        if Loc(x, y) !in m {
          Missing(m, maxX, maxY, Loc(x, y));
          return false;
        }
      }
    }
    assert IsGrid(m, maxX + 1, maxY + 1);
    return true;
  }

  lemma Missing<T>(m: map<Loc, T>, maxX: nat, maxY: nat, gap: Loc)
    requires (exists l :: l in m && l.x == maxX) && exists l :: l in m && l.y == maxY
    requires gap.x <= maxX && gap.y <= maxY && gap !in m
    ensures forall w: nat, h: nat :: !IsGrid(m, w, h)
  {
    var a :| a in m && a.x == maxX;
    var b :| b in m && b.y == maxY;
    forall w: nat, h: nat ensures !IsGrid(m, w, h) {
      if IsGrid(m, w, h) { assert false; }
    }
  }
}
