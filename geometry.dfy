/** The optional value used wherever the source uses a null reference. */
module Options {
  datatype Option<+T> = None | Some(value: T)
}

/**
 * The slice of WPF's Point and Rect value types that the core relies on.
 * Coordinates are real numbers: IEEE rounding, infinities and NaN are not part of this model.
 * A Rect is either the distinguished empty rectangle or a box given by its top-left corner
 * and its size.
 */
module Geometry {

  datatype Point = Point(x: real, y: real)

  datatype Size = Size(width: real, height: real)

  datatype Rect = Empty | Box(x: real, y: real, width: real, height: real)
  {
    /** WPF refuses a negative width or height when a rectangle is built or assigned. */
    predicate WellFormed() {
      Box? ==> width >= 0.0 && height >= 0.0
    }

    function Right(): real
      requires Box?
    {
      x + width
    }

    function Bottom(): real
      requires Box?
    {
      y + height
    }
  }

  function Min(a: real, b: real): real { if a <= b then a else b }

  function Max(a: real, b: real): real { if a >= b then a else b }

  function Abs(a: real): real { if a < 0.0 then -a else a }

  /** Rect.IntersectsWith: the empty rectangle meets nothing; boxes meet when they overlap or touch. */
  predicate Intersects(a: Rect, b: Rect)
  {
    a.Box? && b.Box? &&
    b.x <= a.Right() && b.Right() >= a.x && b.y <= a.Bottom() && b.Bottom() >= a.y
  }

  /** Rect.Contains(Point). */
  predicate ContainsPoint(r: Rect, p: Point)
  {
    r.Box? && r.x <= p.x <= r.Right() && r.y <= p.y <= r.Bottom()
  }

  /** Rect.Contains(Rect): every point of b lies in a. */
  predicate ContainsRect(a: Rect, b: Rect)
  {
    a.Box? && b.Box? &&
    a.x <= b.x && a.y <= b.y && b.Right() <= a.Right() && b.Bottom() <= a.Bottom()
  }

  /** Rect.Union: the smallest rectangle holding both; the empty rectangle is the neutral element. */
  function Union(a: Rect, b: Rect): (u: Rect)
    requires a.WellFormed() && b.WellFormed()
    ensures u.WellFormed()
    ensures a.Box? ==> ContainsRect(u, a)
    ensures b.Box? ==> ContainsRect(u, b)
    ensures u.Empty? <==> a.Empty? && b.Empty?
    ensures a.Empty? ==> u == b
    ensures b.Empty? ==> u == a
  {
    if a.Empty? then b
    else if b.Empty? then a
    else
      var left := Min(a.x, b.x);
      var top := Min(a.y, b.y);
      Box(left, top, Max(a.Right(), b.Right()) - left, Max(a.Bottom(), b.Bottom()) - top)
  }

  /** The union is the smallest rectangle holding both: any box holding each non-empty one holds it. */
  lemma UnionSmallest(a: Rect, b: Rect, s: Rect)
    requires a.WellFormed() && b.WellFormed()
    requires !(a.Empty? && b.Empty?)
    requires a.Box? ==> ContainsRect(s, a)
    requires b.Box? ==> ContainsRect(s, b)
    ensures ContainsRect(s, Union(a, b))
  {
  }

  /**
   * Rect.Inflate(dx, dy) on a box: each side moves outward by dx or dy; a rectangle whose size
   * would turn negative becomes the empty rectangle. (WPF throws when the receiver is empty.)
   */
  function Inflate(r: Rect, dx: real, dy: real): (s: Rect)
    requires r.Box?
    ensures s.Box? ==> s.WellFormed() && s.x == r.x - dx && s.y == r.y - dy
    ensures s.Box? ==> s.Right() == r.Right() + dx && s.Bottom() == r.Bottom() + dy
    ensures s.Empty? <==> r.width + 2.0 * dx < 0.0 || r.height + 2.0 * dy < 0.0
  {
    var w := r.width + dx + dx;
    var h := r.height + dy + dy;
    if w >= 0.0 && h >= 0.0 then Box(r.x - dx, r.y - dy, w, h) else Empty
  }

  /** Folding Rect.Union over a list of bounds from left to right, as the extent getter does. */
  function UnionAll(acc: Rect, rs: seq<Rect>): (u: Rect)
    requires acc.WellFormed() && forall i :: 0 <= i < |rs| ==> rs[i].WellFormed()
    ensures u.WellFormed()
    decreases |rs|
  {
    if rs == [] then acc else UnionAll(Union(acc, rs[0]), rs[1..])
  }

  predicate AllWellFormed(rs: seq<Rect>)
  {
    forall i :: 0 <= i < |rs| ==> rs[i].WellFormed()
  }

  /** Containment is transitive. */
  lemma ContainsTrans(a: Rect, b: Rect, c: Rect)
    requires ContainsRect(a, b) && ContainsRect(b, c)
    ensures ContainsRect(a, c)
  {
  }

  /** The folded union covers the starting rectangle and every non-empty rectangle of the list. */
  lemma {:induction false} UnionAllCovers(acc: Rect, rs: seq<Rect>)
    requires acc.WellFormed() && AllWellFormed(rs)
    ensures acc.Box? ==> ContainsRect(UnionAll(acc, rs), acc)
    ensures forall i :: 0 <= i < |rs| && rs[i].Box? ==> ContainsRect(UnionAll(acc, rs), rs[i])
    decreases |rs|
  {
    if rs != [] {
      var next := Union(acc, rs[0]);
      UnionAllCovers(next, rs[1..]);
      assert UnionAll(acc, rs) == UnionAll(next, rs[1..]);
      if acc.Box? {
        ContainsTrans(UnionAll(acc, rs), next, acc);
      }
      if rs[0].Box? {
        ContainsTrans(UnionAll(acc, rs), next, rs[0]);
      }
      forall i | 1 <= i < |rs| && rs[i].Box?
        ensures ContainsRect(UnionAll(acc, rs), rs[i])
      {
        assert rs[i] == rs[1..][i - 1];
      }
    }
  }

  /** The folded union is empty exactly when the start and every element are empty. */
  lemma {:induction false} UnionAllEmpty(acc: Rect, rs: seq<Rect>)
    requires acc.WellFormed() && AllWellFormed(rs)
    ensures UnionAll(acc, rs).Empty? <==> acc.Empty? && forall i :: 0 <= i < |rs| ==> rs[i].Empty?
    decreases |rs|
  {
    if rs != [] {
      UnionAllEmpty(Union(acc, rs[0]), rs[1..]);
      if UnionAll(acc, rs).Empty? {
        forall i | 0 <= i < |rs| ensures rs[i].Empty? {
          if i > 0 { assert rs[i] == rs[1..][i - 1]; }
        }
      }
    }
  }

  /** Folding over a concatenation is folding over the first part and then the second. */
  lemma {:induction false} UnionAllAppend(acc: Rect, rs: seq<Rect>, ts: seq<Rect>)
    requires acc.WellFormed() && AllWellFormed(rs) && AllWellFormed(ts)
    ensures AllWellFormed(rs + ts)
    ensures UnionAll(acc, rs + ts) == UnionAll(UnionAll(acc, rs), ts)
    decreases |rs|
  {
    if rs != [] {
      assert (rs + ts)[0] == rs[0];
      assert (rs + ts)[1..] == rs[1..] + ts;
      UnionAllAppend(Union(acc, rs[0]), rs[1..], ts);
      assert UnionAll(acc, rs + ts) == UnionAll(Union(acc, rs[0]), rs[1..] + ts);
    } else {
      assert rs + ts == ts;
    }
  }

  /** Folding one more rectangle is one more Union. */
  lemma {:induction false} UnionAllSnoc(acc: Rect, rs: seq<Rect>, r: Rect)
    requires acc.WellFormed() && AllWellFormed(rs) && r.WellFormed()
    ensures AllWellFormed(rs + [r])
    ensures UnionAll(acc, rs + [r]) == Union(UnionAll(acc, rs), r)
  {
    UnionAllAppend(acc, rs, [r]);
    assert [r][1..] == [];
  }

  /** Empty rectangles inserted anywhere in the list do not change the folded union. */
  lemma {:induction false} UnionAllInsertEmpties(acc: Rect, rs: seq<Rect>, es: seq<Rect>, index: int)
    requires acc.WellFormed() && AllWellFormed(rs) && 0 <= index <= |rs|
    requires forall i :: 0 <= i < |es| ==> es[i].Empty?
    ensures AllWellFormed(rs[..index] + es + rs[index..])
    ensures UnionAll(acc, rs[..index] + es + rs[index..]) == UnionAll(acc, rs)
  {
    var front, back := rs[..index], rs[index..];
    assert rs == front + back;
    assert AllWellFormed(front) && AllWellFormed(back);
    UnionAllEmpties(UnionAll(acc, front), es);
    UnionAllAppend(acc, front, es);
    UnionAllAppend(acc, front + es, back);
    UnionAllAppend(acc, front, back);
  }

  /** Empty rectangles do not change the folded union. */
  lemma {:induction false} UnionAllEmpties(acc: Rect, es: seq<Rect>)
    requires acc.WellFormed()
    requires forall i :: 0 <= i < |es| ==> es[i].Empty?
    ensures AllWellFormed(es) && UnionAll(acc, es) == acc
    decreases |es|
  {
    if es != [] {
      UnionAllEmpties(acc, es[1..]);
    }
  }
}
