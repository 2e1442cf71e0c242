/** Axis-aligned rectangles as the quadtree and the colliders use them. The
    rectangle class of the game is not part of this model: it is rebuilt here
    from the way `quadtree.ts` uses it (origin plus width and height, read back
    through `xMin`, `xMax`, `yMin`, `yMax`), and `Intersects` is the strict
    open-interval overlap assumed for `intersectsWith`. */
module Geometry {

  datatype Rect = Rect(xMin: real, xMax: real, yMin: real, yMax: real)

  /** The rectangle built from `{x, y, width, height}`. */
  function FromOrigin(x: real, y: real, width: real, height: real): (r: Rect)
    ensures r.xMax - r.xMin == width && r.yMax - r.yMin == height
    ensures r.xMin == x && r.yMin == y
  {
    Rect(x, x + width, y, y + height)
  }

  /** Non-negative extents on both axes. */
  predicate WellFormed(r: Rect)
  {
    r.xMin <= r.xMax && r.yMin <= r.yMax
  }

  /** Assumed semantics of `intersectsWith`: the open ranges overlap on both
      axes, so rectangles that only touch along an edge do not intersect. */
  predicate Intersects(a: Rect, b: Rect)
  {
    a.xMin < b.xMax && a.xMax > b.xMin && a.yMin < b.yMax && a.yMax > b.yMin
  }

  /** Closed containment of a point. */
  predicate ContainsPoint(r: Rect, x: real, y: real)
  {
    r.xMin <= x <= r.xMax && r.yMin <= y <= r.yMax
  }

  /** Closed containment of a rectangle. */
  predicate Within(a: Rect, b: Rect)
  {
    b.xMin <= a.xMin && a.xMax <= b.xMax && b.yMin <= a.yMin && a.yMax <= b.yMax
  }
}

/** The optional values of the source (`undefined` fields, missing handlers). */
module Optional {
  datatype Option<T> = None | Some(value: T)
}

/** Facts about sequences without repetitions. */
module Sequences {

  ghost predicate Distinct<X>(s: seq<X>)
  {
    forall i, j :: 0 <= i < j < |s| ==> s[i] != s[j]
  }

  /** In a sequence without repetitions every value occurs at most once. */
  lemma {:induction false} DistinctCounts<X>(s: seq<X>, x: X)
    requires Distinct(s)
    ensures multiset(s)[x] <= 1
  {
    if s != [] {
      assert s == [s[0]] + s[1..];
      assert Distinct(s[1..]) by {
        forall i, j | 0 <= i < j < |s[1..]| ensures s[1..][i] != s[1..][j] {
          assert s[1..][i] == s[i + 1] && s[1..][j] == s[j + 1];
        }
      }
      DistinctCounts(s[1..], x);
      if s[0] == x {
        assert x !in s[1..] by {
          forall k | 0 <= k < |s[1..]| ensures s[1..][k] != x {
            assert s[1..][k] == s[k + 1];
          }
        }
      }
    }
  }

  /** Appending a new value keeps a sequence free of repetitions. */
  lemma DistinctSnoc<X>(s: seq<X>, x: X)
    requires Distinct(s) && x !in s
    ensures Distinct(s + [x])
  {
    var t := s + [x];
    forall i, j | 0 <= i < j < |t| ensures t[i] != t[j] {
      assert t[i] == s[i];
      if j == |s| {
        assert t[i] in s;
      } else {
        assert t[j] == s[j];
      }
    }
  }

  /** A sequence whose values each occur at most once has no repetitions. */
  lemma CountsDistinct<X>(s: seq<X>)
    requires forall x :: x in s ==> multiset(s)[x] <= 1
    ensures Distinct(s)
  {
    forall i, j | 0 <= i < j < |s| ensures s[i] != s[j] {
      assert s[i] in s;
      assert s == s[..i] + [s[i]] + s[i + 1..j] + [s[j]] + s[j + 1..];
      assert multiset(s)[s[i]] >= 1 + multiset([s[j]])[s[i]];
    }
  }
}
