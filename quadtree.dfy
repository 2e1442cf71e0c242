/** The collision broad phase of `quadtree.ts`: a recursive partition of a
    fixed rectangle into quadrants. A node is a value; the operations that
    reassign a node's fields in the source return the updated node. */
module Quadtree {
  import opened Geometry

  /** Capacity of a node before it splits. */
  const MaxObjects: nat := 10
  /** Deepest level at which a node may still split is `MaxLevels - 1`. */
  const MaxLevels: nat := 5

  /** A stored collider together with the area it had when it was inserted. */
  datatype Entry<T> = Entry(item: T, area: Rect)

  /** One quadtree node: its depth, the region it covers, the colliders held
      directly by it and its child nodes (none, or four after a split). */
  datatype Node<T> = Node(level: nat, bounds: Rect, items: seq<Entry<T>>, kids: seq<Node<T>>)

  // ---------------------------------------------------------------------------
  // Construction, clearing, splitting

  /** `new Quadtree(level, bounds)`. */
  function New<T>(level: nat, bounds: Rect): (r: Node<T>)
    ensures r.level == level && r.bounds == bounds
    ensures r.items == [] && r.kids == []
  {
    Node(level, bounds, [], [])
  }

  /** `clear()`: drops the direct colliders and the children. */
  function Clear<T>(t: Node<T>): (r: Node<T>)
    ensures r.level == t.level && r.bounds == t.bounds
    ensures r.kids == [] && Contents(r) == []
  {
    t.(items := [], kids := [])
  }

  function MidX(b: Rect): real { b.xMin + (b.xMax - b.xMin) / 2.0 }
  function MidY(b: Rect): real { b.yMin + (b.yMax - b.yMin) / 2.0 }

  /** The bounds of the four children pushed by `split`, in the order
      bottom-left, top-left, bottom-right, top-right. */
  function Quadrants(b: Rect): (q: seq<Rect>)
    ensures |q| == 4
  {
    var w := (b.xMax - b.xMin) / 2.0;
    var h := (b.yMax - b.yMin) / 2.0;
    [ FromOrigin(b.xMin, b.yMin, w, h),
      FromOrigin(b.xMin, b.yMin + h, w, h),
      FromOrigin(b.xMin + w, b.yMin, w, h),
      FromOrigin(b.xMin + w, b.yMin + h, w, h) ]
  }

  /** `split()`: replaces the children by four empty nodes one level deeper. */
  function Split<T>(t: Node<T>): (r: Node<T>)
    ensures r.level == t.level && r.bounds == t.bounds && r.items == t.items
    ensures |r.kids| == 4
    ensures forall j :: 0 <= j < 4 ==>
      r.kids[j].level == t.level + 1 && r.kids[j].bounds == Quadrants(t.bounds)[j] &&
      r.kids[j].items == [] && r.kids[j].kids == []
  {
    var q := Quadrants(t.bounds);
    t.(kids := [New(t.level + 1, q[0]), New(t.level + 1, q[1]),
                New(t.level + 1, q[2]), New(t.level + 1, q[3])])
  }

  // ---------------------------------------------------------------------------
  // Classification

  /** Quadrant `j` is the intersection of two open half-planes bounded by the
      midlines: bit 1 of `j` picks the side of the vertical midline, bit 0 the
      side of the horizontal one. `area` lies strictly inside both. */
  predicate InHalfPlanes(b: Rect, area: Rect, j: int)
  {
    && (if j < 2 then area.xMax < MidX(b) else area.xMin > MidX(b))
    && (if j % 2 == 0 then area.yMax < MidY(b) else area.yMin > MidY(b))
  }

  /** `getIndex(area)` against the midlines of `b`; `-1` when the area fits no
      single quadrant. */
  function GetIndex(b: Rect, area: Rect): (k: int)
    ensures -1 <= k < 4
    ensures k >= 0 ==> InHalfPlanes(b, area, k)
    ensures k >= 0 ==> forall j :: 0 <= j < k ==> !InHalfPlanes(b, area, j)
    ensures k == -1 ==> forall j :: 0 <= j < 4 ==> !InHalfPlanes(b, area, j)
  {
    var width := b.xMax - b.xMin;
    var height := b.yMax - b.yMin;
    var verticalMiddle := b.xMin + width / 2.0;
    var horizontalMiddle := b.yMin + height / 2.0;
    var top := area.yMin > horizontalMiddle;
    var bottom := area.yMax < horizontalMiddle;
    var left := area.xMax < verticalMiddle;
    var right := area.xMin > verticalMiddle;
    if bottom && left then 0
    else if top && left then 1
    else if bottom && right then 2
    else if top && right then 3
    else -1
  }

  // ---------------------------------------------------------------------------
  // Contents and the shape invariant

  /** Every entry held anywhere in the tree: this node's, then each child's. */
  ghost function Contents<T>(t: Node<T>): seq<Entry<T>>
    decreases t, 1
  {
    t.items + KidsContents(t.kids)
  }

  ghost function KidsContents<T>(ks: seq<Node<T>>): seq<Entry<T>>
    decreases ks, 0
  {
    if ks == [] then [] else Contents(ks[0]) + KidsContents(ks[1..])
  }

  /** The invariant that `split` and `insert` maintain. */
  ghost predicate Valid<T>(t: Node<T>)
    decreases t, 0
  {
    && (|t.kids| == 0 || |t.kids| == 4)
    && (t.kids != [] ==> t.level < MaxLevels)
    && (t.kids != [] ==> forall e :: e in t.items ==> GetIndex(t.bounds, e.area) == -1)
    && forall j :: 0 <= j < |t.kids| ==> KidOk(t.level, t.bounds, j, t.kids[j])
  }

  /** Child `j` of a node at `level` over `bounds`: one level deeper, covering
      quadrant `j`, holding only entries classified `j` by the parent. */
  ghost predicate KidOk<T>(level: nat, bounds: Rect, j: int, k: Node<T>)
    decreases k, 1
  {
    && 0 <= j < 4
    && k.level == level + 1
    && k.bounds == Quadrants(bounds)[j]
    && (forall e :: e in Contents(k) ==> GetIndex(bounds, e.area) == j)
    && Valid(k)
  }

  /** The splitting rule of `insert`, at every node: a leaf that may still
      split holds at most `MaxObjects` entries. */
  ghost predicate Capacity<T>(t: Node<T>)
    decreases t
  {
    && (t.kids == [] && t.level < MaxLevels ==> |t.items| <= MaxObjects)
    && forall j :: 0 <= j < |t.kids| ==> Capacity(t.kids[j])
  }

  /** All levels in the tree are at most `n`. */
  ghost predicate LevelsAtMost<T>(t: Node<T>, n: nat)
    decreases t
  {
    t.level <= n && forall j :: 0 <= j < |t.kids| ==> LevelsAtMost(t.kids[j], n)
  }

  // ---------------------------------------------------------------------------
  // Helper lemmas on contents

  lemma {:induction false} KidInContents<T>(ks: seq<Node<T>>, j: nat)
    requires j < |ks|
    ensures multiset(Contents(ks[j])) <= multiset(KidsContents(ks))
    decreases j
  {
    if j > 0 {
      KidInContents(ks[1..], j - 1);
      assert ks[1..][j - 1] == ks[j];
    }
  }

  lemma {:induction false} KidsContentsHas<T>(ks: seq<Node<T>>, e: Entry<T>) returns (j: nat)
    requires e in KidsContents(ks)
    ensures j < |ks| && e in Contents(ks[j])
    decreases ks
  {
    if e in Contents(ks[0]) {
      j := 0;
    } else {
      var j' := KidsContentsHas(ks[1..], e);
      j := j' + 1;
    }
  }

  /** Replacing child `j` by one holding `added` more replaces the
      children's contents by `added` more. */
  lemma {:induction false} KidsContentsUpdate<T>(ks: seq<Node<T>>, j: nat, k: Node<T>, added: multiset<Entry<T>>)
    requires j < |ks|
    requires multiset(Contents(k)) == multiset(Contents(ks[j])) + added
    ensures multiset(KidsContents(ks[j := k])) == multiset(KidsContents(ks)) + added
    decreases j
  {
    var ks' := ks[j := k];
    assert KidsContents(ks) == Contents(ks[0]) + KidsContents(ks[1..]);
    assert KidsContents(ks') == Contents(ks'[0]) + KidsContents(ks'[1..]);
    if j == 0 {
      assert ks'[1..] == ks[1..];
      calc {
        multiset(KidsContents(ks'));
        multiset(Contents(k)) + multiset(KidsContents(ks[1..]));
        multiset(Contents(ks[0])) + added + multiset(KidsContents(ks[1..]));
        multiset(KidsContents(ks)) + added;
      }
    } else {
      assert ks'[0] == ks[0] && ks[1..][j - 1] == ks[j];
      assert ks'[1..] == ks[1..][j - 1 := k];
      KidsContentsUpdate(ks[1..], j - 1, k, added);
      calc {
        multiset(KidsContents(ks'));
        multiset(Contents(ks[0])) + multiset(KidsContents(ks'[1..]));
        multiset(Contents(ks[0])) + multiset(KidsContents(ks[1..])) + added;
        multiset(KidsContents(ks)) + added;
      }
    }
  }

  lemma SplitContents<T>(t: Node<T>)
    ensures KidsContents(Split(t).kids) == []
  {
    var ks := Split(t).kids;
    forall j | 0 <= j < 4 ensures Contents(ks[j]) == [] {
    }
    assert KidsContents(ks[3..]) == Contents(ks[3]) + KidsContents(ks[3..][1..]);
    assert ks[3..][1..] == [];
    assert KidsContents(ks[2..]) == Contents(ks[2]) + KidsContents(ks[3..]) by { assert ks[2..][1..] == ks[3..]; }
    assert KidsContents(ks[1..]) == Contents(ks[1]) + KidsContents(ks[2..]) by { assert ks[1..][1..] == ks[2..]; }
    assert KidsContents(ks) == Contents(ks[0]) + KidsContents(ks[1..]);
  }

  // ---------------------------------------------------------------------------
  // Insertion

  /** `insert(e)`: descends into the child that `getIndex` selects, or stores
      the entry here; a node over capacity below the maximum depth splits (if
      it has not yet) and moves every direct entry that fits a quadrant into
      that child. */
  method Insert<T>(t: Node<T>, e: Entry<T>) returns (r: Node<T>)
    requires Valid(t) && Capacity(t)
    ensures Valid(r) && Capacity(r)
    ensures r.level == t.level && r.bounds == t.bounds
    ensures multiset(Contents(r)) == multiset(Contents(t)) + multiset{e}
    ensures r.kids != [] ==> t.kids != [] || (|t.items| + 1 > MaxObjects && t.level < MaxLevels)
    ensures t.kids != [] ==> |r.kids| == 4
    ensures t.kids == [] && |t.items| + 1 > MaxObjects && t.level < MaxLevels ==> |r.kids| == 4
    ensures t.kids == [] && (|t.items| + 1 <= MaxObjects || t.level >= MaxLevels) ==> r == t.(items := t.items + [e])
    decreases MaxLevels - t.level, 3
  {
    if |t.kids| > 0 {
      var index := GetIndex(t.bounds, e.area);
      if index != -1 {
        var child := Insert(t.kids[index], e);
        r := t.(kids := t.kids[index := child]);
        KidsCapacity(t, r, index);
        InsertedChildOk(t, index, child, e);
        DescendStep(t, index, child, e);
        return;
      }
    }
    if |t.items| + 1 > MaxObjects && t.level < MaxLevels {
      r := Overflow(t, e);
    } else {
      r := t.(items := t.items + [e]);
      StoredValid(t, e, r);
      if |r.kids| == 4 {
        KidsCapacity(r, r, 0);
      }
    }
  }

  /** The storing path of `insert` on a node the entry takes over capacity
      below the maximum depth: the node splits (if it has not yet) and moves
      every direct entry that fits a quadrant into that child. */
  method Overflow<T>(t: Node<T>, e: Entry<T>) returns (r: Node<T>)
    requires Valid(t) && Capacity(t)
    requires |t.items| + 1 > MaxObjects && t.level < MaxLevels
    ensures Valid(r) && Capacity(r)
    ensures r.level == t.level && r.bounds == t.bounds
    ensures multiset(Contents(r)) == multiset(Contents(t)) + multiset{e}
    ensures |r.kids| == 4
    decreases MaxLevels - t.level, 2
  {
    var kids := t.kids;
    if |kids| == 0 {
      kids := Split(t).kids;
      SplitContents(t);
      SplitShape(t);
      assert forall j :: 0 <= j < 4 ==> Capacity(kids[j]);
    }
    var items;
    items, kids := Redistribute(t.level, t.bounds, t.items + [e], kids);
    r := Node(t.level, t.bounds, items, kids);
    StoredValid(t, e, r);
    KidsCapacity(r, r, 0);
  }

  /** The `while` loop of `insert` on an over-capacity node with children:
      every direct entry that `getIndex` places in a quadrant is spliced out
      and inserted into that child, so only entries classified `-1` stay. */
  method Redistribute<T>(level: nat, bounds: Rect, items0: seq<Entry<T>>, kids0: seq<Node<T>>)
    returns (items: seq<Entry<T>>, kids: seq<Node<T>>)
    requires level < MaxLevels && |kids0| == 4
    requires forall j :: 0 <= j < 4 ==> KidOk(level, bounds, j, kids0[j])
    requires forall j :: 0 <= j < 4 ==> Capacity(kids0[j])
    ensures |kids| == 4
    ensures forall j :: 0 <= j < 4 ==> KidOk(level, bounds, j, kids[j])
    ensures forall j :: 0 <= j < 4 ==> Capacity(kids[j])
    ensures forall x :: x in items ==> GetIndex(bounds, x.area) == -1
    ensures multiset(items) + multiset(KidsContents(kids)) == multiset(items0) + multiset(KidsContents(kids0))
    decreases MaxLevels - level, 1
  {
    items, kids := items0, kids0;
    var i := 0;
    while i < |items|
      invariant 0 <= i <= |items|
      invariant |kids| == 4
      invariant forall j :: 0 <= j < 4 ==> KidOk(level, bounds, j, kids[j])
      invariant forall j :: 0 <= j < 4 ==> Capacity(kids[j])
      invariant forall x :: x in items[..i] ==> GetIndex(bounds, x.area) == -1
      invariant multiset(items) + multiset(KidsContents(kids)) == multiset(items0) + multiset(KidsContents(kids0))
      decreases |items| - i
    {
      var c := items[i];
      var index := GetIndex(bounds, c.area);
      if index != -1 {
        ghost var done := items[..i];
        items, kids := MoveEntry(level, bounds, items, i, kids, index);
        assert items[..i] == done;
      } else {
        assert items[..i + 1] == items[..i] + [c];
        i := i + 1;
      }
    }
    assert items[..i] == items;
  }

  /** One splice of that loop: entry `i` leaves the direct list and is
      inserted into child `index`, the quadrant `getIndex` gives it. */
  method MoveEntry<T>(level: nat, bounds: Rect, items: seq<Entry<T>>, i: nat, kids: seq<Node<T>>, index: int)
    returns (items': seq<Entry<T>>, kids': seq<Node<T>>)
    requires level < MaxLevels && |kids| == 4 && i < |items|
    requires 0 <= index < 4 && GetIndex(bounds, items[i].area) == index
    requires forall j :: 0 <= j < 4 ==> KidOk(level, bounds, j, kids[j])
    requires forall j :: 0 <= j < 4 ==> Capacity(kids[j])
    ensures items' == items[..i] + items[i + 1..]
    ensures |kids'| == 4
    ensures forall j :: 0 <= j < 4 ==> KidOk(level, bounds, j, kids'[j])
    ensures forall j :: 0 <= j < 4 ==> Capacity(kids'[j])
    ensures multiset(items') + multiset(KidsContents(kids')) == multiset(items) + multiset(KidsContents(kids))
    decreases MaxLevels - level, 0
  {
    var c := items[i];
    assert KidOk(level, bounds, index, kids[index]);
    var child := Insert(kids[index], c);
    KidOkAfterInsert(level, bounds, index, kids[index], child, c);
    MoveStep(items, i, kids, index, child);
    items', kids' := items[..i] + items[i + 1..], kids[index := child];
    assert forall j :: 0 <= j < 4 && j != index ==> kids'[j] == kids[j];
  }

  /** The node left by the storing path of `insert` is valid and holds the
      entry. */
  lemma StoredValid<T>(t: Node<T>, e: Entry<T>, r: Node<T>)
    requires Valid(t) && r.level == t.level && r.bounds == t.bounds
    requires |r.kids| == 0 || |r.kids| == 4
    requires r.kids != [] ==> t.level < MaxLevels
    requires r.kids != [] ==> forall x :: x in r.items ==> GetIndex(t.bounds, x.area) == -1
    requires forall j :: 0 <= j < |r.kids| ==> KidOk(t.level, t.bounds, j, r.kids[j])
    requires multiset(r.items) + multiset(KidsContents(r.kids))
          == multiset(t.items) + multiset{e} + multiset(KidsContents(t.kids))
    ensures Valid(r)
    ensures multiset(Contents(r)) == multiset(Contents(t)) + multiset{e}
  {
    assert Contents(r) == r.items + KidsContents(r.kids);
    assert Contents(t) == t.items + KidsContents(t.kids);
  }

  /** A node whose four children keep the splitting rule keeps it, here for
      `r`, whose children are those of `t` but child `index`. */
  lemma KidsCapacity<T>(t: Node<T>, r: Node<T>, index: nat)
    requires |t.kids| == 4 && |r.kids| == 4 && index < 4
    requires forall j :: 0 <= j < 4 && j != index ==> Capacity(t.kids[j]) && r.kids[j] == t.kids[j]
    requires Capacity(r.kids[index])
    ensures Capacity(r)
  {
  }

  /** Inserting into child `index` adds the entry to the node's contents. */
  lemma DescendStep<T>(t: Node<T>, index: nat, child: Node<T>, e: Entry<T>)
    requires index < |t.kids|
    requires multiset(Contents(child)) == multiset(Contents(t.kids[index])) + multiset{e}
    ensures multiset(Contents(t.(kids := t.kids[index := child]))) == multiset(Contents(t)) + multiset{e}
  {
    KidsContentsUpdate(t.kids, index, child, multiset{e});
    var r := t.(kids := t.kids[index := child]);
    assert Contents(r) == t.items + KidsContents(t.kids[index := child]);
    assert Contents(t) == t.items + KidsContents(t.kids);
    calc {
      multiset(Contents(r));
      multiset(t.items) + multiset(KidsContents(t.kids[index := child]));
      multiset(t.items) + multiset(KidsContents(t.kids)) + multiset{e};
      multiset(Contents(t)) + multiset{e};
    }
  }

  /** Moving entry `i` of the direct list into child `index` keeps the
      combined contents. */
  lemma MoveStep<T>(items: seq<Entry<T>>, i: nat, kids: seq<Node<T>>, index: nat, child: Node<T>)
    requires i < |items| && index < |kids|
    requires multiset(Contents(child)) == multiset(Contents(kids[index])) + multiset{items[i]}
    ensures multiset(items[..i] + items[i + 1..]) + multiset(KidsContents(kids[index := child]))
         == multiset(items) + multiset(KidsContents(kids))
  {
    assert items == items[..i] + [items[i]] + items[i + 1..];
    assert multiset(items) == multiset(items[..i] + items[i + 1..]) + multiset{items[i]};
    KidsContentsUpdate(kids, index, child, multiset{items[i]});
  }

  /** After inserting an entry classified `j` into child `j`, the child still
      satisfies the child invariant. */
  lemma KidOkAfterInsert<T>(level: nat, bounds: Rect, j: int, k: Node<T>, k': Node<T>, e: Entry<T>)
    requires KidOk(level, bounds, j, k)
    requires GetIndex(bounds, e.area) == j
    requires Valid(k') && k'.level == k.level && k'.bounds == k.bounds
    requires multiset(Contents(k')) == multiset(Contents(k)) + multiset{e}
    ensures KidOk(level, bounds, j, k')
  {
    forall x | x in Contents(k') ensures GetIndex(bounds, x.area) == j {
      assert x in multiset(Contents(k'));
      if x != e {
        assert x in multiset(Contents(k));
      }
    }
  }

  lemma InsertedChildOk<T>(t: Node<T>, index: int, child: Node<T>, e: Entry<T>)
    requires Valid(t) && 0 <= index < |t.kids|
    requires GetIndex(t.bounds, e.area) == index
    requires Valid(child) && child.level == t.kids[index].level && child.bounds == t.kids[index].bounds
    requires multiset(Contents(child)) == multiset(Contents(t.kids[index])) + multiset{e}
    ensures Valid(t.(kids := t.kids[index := child]))
  {
    KidOkAfterInsert(t.level, t.bounds, index, t.kids[index], child, e);
  }

  // ---------------------------------------------------------------------------
  // Retrieval

  /** `retrieve(area)`: the retrieval from the child `getIndex` selects (when
      there is one and the node has children), followed by this node's direct
      entries. */
  function Retrieve<T>(t: Node<T>, area: Rect): (r: seq<Entry<T>>)
    requires Valid(t)
    ensures multiset(r) <= multiset(Contents(t))
    decreases t
  {
    var index := GetIndex(t.bounds, area);
    var result :=
      if index != -1 && |t.kids| != 0 then
        assert KidOk(t.level, t.bounds, index, t.kids[index]);
        KidInContents(t.kids, index);
        Retrieve(t.kids[index], area)
      else [];
    result + t.items
  }

  /** A query that never straddles a midline on its way down. */
  ghost predicate Descends<T>(t: Node<T>, area: Rect)
    requires Valid(t)
    decreases t
  {
    t.kids != [] ==>
      var index := GetIndex(t.bounds, area);
      index != -1 &&
      assert KidOk(t.level, t.bounds, index, t.kids[index]);
      Descends(t.kids[index], area)
  }

  /** Entries classified into different quadrants are separated by a midline,
      so they cannot intersect. */
  lemma SeparatedQuadrants(b: Rect, a: Rect, c: Rect, j: int, k: int)
    requires 0 <= j < 4 && 0 <= k < 4 && j != k
    requires InHalfPlanes(b, a, j) && InHalfPlanes(b, c, k)
    ensures !Intersects(a, c)
  {
  }

  // ---------------------------------------------------------------------------
  // Properties

  /** The constructor and `clear` leave no colliders and no children. */
  lemma ClearEmpties<T>(t: Node<T>)
    ensures Clear(t) == New(t.level, t.bounds)
    ensures Contents(Clear(t)) == [] && Valid(Clear(t))
  {
  }

  /** `split` yields four empty children one level deeper, in the fixed order,
      each half as wide and half as high as the parent; splitting twice
      rebuilds the same children, and the split node is valid when the level
      allows a split and the node had no children. */
  lemma SplitShape<T>(t: Node<T>)
    ensures |Split(t).kids| == 4
    ensures forall j :: 0 <= j < 4 ==>
      Split(t).kids[j] == New(t.level + 1, Quadrants(t.bounds)[j])
    ensures Split(t).items == t.items && Split(t).level == t.level && Split(t).bounds == t.bounds
    ensures Split(Split(t)) == Split(t)
    ensures t.level < MaxLevels && t.kids == [] &&
            (forall e :: e in t.items ==> GetIndex(t.bounds, e.area) == -1)
            ==> Valid(Split(t))
  {
    var s := Split(t);
    if t.level < MaxLevels && t.kids == [] &&
       (forall e :: e in t.items ==> GetIndex(t.bounds, e.area) == -1) {
      forall j | 0 <= j < 4 ensures KidOk(t.level, t.bounds, j, s.kids[j]) {
        assert Contents(s.kids[j]) == [];
      }
    }
  }

  /** The children halve the parent's extents and sit at its corners in the
      order bottom-left, top-left, bottom-right, top-right. */
  lemma QuadrantsHalve(b: Rect)
    ensures var q := Quadrants(b);
      && (forall j :: 0 <= j < 4 ==>
            q[j].xMax - q[j].xMin == (b.xMax - b.xMin) / 2.0 &&
            q[j].yMax - q[j].yMin == (b.yMax - b.yMin) / 2.0)
      && q[0].xMin == b.xMin && q[0].yMin == b.yMin
      && q[1].xMin == b.xMin && q[1].yMax == b.yMax
      && q[2].xMax == b.xMax && q[2].yMin == b.yMin
      && q[3].xMax == b.xMax && q[3].yMax == b.yMax
  {
  }

  /** The four quadrants tile the parent: a point lies in the parent exactly
      when it lies in one of the quadrants. */
  lemma QuadrantsTile(b: Rect, x: real, y: real)
    requires WellFormed(b)
    ensures ContainsPoint(b, x, y) <==> exists j :: 0 <= j < 4 && ContainsPoint(Quadrants(b)[j], x, y)
  {
    var q := Quadrants(b);
    if ContainsPoint(b, x, y) {
      var j := (if x <= MidX(b) then 0 else 2) + (if y <= MidY(b) then 0 else 1);
      assert ContainsPoint(q[j], x, y);
    }
  }

  /** An area inside the node's bounds that `getIndex` classifies as `k` lies
      inside child `k`'s bounds, strictly away from the midlines. */
  lemma ClassifiedFitsQuadrant(b: Rect, area: Rect)
    requires Within(area, b)
    requires GetIndex(b, area) >= 0
    ensures Within(area, Quadrants(b)[GetIndex(b, area)])
  {
  }

  /** An area touching or crossing either midline is classified `-1`. */
  lemma MidlineIsAmbiguous(b: Rect, area: Rect)
    requires (area.xMin <= MidX(b) <= area.xMax) || (area.yMin <= MidY(b) <= area.yMax)
    ensures GetIndex(b, area) == -1
  {
  }

  /** For a well-formed area at most one quadrant fits, so `getIndex` does not
      depend on the order in which the source tests the quadrants. */
  lemma ClassificationUnique(b: Rect, area: Rect, j: int)
    requires WellFormed(area) && 0 <= j < 4 && InHalfPlanes(b, area, j)
    ensures GetIndex(b, area) == j
  {
  }

  /** Depth bound: in a valid tree whose root is at most `MaxLevels` deep no
      node is deeper than `MaxLevels`. */
  lemma {:induction false} LevelsBounded<T>(t: Node<T>)
    requires Valid(t) && t.level <= MaxLevels
    ensures LevelsAtMost(t, MaxLevels)
    decreases t
  {
    forall j | 0 <= j < |t.kids| ensures LevelsAtMost(t.kids[j], MaxLevels) {
      assert KidOk(t.level, t.bounds, j, t.kids[j]);
      LevelsBounded(t.kids[j]);
    }
  }

  /** This node's direct entries always close the retrieval; a query that
      fits no quadrant, or a node without children, yields exactly them. */
  lemma RetrieveEndsWithItems<T>(t: Node<T>, area: Rect)
    requires Valid(t)
    ensures |Retrieve(t, area)| >= |t.items|
    ensures Retrieve(t, area)[|Retrieve(t, area)| - |t.items|..] == t.items
    ensures GetIndex(t.bounds, area) == -1 || t.kids == [] ==> Retrieve(t, area) == t.items
  {
  }

  /** Every retrieved entry is held by this node or by the selected child. */
  lemma RetrieveFromSelected<T>(t: Node<T>, area: Rect, x: Entry<T>)
    requires Valid(t) && x in Retrieve(t, area)
    ensures x in t.items ||
      (t.kids != [] && GetIndex(t.bounds, area) != -1 && x in Contents(t.kids[GetIndex(t.bounds, area)]))
  {
    var index := GetIndex(t.bounds, area);
    if x !in t.items {
      assert index != -1 && t.kids != [];
      assert x in multiset(Retrieve(t.kids[index], area));
    }
  }

  /** No false negatives for a query that never straddles a midline: every
      stored entry that intersects it is retrieved. */
  lemma {:induction false} RetrieveFindsOverlaps<T>(t: Node<T>, area: Rect, x: Entry<T>)
    requires Valid(t) && Descends(t, area)
    requires x in Contents(t) && Intersects(area, x.area)
    ensures x in Retrieve(t, area)
    decreases t
  {
    if x !in t.items {
      var j := KidsContentsHas(t.kids, x);
      assert KidOk(t.level, t.bounds, j, t.kids[j]);
      var k := GetIndex(t.bounds, area);
      if j == k {
        RetrieveFindsOverlaps(t.kids[j], area, x);
      } else {
        SeparatedQuadrants(t.bounds, area, x.area, k, j);
        assert false;
      }
    }
  }

  /** A tree without children is searched completely. */
  lemma LeafDescends<T>(t: Node<T>, area: Rect)
    requires Valid(t) && t.kids == []
    ensures Descends(t, area) && Retrieve(t, area) == Contents(t)
  {
  }

  /** An entry for `item` in the bottom-left quadrant of a 4 by 4 square,
      next to its vertical midline. */
  function MissedEntry<T>(item: T): Entry<T>
  {
    Entry(item, Rect(0.5, 1.5, 0.5, 1.5))
  }

  /** A query overlapping that entry and crossing the vertical midline. */
  function MissQuery(): Rect
  {
    Rect(1.0, 3.0, 0.5, 1.0)
  }

  /** A split root over the square whose bottom-left child holds the entry. */
  function MissTree<T>(item: T): Node<T>
  {
    Node(0, Rect(0.0, 4.0, 0.0, 4.0), [],
      [ Node(1, Rect(0.0, 2.0, 0.0, 2.0), [MissedEntry(item)], []),
        Node(1, Rect(0.0, 2.0, 2.0, 4.0), [], []),
        Node(1, Rect(2.0, 4.0, 0.0, 2.0), [], []),
        Node(1, Rect(2.0, 4.0, 2.0, 4.0), [], []) ])
  }

  lemma MissKidsOk<T>(item: T)
    ensures forall j :: 0 <= j < 4 ==> KidOk(0, MissTree(item).bounds, j, MissTree(item).kids[j])
  {
    var t := MissTree(item);
    var b := t.bounds;
    var x := MissedEntry(item);
    var ks := t.kids;
    assert Quadrants(b) == [ks[0].bounds, ks[1].bounds, ks[2].bounds, ks[3].bounds];
    assert GetIndex(b, x.area) == 0;
    assert Contents(ks[0]) == [x];
    assert KidOk(0, b, 0, ks[0]);
    EmptyKidOk(0, b, 1, ks[1]);
    EmptyKidOk(0, b, 2, ks[2]);
    EmptyKidOk(0, b, 3, ks[3]);
  }

  lemma MissTreeValid<T>(item: T)
    ensures Valid(MissTree(item)) && MissedEntry(item) in Contents(MissTree(item))
  {
    var t := MissTree(item);
    var ks := t.kids;
    MissKidsOk(item);
    assert |ks| == 4 && t.items == [] && t.level < MaxLevels;
    assert Contents(ks[0]) == [MissedEntry(item)];
    assert KidsContents(ks) == Contents(ks[0]) + KidsContents(ks[1..]);
  }

  /** The partial guarantee is all there is: a query straddling the root's
      vertical midline skips the children, and misses an entry of the
      bottom-left child that it overlaps. */
  lemma StraddlingQueryMisses<T>(item: T)
    ensures && Valid(MissTree(item)) && MissedEntry(item) in Contents(MissTree(item))
            && Intersects(MissQuery(), MissedEntry(item).area)
            && MissedEntry(item) !in Retrieve(MissTree(item), MissQuery())
  {
    MissTreeValid(item);
    assert GetIndex(MissTree(item).bounds, MissQuery()) == -1;
  }

  /** `t` is a level-0 tree over `b` holding only copies of `x`, at least one
      once `i > 0`; it is still a leaf with `i` entries until it overflows. */
  ghost predicate CopiesOf<T>(t: Node<T>, b: Rect, x: Entry<T>, i: nat)
  {
    && Valid(t) && Capacity(t) && t.level == 0 && t.bounds == b
    && (forall y :: y in multiset(Contents(t)) ==> y == x)
    && (i > 0 ==> x in multiset(Contents(t)))
    && (i <= MaxObjects ==> t.kids == [] && |t.items| == i)
    && (i == MaxObjects + 1 ==> |t.kids| == 4)
  }

  /** One insert of a further copy. */
  method InsertCopy<T>(t: Node<T>, ghost b: Rect, x: Entry<T>, ghost i: nat) returns (r: Node<T>)
    requires i <= MaxObjects && CopiesOf(t, b, x, i)
    ensures CopiesOf(r, b, x, i + 1)
  {
    r := Insert(t, x);
  }

  /** The same miss on a tree that `insert` builds: eleven inserts of the
      entry into a fresh root over the square overflow it, so it splits and
      every copy moves into the bottom-left child, out of reach of the
      straddling query. */
  method InsertedTreeMisses<T>(item: T) returns (t: Node<T>)
    ensures Valid(t) && t.level == 0 && |t.kids| == 4
    ensures MissedEntry(item) in Contents(t) && Intersects(MissQuery(), MissedEntry(item).area)
    ensures MissedEntry(item) !in Retrieve(t, MissQuery())
  {
    var x := MissedEntry(item);
    var b := Rect(0.0, 4.0, 0.0, 4.0);
    t := New(0, b);
    var i := 0;
    while i < MaxObjects + 1
      invariant 0 <= i <= MaxObjects + 1
      invariant CopiesOf(t, b, x, i)
    {
      t := InsertCopy(t, b, x, i);
      i := i + 1;
    }
    assert GetIndex(b, x.area) == 0;
    assert x !in t.items;
    RetrieveEndsWithItems(t, MissQuery());
  }

  lemma EmptyKidOk<T>(level: nat, bounds: Rect, j: int, k: Node<T>)
    requires 0 <= j < 4 && k == New(level + 1, Quadrants(bounds)[j])
    ensures KidOk(level, bounds, j, k)
  {
    assert Contents(k) == [];
  }
}
