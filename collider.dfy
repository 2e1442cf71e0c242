/** The collider component of `colliderComponent.ts`: a hitbox with a category
    flag, a filter mask and a size, a process-wide registry of all colliders,
    and the per-tick detection pass that rebuilds a quadtree of the other
    eligible colliders, queries it with this collider's area and reports
    every confirmed overlap to the handler. */
module Colliders {
  import opened Geometry
  import opened Optional
  import opened Sequences
  import Quadtree

  datatype Size = Size(w: real, h: real)

  /** Identity of the component resolved as collision handler. */
  type HandlerId = nat

  /** The screen rectangle every detection pass indexes. */
  function WorldBounds(): (r: Rect)
    ensures r == Rect(0.0, 770.0, 0.0, 578.0)
  {
    FromOrigin(0.0, 0.0, 770.0, 578.0)
  }

  /** JavaScript's bitwise operators first reduce a number to its low 32 bits. */
  function Int32Bits(x: int): bv32
  {
    (x % 0x1_0000_0000) as bv32
  }

  /** `flag & mask` is non-zero. */
  predicate Accepts(mask: bv32, flag: bv32)
  {
    flag & mask != 0
  }

  /** The module-level `colliders` array: every collider that ran `setup`. */
  class Registry {
    var colliders: seq<ColliderComponent>

    constructor ()
      ensures colliders == []
    {
      colliders := [];
    }
  }

  class ColliderComponent {
    /** The category flag and the filter mask, as the 32 bits `&` acts on. */
    var flag: bv32
    var mask: bv32
    var size: Size
    var handler: Option<HandlerId>
    var active: bool
    /** The component's `enabled` flag and its owner's `active` flag. */
    var enabled: bool
    var ownerActive: bool
    /** The owner's world position, as supplied by its position component. */
    var worldX: real
    var worldY: real

    constructor (x: real, y: real)
      ensures handler == None && active && enabled && ownerActive
      ensures worldX == x && worldY == y
    {
      flag, mask, size := 0, 0, Size(0.0, 0.0);
      handler := None;
      active, enabled, ownerActive := true, true, true;
      worldX, worldY := x, y;
    }

    /** `create(descr)`: copies the flag, the mask and the size. */
    method Create(flag': int, mask': int, size': Size)
      modifies this`flag, this`mask, this`size
      ensures flag == Int32Bits(flag') && mask == Int32Bits(mask') && size == size'
    {
      flag := Int32Bits(flag');
      mask := Int32Bits(mask');
      size := size';
    }

    /** `setup(descr)`: resolves the handler only when a handler name is
        given (`resolved` is what the owner's lookup by that name returns),
        and appends this collider to the registry. */
    method Setup(handlerName: Option<string>, resolved: Option<HandlerId>, registry: Registry)
      modifies this`handler, registry`colliders
      ensures registry.colliders == old(registry.colliders) + [this]
      ensures handler == if handlerName.Some? && handlerName.value != "" then resolved else old(handler)
    {
      if handlerName.Some? && handlerName.value != "" {
        handler := resolved;
      }
      registry.colliders := registry.colliders + [this];
    }

    /** The `area` getter: the rectangle at the world position with the
        collider's size. */
    function Area(): (r: Rect)
      reads this
      ensures r.xMin == worldX && r.yMin == worldY
      ensures r.xMax - r.xMin == size.w && r.yMax - r.yMin == size.h
    {
      FromOrigin(worldX, worldY, size.w, size.h)
    }

    /** `update()`: the detection pass. Returns the arguments of the
        `onCollision` calls in order, and (as a ghost) the quadtree built. */
    method Update(registry: Registry) returns (calls: seq<ColliderComponent>, ghost tree: Quadtree.Node<ColliderComponent>)
      ensures Quadtree.Valid(tree) && tree.level == 0 && tree.bounds == WorldBounds()
      ensures handler.None? ==> calls == [] && tree.items == [] && tree.kids == []
      ensures handler.Some? ==> multiset(Quadtree.Contents(tree)) == multiset(Inserted(this, registry.colliders))
      ensures handler.Some? ==> calls == Confirmed(Area(), Quadtree.Retrieve(tree, Area()))
      ensures |Inserted(this, registry.colliders)| <= Quadtree.MaxObjects ==> tree.kids == []
      ensures forall c :: c in calls ==>
        c in registry.colliders && Eligible(this, c) && Intersects(Area(), c.Area()) && c.active
      ensures Distinct(registry.colliders) ==> Distinct(calls)
      ensures handler.Some? && Quadtree.Descends(tree, Area()) ==>
        forall c :: c in registry.colliders && Eligible(this, c) && Intersects(Area(), c.Area()) && c.active
          ==> c in calls
    {
      var quadtree := Quadtree.New(0, WorldBounds());
      if handler.None? {
        calls, tree := [], quadtree;
        return;
      }
      var area := Area();
      quadtree := IndexOthers(registry.colliders);
      InsertedUnchanged((this, registry.colliders));
      tree := quadtree;
      var pertinent := Quadtree.Retrieve(quadtree, area);
      calls := NarrowPhase(area, pertinent);
      InsertedUnchanged((this, registry.colliders));
      AreaUnchanged(this);
      ReportedSound(this, registry.colliders, pertinent);
      if Distinct(registry.colliders) {
        CandidatesDistinct(this, registry.colliders, pertinent);
        ConfirmedDistinct(area, pertinent);
      }
      if Quadtree.Descends(tree, area) {
        ReportedComplete(this, registry.colliders, tree);
      }
    }

    /** The broad-phase half of `update()`: a fresh quadtree over the
        world, filled with the eligible members of `cs` in registry order. */
    method IndexOthers(cs: seq<ColliderComponent>) returns (quadtree: Quadtree.Node<ColliderComponent>)
      ensures Quadtree.Valid(quadtree) && quadtree.level == 0 && quadtree.bounds == WorldBounds()
      ensures multiset(Quadtree.Contents(quadtree)) == multiset(Inserted(this, cs))
      ensures |Inserted(this, cs)| <= Quadtree.MaxObjects ==>
        quadtree.kids == [] && quadtree.items == Inserted(this, cs)
    {
      quadtree := Quadtree.New(0, WorldBounds());
      ghost var built := [];
      var i := 0;
      while i < |cs|
        invariant 0 <= i <= |cs|
        invariant Indexes(quadtree, built)
        invariant built == old(Inserted(this, cs[..i]))
      {
        var c := cs[i];
        OldInsertedSnoc((this, cs, i));
        EligibleUnchanged((this, c));
        if c != this && c.enabled && c.ownerActive && c.flag & mask != 0 {
          var e := Quadtree.Entry(c, c.Area());
          assert Eligible(this, c);
          quadtree := AddEntry(quadtree, built, e);
          built := built + [e];
        } else {
          assert !Eligible(this, c);
        }
        i := i + 1;
      }
      assert cs[..i] == cs;
      InsertedUnchanged((this, cs));
    }
  }

  /** `t` is a world quadtree holding exactly `built`, directly in its root
      while there are few enough entries. */
  ghost predicate Indexes(t: Quadtree.Node<ColliderComponent>, built: seq<Quadtree.Entry<ColliderComponent>>)
  {
    Quadtree.Valid(t) && Quadtree.Capacity(t) && t.level == 0 && t.bounds == WorldBounds() &&
    multiset(Quadtree.Contents(t)) == multiset(built) &&
    (|built| <= Quadtree.MaxObjects ==> t.kids == [] && t.items == built)
  }

  /** One `quadtree.insert` of the broad phase. */
  method AddEntry(t: Quadtree.Node<ColliderComponent>, ghost built: seq<Quadtree.Entry<ColliderComponent>>,
                  e: Quadtree.Entry<ColliderComponent>) returns (r: Quadtree.Node<ColliderComponent>)
    requires Indexes(t, built)
    ensures Indexes(r, built + [e])
  {
    ghost var small := |built| < Quadtree.MaxObjects;
    r := Quadtree.Insert(t, e);
    assert small ==> r.items == built + [e];
    assert multiset(built + [e]) == multiset(built) + multiset{e};
  }

  // The loop of `IndexOthers` states its invariant over the heap at method
  // entry (`old`); the two-state lemmas below connect that heap to the
  // current one, which the method leaves unchanged. Each takes its arguments
  // as one tuple: with two or more parameters, a call to a two-state lemma
  // makes the verifier fail when it also reports contradictory assumptions.

  /** `Inserted` evaluated in the state before a call, one step at a time. */
  twostate lemma OldInsertedSnoc(a: (ColliderComponent, seq<ColliderComponent>, int))
    requires 0 <= a.2 < |a.1|
    ensures var (q, cs, i) := a;
      old(Inserted(q, cs[..i + 1])) ==
        old(Inserted(q, cs[..i])) + (if old(Eligible(q, cs[i])) then [Quadtree.Entry(cs[i], old(cs[i].Area()))] else [])
  {
    var (q, cs, i) := a;
    assert cs[..i + 1][..i] == cs[..i];
  }

  twostate lemma EligibleUnchanged(a: (ColliderComponent, ColliderComponent))
    requires unchanged(a.0) && unchanged(a.1)
    ensures old(Eligible(a.0, a.1)) == Eligible(a.0, a.1) && old(a.1.Area()) == a.1.Area()
  {
  }

  twostate lemma AreaUnchanged(q: ColliderComponent)
    requires unchanged(q)
    ensures old(q.Area()) == q.Area()
  {
  }

  /** A pass that changes no collider sees the same entries at its end. */
  twostate lemma InsertedUnchanged(a: (ColliderComponent, seq<ColliderComponent>))
    requires unchanged(a.0) && unchanged(a.1)
    ensures old(Inserted(a.0, a.1)) == Inserted(a.0, a.1)
  {
  }

  /** The narrow-phase half of `update()`: keeps, in order, the candidates
      that overlap `area` and are active. */
  method NarrowPhase(area: Rect, pertinent: seq<Quadtree.Entry<ColliderComponent>>) returns (calls: seq<ColliderComponent>)
    ensures calls == Confirmed(area, pertinent)
  {
    calls := [];
    var k := 0;
    while k < |pertinent|
      invariant 0 <= k <= |pertinent|
      invariant calls == Confirmed(area, pertinent[..k])
    {
      var c := pertinent[k].item;
      assert pertinent[..k + 1][..k] == pertinent[..k];
      if Intersects(area, c.Area()) && c.active {
        calls := calls + [c];
      }
      k := k + 1;
    }
    assert pertinent[..k] == pertinent;
  }

  /** The test the pass applies before inserting a registry entry: not the
      querier itself, enabled, with an active owner, and with a flag the
      querier's mask accepts. */
  ghost predicate Eligible(q: ColliderComponent, c: ColliderComponent)
    reads q, c
  {
    c != q && c.enabled && c.ownerActive && Accepts(q.mask, c.flag)
  }

  /** The entries inserted into the quadtree for registry `cs`, in order. */
  ghost function Inserted(q: ColliderComponent, cs: seq<ColliderComponent>): seq<Quadtree.Entry<ColliderComponent>>
    reads q, cs
  {
    if cs == [] then []
    else
      var c := cs[|cs| - 1];
      Inserted(q, cs[..|cs| - 1]) + (if Eligible(q, c) then [Quadtree.Entry(c, c.Area())] else [])
  }

  /** The narrow phase over candidates `es`: the colliders whose area
      overlaps `area` and that are active, in candidate order. */
  ghost function Confirmed(area: Rect, es: seq<Quadtree.Entry<ColliderComponent>>): seq<ColliderComponent>
    reads set e | e in es :: e.item
  {
    if es == [] then []
    else
      var c := es[|es| - 1].item;
      Confirmed(area, es[..|es| - 1]) + (if Intersects(area, c.Area()) && c.active then [c] else [])
  }

  ghost predicate DistinctItems(es: seq<Quadtree.Entry<ColliderComponent>>)
  {
    forall i, j :: 0 <= i < j < |es| ==> es[i].item != es[j].item
  }

  // ---------------------------------------------------------------------------
  // Lemmas

  /** An entry is inserted exactly for an eligible registry member, with that
      member's current area. */
  lemma {:induction false} InsertedMember(q: ColliderComponent, cs: seq<ColliderComponent>, e: Quadtree.Entry<ColliderComponent>)
    requires e in Inserted(q, cs)
    ensures e.item in cs && Eligible(q, e.item) && e.area == e.item.Area()
    decreases |cs|
  {
    var c := cs[|cs| - 1];
    var init := cs[..|cs| - 1];
    if e in Inserted(q, init) {
      InsertedMember(q, init, e);
      assert e.item in init;
    }
  }

  lemma {:induction false} InsertedComplete(q: ColliderComponent, cs: seq<ColliderComponent>, c: ColliderComponent)
    requires c in cs && Eligible(q, c)
    ensures Quadtree.Entry(c, c.Area()) in Inserted(q, cs)
    decreases |cs|
  {
    var last := cs[|cs| - 1];
    var init := cs[..|cs| - 1];
    assert Inserted(q, cs) == Inserted(q, init) + if Eligible(q, last) then [Quadtree.Entry(last, last.Area())] else [];
    if c != last {
      var k :| 0 <= k < |cs| && cs[k] == c;
      assert init[k] == c;
      InsertedComplete(q, init, c);
    }
  }

  /** A registry without repetitions yields entries with distinct colliders. */
  lemma {:induction false} InsertedDistinct(q: ColliderComponent, cs: seq<ColliderComponent>)
    requires Distinct(cs)
    ensures DistinctItems(Inserted(q, cs))
    decreases |cs|
  {
    if cs != [] {
      var c := cs[|cs| - 1];
      var init := cs[..|cs| - 1];
      assert Distinct(init);
      InsertedDistinct(q, init);
      if Eligible(q, c) {
        forall e | e in Inserted(q, init) ensures e.item != c {
          InsertedMember(q, init, e);
        }
      }
    }
  }

  /** The candidates drawn from the quadtree of a registry without
      repetitions name each collider at most once. */
  lemma CandidatesDistinct(q: ColliderComponent, cs: seq<ColliderComponent>, es: seq<Quadtree.Entry<ColliderComponent>>)
    requires Distinct(cs)
    requires multiset(es) <= multiset(Inserted(q, cs))
    ensures DistinctItems(es)
  {
    var ins := Inserted(q, cs);
    InsertedDistinct(q, cs);
    assert Distinct(ins);
    forall x | x in es ensures multiset(es)[x] <= 1 {
      DistinctCounts(ins, x);
    }
    CountsDistinct(es);
    forall i, j | 0 <= i < j < |es| ensures es[i].item != es[j].item {
      assert es[i] in multiset(ins) && es[j] in multiset(ins);
      InsertedMember(q, cs, es[i]);
      InsertedMember(q, cs, es[j]);
    }
  }

  lemma {:induction false} ConfirmedMember(area: Rect, es: seq<Quadtree.Entry<ColliderComponent>>, c: ColliderComponent)
    returns (e: Quadtree.Entry<ColliderComponent>)
    requires c in Confirmed(area, es)
    ensures e in es && e.item == c && Intersects(area, c.Area()) && c.active
    decreases |es|
  {
    var init := es[..|es| - 1];
    if c in Confirmed(area, init) {
      e := ConfirmedMember(area, init, c);
    } else {
      e := es[|es| - 1];
    }
  }

  lemma {:induction false} ConfirmedComplete(area: Rect, es: seq<Quadtree.Entry<ColliderComponent>>, e: Quadtree.Entry<ColliderComponent>)
    requires e in es && Intersects(area, e.item.Area()) && e.item.active
    ensures e.item in Confirmed(area, es)
    decreases |es|
  {
    var init := es[..|es| - 1];
    if e != es[|es| - 1] {
      assert es == init + [es[|es| - 1]];
      ConfirmedComplete(area, init, e);
    }
  }

  lemma {:induction false} ConfirmedDistinct(area: Rect, es: seq<Quadtree.Entry<ColliderComponent>>)
    requires DistinctItems(es)
    ensures Distinct(Confirmed(area, es))
    decreases |es|
  {
    if es != [] {
      var init := es[..|es| - 1];
      var c := es[|es| - 1].item;
      assert DistinctItems(init) by {
        forall i, j | 0 <= i < j < |init| ensures init[i].item != init[j].item {
          assert init[i] == es[i] && init[j] == es[j];
        }
      }
      ConfirmedDistinct(area, init);
      if Intersects(area, c.Area()) && c.active {
        forall d | d in Confirmed(area, init) ensures d != c {
          var e := ConfirmedMember(area, init, d);
          var i :| 0 <= i < |init| && init[i] == e;
          assert es[i] == e;
        }
        DistinctSnoc(Confirmed(area, init), c);
      }
    }
  }

  /** Soundness of the reports: every reported collider is an eligible
      registry member that overlaps the querier and is active. */
  lemma ReportedSound(q: ColliderComponent, cs: seq<ColliderComponent>, es: seq<Quadtree.Entry<ColliderComponent>>)
    requires multiset(es) <= multiset(Inserted(q, cs))
    ensures forall c :: c in Confirmed(q.Area(), es) ==>
      c in cs && Eligible(q, c) && Intersects(q.Area(), c.Area()) && c.active
  {
    forall c | c in Confirmed(q.Area(), es)
      ensures c in cs && Eligible(q, c) && Intersects(q.Area(), c.Area()) && c.active
    {
      var e := ConfirmedMember(q.Area(), es, c);
      assert e in multiset(Inserted(q, cs));
      InsertedMember(q, cs, e);
    }
  }

  /** Completeness of the reports when the query applies to every stored
      entry: each eligible, overlapping, active registry member is reported. */
  lemma ReportedComplete(q: ColliderComponent, cs: seq<ColliderComponent>, tree: Quadtree.Node<ColliderComponent>)
    requires Quadtree.Valid(tree)
    requires multiset(Quadtree.Contents(tree)) == multiset(Inserted(q, cs))
    requires Quadtree.Descends(tree, q.Area())
    ensures forall c :: c in cs && Eligible(q, c) && Intersects(q.Area(), c.Area()) && c.active ==>
      c in Confirmed(q.Area(), Quadtree.Retrieve(tree, q.Area()))
  {
    var area := q.Area();
    var pertinent := Quadtree.Retrieve(tree, area);
    forall c | c in cs && Eligible(q, c) && Intersects(area, c.Area()) && c.active
      ensures c in Confirmed(area, pertinent)
    {
      var e := Quadtree.Entry(c, c.Area());
      InsertedComplete(q, cs, c);
      assert e in multiset(Quadtree.Contents(tree));
      Quadtree.RetrieveFindsOverlaps(tree, area, e);
      ConfirmedComplete(area, pertinent, e);
    }
  }

  /** Detection uses the querier's mask and the candidate's flag: a candidate
      whose flag shares no bit with the querier's mask (flag 1 against mask 2,
      say) never enters the querier's tree, so it is never reported to it,
      whatever its own mask says about the querier. */
  lemma {:induction false} MaskExcludes(q: ColliderComponent, cs: seq<ColliderComponent>,
                                        c: ColliderComponent, es: seq<Quadtree.Entry<ColliderComponent>>)
    requires q.mask & c.flag == 0
    requires multiset(es) <= multiset(Inserted(q, cs))
    ensures forall e :: e in Inserted(q, cs) ==> e.item != c
    ensures c !in Confirmed(q.Area(), es)
  {
    forall e | e in Inserted(q, cs) ensures e.item != c {
      InsertedMember(q, cs, e);
    }
    ReportedSound(q, cs, es);
  }

  /** Numbers that agree modulo 2^32 act alike as masks and as flags:
      the filter `flag & mask` sees only their low 32 bits. */
  lemma Int32BitsPeriodic(mask: int, flag: int, n: int)
    ensures Accepts(Int32Bits(mask + n * 0x1_0000_0000), Int32Bits(flag)) == Accepts(Int32Bits(mask), Int32Bits(flag))
    ensures Accepts(Int32Bits(mask), Int32Bits(flag + n * 0x1_0000_0000)) == Accepts(Int32Bits(mask), Int32Bits(flag))
  {
    assert (mask + n * 0x1_0000_0000) % 0x1_0000_0000 == mask % 0x1_0000_0000;
    assert (flag + n * 0x1_0000_0000) % 0x1_0000_0000 == flag % 0x1_0000_0000;
  }
}
