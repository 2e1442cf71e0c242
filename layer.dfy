/** The layer component of `layerComponent.ts`: a shared index list for up to
    1000 quads built once, and per frame a vertex store and index list packed
    from the layer's sprites and drawn in a single call. */
module Layers {
  import opened Optional

  /** The capacity `setup` allocates. A sprite takes 20 numbers of the
      vertex store (four vertices of five numbers: x, y, z, u, v) and six
      entries of the index list. */
  const MaxSprites: nat := 1000

  /** The two triangles (k, k+1, k+2) and (k+2, k+3, k) of the quad whose
      first vertex is k. */
  function QuadIndices(k: int): (q: seq<int>)
    ensures |q| == 6
    ensures forall m :: 0 <= m < 6 ==> k <= q[m] < k + 4
    ensures q[0] == q[5] && q[2] == q[3]
  {
    [k, k + 1, k + 2, k + 2, k + 3, k]
  }

  /** The two triangles share an edge and together use all four corners. */
  lemma QuadCorners(k: int)
    ensures var q := QuadIndices(k);
      q[2] == q[3] && q[5] == q[0] && {q[0], q[1], q[2], q[4]} == {k, k + 1, k + 2, k + 3}
  {
  }

  /** JavaScript's conversion of a non-negative number into a `Uint16Array`
      element keeps it modulo 2^16. */
  function Uint16(x: int): int
  {
    x % 0x1_0000
  }

  function AsUint16Array(s: seq<int>): (r: seq<int>)
  {
    seq(|s|, j requires 0 <= j < |s| => Uint16(s[j]))
  }

  lemma Uint16Identity(s: seq<int>)
    requires forall j :: 0 <= j < |s| ==> 0 <= s[j] < 0x1_0000
    ensures AsUint16Array(s) == s
  {
  }

  // ---------------------------------------------------------------------------
  // setup

  /** The r-th block of six entries of an index list, or [] past its end. */
  function Block(s: seq<int>, r: nat): (b: seq<int>)
    ensures 6 * r + 6 <= |s| ==> |b| == 6
  {
    if 6 * r + 6 <= |s| then s[6 * r..6 * r + 6] else []
  }

  /** Appending leaves the complete blocks of a list alone, and a block of six
      appended at a block boundary becomes the next block. */
  lemma BlockAppend(s: seq<int>, q: seq<int>, r: nat)
    ensures 6 * r + 6 <= |s| ==> Block(s + q, r) == Block(s, r)
    ensures 6 * r == |s| && |q| == 6 ==> Block(s + q, r) == q
  {
    if 6 * r + 6 <= |s| {
      assert (s + q)[6 * r..6 * r + 6] == s[6 * r..6 * r + 6];
    }
    if 6 * r == |s| && |q| == 6 {
      assert (s + q)[6 * r..6 * r + 6] == q;
    }
  }

  /** The data stores `setup` builds: a zeroed store of 20 numbers per
      sprite, and the index pattern of quad i as the i-th block of six. */
  method SetupStores() returns (vertices: array<real>, indices: seq<int>)
    ensures fresh(vertices) && vertices.Length == 20 * MaxSprites
    ensures forall j :: 0 <= j < vertices.Length ==> vertices[j] == 0.0
    ensures |indices| == 6 * MaxSprites
    ensures forall i :: 0 <= i < MaxSprites ==> Block(indices, i) == QuadIndices(4 * i)
    ensures forall j :: 0 <= j < |indices| ==> 0 <= indices[j] < 4 * MaxSprites
  {
    vertices := new real[4 * 5 * MaxSprites](_ => 0.0);
    var ind: seq<int> := [];
    var i := 0;
    while i < MaxSprites
      invariant 0 <= i <= MaxSprites
      invariant |ind| == 6 * i
      invariant forall i' :: 0 <= i' < i ==> Block(ind, i') == QuadIndices(4 * i')
      invariant forall j :: 0 <= j < |ind| ==> 0 <= ind[j] < 4 * i
    {
      var k := i * 4;
      var quad := [k, k + 1, k + 2, k + 2, k + 3, k];
      assert quad == QuadIndices(4 * i);
      forall i' | 0 <= i' <= i ensures Block(ind + quad, i') == QuadIndices(4 * i') {
        BlockAppend(ind, quad, i');
      }
      ind := ind + quad;
      i := i + 1;
    }
    indices := AsUint16Array(ind);
    Uint16Identity(ind);
  }

  // ---------------------------------------------------------------------------
  // display

  /** What packing reads from a sprite: whether it has a sprite sheet and its
      vertex store, if it has one yet. */
  datatype LayerSprite = LayerSprite(hasSheet: bool, vertices: Option<seq<real>>)

  /** The outcome of a `display` call. `RangeError` is the exception a
      vertex store too long for its offset raises. */
  datatype DrawCall =
    | NoSprites
    | NoSheet
    | RangeError
    | Drawn(vertices: seq<real>, indices: seq<int>, count: int)

  /** `store` with `v` copied in at `offset`. */
  function Overwrite(store: seq<real>, offset: nat, v: seq<real>): (r: seq<real>)
    requires offset + |v| <= |store|
    ensures |r| == |store|
    ensures forall j :: 0 <= j < |store| ==> r[j] == if offset <= j < offset + |v| then v[j - offset] else store[j]
  {
    store[..offset] + v + store[offset + |v|..]
  }

  /** The vertex store after packing the first `i` sprites, or `None` once a
      copy has not fit. */
  function Pack(sprites: seq<LayerSprite>, i: nat): (r: Option<seq<real>>)
    requires i <= |sprites|
    ensures r.Some? ==> |r.value| == 20 * |sprites|
  {
    if i == 0 then Some(seq(20 * |sprites|, _ => 0.0))
    else
      match Pack(sprites, i - 1)
      case None => None
      case Some(store) =>
        var s := sprites[i - 1];
        if s.vertices.None? then Some(store)
        else if 20 * (i - 1) + |s.vertices.value| > |store| then None
        else Some(Overwrite(store, 20 * (i - 1), s.vertices.value))
  }

  /** The index list after the first `i` sprites. */
  function Indices(sprites: seq<LayerSprite>, i: nat): seq<int>
    requires i <= |sprites|
  {
    if i == 0 then []
    else Indices(sprites, i - 1) + if sprites[i - 1].vertices.Some? then QuadIndices(4 * (i - 1)) else []
  }

  /** The positions, in order, of the first `i` sprites that have vertices. */
  function Drawable(sprites: seq<LayerSprite>, i: nat): (w: seq<nat>)
    requires i <= |sprites|
    ensures forall r :: 0 <= r < |w| ==> w[r] < i && sprites[w[r]].vertices.Some?
  {
    if i == 0 then []
    else Drawable(sprites, i - 1) + if sprites[i - 1].vertices.Some? then [i - 1] else []
  }

  /** `display()` over the layer's sprites, as listed by the owner. */
  method Display(sprites: seq<LayerSprite>) returns (d: DrawCall)
    ensures sprites == [] ==> d == NoSprites
    ensures sprites != [] && !sprites[0].hasSheet ==> d == NoSheet
    ensures sprites != [] && sprites[0].hasSheet ==>
      match Pack(sprites, |sprites|)
      case None => d == RangeError
      case Some(store) => d == Drawn(store, AsUint16Array(Indices(sprites, |sprites|)), 6 * |sprites|)
  {
    if |sprites| == 0 {
      return NoSprites;
    }
    if !sprites[0].hasSheet {
      return NoSheet;
    }
    var store, ind, count := PackSprites(sprites);
    if store.None? {
      return RangeError;
    }
    d := Drawn(store.value, AsUint16Array(ind), count);
  }

  /** The packing loop of `display()`: the vertex store (`None` when a copy
      raised a range error), the index list, and the draw count `6 * i`
      taken from the loop variable after the loop. */
  method PackSprites(sprites: seq<LayerSprite>) returns (store: Option<seq<real>>, ind: seq<int>, count: int)
    ensures store == Pack(sprites, |sprites|)
    ensures store.Some? ==> ind == Indices(sprites, |sprites|) && count == 6 * |sprites|
  {
    var vertexSize := 5;
    var vertices := new real[4 * vertexSize * |sprites|](_ => 0.0);
    ind := [];
    var i := 0;
    assert vertices[..] == seq(20 * |sprites|, _ => 0.0);
    while i < |sprites|
      invariant 0 <= i <= |sprites|
      invariant vertices.Length == 20 * |sprites|
      invariant Pack(sprites, i) == Some(vertices[..])
      invariant ind == Indices(sprites, i)
    {
      var sprite := sprites[i];
      PackStep(sprites, i, vertices[..]);
      if sprite.vertices.Some? {
        var k := i * 4;
        var v := sprite.vertices.value;
        assert k * vertexSize == 20 * i;
        var ok := Set(vertices, v, k * vertexSize);
        if !ok {
          PackStaysFailed(sprites, i + 1);
          return None, ind, 0;
        }
        assert [k, k + 1, k + 2, k + 2, k + 3, k] == QuadIndices(4 * i);
        ind := ind + [k, k + 1, k + 2, k + 2, k + 3, k];
      }
      i := i + 1;
    }
    store, count := Some(vertices[..]), 6 * i;
  }

  /** `target.set(v, offset)` on a typed array: copies `v` in at `offset`, or
      raises a range error (`ok` false, nothing written) when it does not fit. */
  method Set(target: array<real>, v: seq<real>, offset: nat) returns (ok: bool)
    modifies target
    ensures ok == (offset + |v| <= target.Length)
    ensures ok ==> target[..] == Overwrite(old(target[..]), offset, v)
    ensures !ok ==> target[..] == old(target[..])
  {
    if offset + |v| > target.Length {
      return false;
    }
    forall m | 0 <= m < |v| {
      target[offset + m] := v[m];
    }
    ok := true;
  }

  /** One iteration of the packing loop. */
  lemma PackStep(sprites: seq<LayerSprite>, i: nat, store: seq<real>)
    requires i < |sprites| && Pack(sprites, i) == Some(store)
    ensures var s := sprites[i];
      Pack(sprites, i + 1) ==
        if s.vertices.None? then Some(store)
        else if 20 * i + |s.vertices.value| > |store| then None
        else Some(Overwrite(store, 20 * i, s.vertices.value))
  {
  }

  // ---------------------------------------------------------------------------
  // Lemmas

  /** Once a copy has not fit, packing more sprites cannot recover. */
  lemma {:induction false} PackStaysFailed(sprites: seq<LayerSprite>, i: nat)
    requires i <= |sprites| && Pack(sprites, i).None?
    ensures Pack(sprites, |sprites|).None?
    decreases |sprites| - i
  {
    if i < |sprites| {
      PackStaysFailed(sprites, i + 1);
    }
  }

  /** Packing fails exactly when some sprite's vertex store would run past
      the end of the layer's store. */
  lemma {:induction false} PackFailsIff(sprites: seq<LayerSprite>, i: nat)
    requires i <= |sprites|
    ensures Pack(sprites, i).None? <==>
      exists j :: 0 <= j < i && sprites[j].vertices.Some? &&
        20 * j + |sprites[j].vertices.value| > 20 * |sprites|
  {
    if i > 0 {
      PackFailsIff(sprites, i - 1);
    }
  }

  /** With every store at most 20 numbers long (a sprite's store is exactly
      20), slot m of sprite i holds its m-th number, and 0 where the sprite
      has no such number. */
  lemma {:induction false} PackSlots(sprites: seq<LayerSprite>, i: nat)
    requires i <= |sprites|
    requires forall j :: 0 <= j < |sprites| && sprites[j].vertices.Some? ==> |sprites[j].vertices.value| <= 20
    ensures Pack(sprites, i).Some?
    ensures forall j, m :: 0 <= j < |sprites| && 0 <= m < 20 ==>
      Slot(Pack(sprites, i).value, j, m) == Placed(sprites, i, j, m)
  {
    if i > 0 {
      PackSlots(sprites, i - 1);
      forall j, m | 0 <= j < |sprites| && 0 <= m < 20
        ensures Pack(sprites, i).Some? && Slot(Pack(sprites, i).value, j, m) == Placed(sprites, i, j, m)
      {
        PackSlotStep(sprites, i, j, m);
      }
    }
  }

  /** What slot m of sprite j holds once the first i sprites are packed:
      the sprite's m-th number if it is one of them and has one, else 0. */
  function Placed(sprites: seq<LayerSprite>, i: nat, j: nat, m: nat): real
    requires j < |sprites|
  {
    if j < i && sprites[j].vertices.Some? && m < |sprites[j].vertices.value| then sprites[j].vertices.value[m] else 0.0
  }

  lemma PackSlotStep(sprites: seq<LayerSprite>, i: nat, j: nat, m: nat)
    requires 0 < i <= |sprites| && j < |sprites| && m < 20
    requires forall j :: 0 <= j < |sprites| && sprites[j].vertices.Some? ==> |sprites[j].vertices.value| <= 20
    requires Pack(sprites, i - 1).Some?
    requires Slot(Pack(sprites, i - 1).value, j, m) == Placed(sprites, i - 1, j, m)
    ensures Pack(sprites, i).Some? && Slot(Pack(sprites, i).value, j, m) == Placed(sprites, i, j, m)
  {
    var store := Pack(sprites, i - 1).value;
    var s := sprites[i - 1];
    var off := 20 * (i - 1);
    var p := 20 * j + m;
    SlotBounds(j, m, |sprites|);
    if s.vertices.Some? {
      var v := s.vertices.value;
      SlotBounds(i - 1, |v|, |sprites|);
      assert Pack(sprites, i).value == Overwrite(store, off, v);
      SlotsDisjoint(j, m, i - 1);
      if j == i - 1 && m < |v| {
        assert Pack(sprites, i).value[p] == v[m];
      } else {
        assert !(off <= p < off + |v|);
        assert Pack(sprites, i).value[p] == store[p];
      }
    } else {
      assert Pack(sprites, i).value == store;
    }
  }

  /** Number m of sprite j's slot in a packed store. */
  function Slot(store: seq<real>, j: nat, m: nat): real
  {
    if 20 * j + m < |store| then store[20 * j + m] else 0.0
  }

  lemma SlotBounds(j: nat, m: nat, n: nat)
    requires j < n && m <= 20
    ensures 20 * j + m <= 20 * n
    ensures m < 20 ==> 20 * j + m < 20 * n
  {
  }

  /** Slot m of sprite j lies in sprite i's range exactly when j == i. */
  lemma SlotsDisjoint(j: nat, m: nat, i: nat)
    requires m < 20
    ensures 20 * i <= 20 * j + m < 20 * i + 20 <==> j == i
  {
  }

  /** The r-th block of six indices draws the r-th drawable sprite, and only
      its own four vertices. */
  lemma {:induction false} IndicesBlocks(sprites: seq<LayerSprite>, i: nat)
    requires i <= |sprites|
    ensures |Indices(sprites, i)| == 6 * |Drawable(sprites, i)|
    ensures forall r :: 0 <= r < |Drawable(sprites, i)| ==>
      Block(Indices(sprites, i), r) == QuadIndices(4 * Drawable(sprites, i)[r])
  {
    if i > 0 {
      IndicesBlocks(sprites, i - 1);
      var prev := Indices(sprites, i - 1);
      var w := Drawable(sprites, i - 1);
      if sprites[i - 1].vertices.Some? {
        var q := QuadIndices(4 * (i - 1));
        assert Indices(sprites, i) == prev + q;
        assert Drawable(sprites, i) == w + [i - 1];
        forall r | 0 <= r < |w| + 1
          ensures Block(prev + q, r) == QuadIndices(4 * (w + [i - 1])[r])
        {
          BlockAppend(prev, q, r);
        }
      } else {
        assert Indices(sprites, i) == prev;
        assert Drawable(sprites, i) == w;
      }
    }
  }

  /** Every index addresses a vertex of the packed store. */
  lemma IndicesInRange(sprites: seq<LayerSprite>)
    ensures forall j :: 0 <= j < |Indices(sprites, |sprites|)| ==>
      0 <= Indices(sprites, |sprites|)[j] < 4 * |sprites|
  {
    var n := |sprites|;
    var ind := Indices(sprites, n);
    var w := Drawable(sprites, n);
    IndicesBlocks(sprites, n);
    forall j | 0 <= j < |ind| ensures 0 <= ind[j] < 4 * n {
      var r, m := j / 6, j % 6;
      assert 6 * r + m == j && 6 * r + 6 <= |ind|;
      assert r < |w|;
      assert ind[j] == Block(ind, r)[m];
      assert Block(ind, r) == QuadIndices(4 * w[r]);
      assert w[r] < n;
    }
  }

  /** The draw count `6 * i` equals the index count exactly when every sprite
      has vertices. */
  lemma {:induction false} CountMatchesIff(sprites: seq<LayerSprite>, i: nat)
    requires i <= |sprites|
    ensures |Indices(sprites, i)| <= 6 * i
    ensures |Indices(sprites, i)| == 6 * i <==> forall j :: 0 <= j < i ==> sprites[j].vertices.Some?
  {
    if i > 0 {
      CountMatchesIff(sprites, i - 1);
    }
  }

  /** A layer whose sprites all have vertices draws with a prefix of the
      index pattern built by `setup`. */
  lemma FullLayerUsesSetupPattern(sprites: seq<LayerSprite>, i: nat)
    requires i <= |sprites|
    requires forall j :: 0 <= j < |sprites| ==> sprites[j].vertices.Some?
    ensures |Indices(sprites, i)| == 6 * i
    ensures forall j :: 0 <= j < i ==> Block(Indices(sprites, i), j) == QuadIndices(4 * j)
  {
    FullLayerLength(sprites, i);
    forall j | 0 <= j < i ensures Block(Indices(sprites, i), j) == QuadIndices(4 * j) {
      FullLayerBlock(sprites, i, j);
    }
  }

  lemma {:induction false} FullLayerLength(sprites: seq<LayerSprite>, i: nat)
    requires i <= |sprites|
    requires forall j :: 0 <= j < |sprites| ==> sprites[j].vertices.Some?
    ensures |Indices(sprites, i)| == 6 * i
  {
    if i > 0 {
      FullLayerLength(sprites, i - 1);
    }
  }

  lemma {:induction false} FullLayerBlock(sprites: seq<LayerSprite>, i: nat, j: nat)
    requires j < i <= |sprites|
    requires forall j :: 0 <= j < |sprites| ==> sprites[j].vertices.Some?
    ensures Block(Indices(sprites, i), j) == QuadIndices(4 * j)
  {
    FullLayerLength(sprites, i - 1);
    var prev := Indices(sprites, i - 1);
    var q := QuadIndices(4 * (i - 1));
    assert Indices(sprites, i) == prev + q;
    BlockAppend(prev, q, j);
    if j < i - 1 {
      FullLayerBlock(sprites, i - 1, j);
    }
  }

  /** Up to 16384 sprites the `Uint16Array` conversion leaves the indices
      alone; beyond that they wrap. */
  lemma IndicesFitUint16(sprites: seq<LayerSprite>)
    requires |sprites| <= 0x4000
    ensures AsUint16Array(Indices(sprites, |sprites|)) == Indices(sprites, |sprites|)
  {
    IndicesInRange(sprites);
    Uint16Identity(Indices(sprites, |sprites|));
  }

  /** The index list of the first `i` sprites begins the whole list. */
  lemma {:induction false} IndicesPrefix(sprites: seq<LayerSprite>, i: nat, n: nat)
    requires i <= n <= |sprites|
    ensures Indices(sprites, i) <= Indices(sprites, n)
    decreases n
  {
    if i < n {
      IndicesPrefix(sprites, i, n - 1);
    }
  }

  /** A drawn sprite at position 16384 has its first index 65536, which the
      `Uint16Array` conversion turns into 0, so the drawn indices differ from
      the computed ones. */
  lemma IndexWraps(sprites: seq<LayerSprite>)
    requires |sprites| > 0x4000 && sprites[0x4000].vertices.Some?
    ensures AsUint16Array(Indices(sprites, |sprites|)) != Indices(sprites, |sprites|)
  {
    var ind := Indices(sprites, |sprites|);
    var p := |Indices(sprites, 0x4000)|;
    IndicesPrefix(sprites, 0x4001, |sprites|);
    assert Indices(sprites, 0x4001) == Indices(sprites, 0x4000) + QuadIndices(0x1_0000);
    assert ind[p] == 0x1_0000;
    assert AsUint16Array(ind)[p] == 0;
  }
}
