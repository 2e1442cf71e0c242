/** The sprite component of `spriteComponent.ts`: a rectangle textured with
    one entry of a sprite sheet, optionally animated by walking the sheet's
    numbered frames `<name>1`, `<name>2`, ... and wrapping back to the first
    one, firing the registered end-of-animation callbacks on every wrap. */
module Sprites {
  import opened Optional

  datatype Size = Size(w: real, h: real)
  datatype UV = UV(x: real, y: real, w: real, h: real)

  /** A sprite-sheet entry: on-screen frame size, texture rectangle and
      original size. */
  datatype FrameEntry = FrameEntry(frame: Size, uv: UV, sourceSize: Size)

  /** The `sprites` table of a sprite sheet, by name. */
  type Sheet = map<string, FrameEntry>

  /** A registered end-of-animation callback; firing it is recorded in a log. */
  type EventId = nat

  // ---------------------------------------------------------------------------
  // Frame names

  function DigitChar(d: nat): char
    requires d < 10
  {
    ('0' as int + d) as char
  }

  /** The decimal rendering of a non-negative number in a template string. */
  function DecimalString(n: nat): (s: string)
    ensures |s| >= 1
    ensures forall i :: 0 <= i < |s| ==> '0' <= s[i] <= '9'
    ensures s[0] == '0' ==> n == 0
  {
    if n < 10 then [DigitChar(n)] else DecimalString(n / 10) + [DigitChar(n % 10)]
  }

  /** The value of a string of decimal digits. */
  function DecimalValue(s: string): nat
    requires forall i :: 0 <= i < |s| ==> '0' <= s[i] <= '9'
  {
    if s == [] then 0
    else DecimalValue(s[..|s| - 1]) * 10 + (s[|s| - 1] as int - '0' as int)
  }

  /** Reading back a rendered number gives the number, so distinct frame
      numbers have distinct names. */
  lemma {:induction false} DecimalRoundTrip(n: nat)
    ensures DecimalValue(DecimalString(n)) == n
  {
    if n >= 10 {
      var s := DecimalString(n);
      DecimalRoundTrip(n / 10);
      assert s[..|s| - 1] == DecimalString(n / 10);
    }
  }

  /** The name of frame `n` of the animation `base`. */
  function FrameName(base: string, n: nat): string
  {
    base + DecimalString(n)
  }

  lemma FrameNamesDistinct(base: string, m: nat, n: nat)
    requires m != n
    ensures FrameName(base, m) != FrameName(base, n)
  {
    if FrameName(base, m) == FrameName(base, n) {
      assert DecimalString(m) == FrameName(base, m)[|base|..];
      assert DecimalString(n) == FrameName(base, n)[|base|..];
      DecimalRoundTrip(m);
      DecimalRoundTrip(n);
    }
  }

  // ---------------------------------------------------------------------------
  // Animation stepping

  /** The outcome of choosing the next frame: the sheet name to show, the new
      frame counter, and whether the animation wrapped (resetting the wait
      counter and firing the end callbacks). */
  datatype Advance = Advance(name: string, frame: nat, ended: bool)

  /** What `findNextFrameName` chooses from frame counter `frame`. */
  function NextFrame(sheet: Sheet, base: string, frame: nat): (r: Advance)
    requires frame >= 1
    ensures r.frame >= 1
    ensures r.name in sheet || r.name == base
    ensures r.frame == frame + 1 <==> FrameName(base, frame) in sheet
    ensures r.ended <==> FrameName(base, frame) !in sheet && frame > 1
    ensures r.ended ==> r.frame <= 2
    ensures FrameName(base, frame) in sheet ==> r == Advance(FrameName(base, frame), frame + 1, false)
    ensures FrameName(base, frame) !in sheet && frame == 1 ==> r == Advance(base, 1, false)
    ensures r.ended ==>
      r == if FrameName(base, 1) in sheet then Advance(FrameName(base, 1), 2, true) else Advance(base, 1, true)
    decreases frame
  {
    if FrameName(base, frame) in sheet then Advance(FrameName(base, frame), frame + 1, false)
    else if frame == 1 then Advance(base, 1, false)
    else
      var retry := NextFrame(sheet, base, 1);
      Advance(retry.name, retry.frame, true)
  }

  ghost predicate HasFrames(sheet: Sheet, base: string, k: nat)
  {
    forall j :: 1 <= j <= k ==> FrameName(base, j) in sheet
  }

  /** The names shown over `steps` successive frame choices. */
  function Play(sheet: Sheet, base: string, frame: nat, steps: nat): (names: seq<string>)
    requires frame >= 1
    ensures |names| == steps
    decreases steps
  {
    if steps == 0 then []
    else
      var adv := NextFrame(sheet, base, frame);
      [adv.name] + Play(sheet, base, adv.frame, steps - 1)
  }

  /** With frames 1..k in the sheet, an animation at frame j shows frames
      j..k in order. */
  lemma {:induction false} PlaysInOrder(sheet: Sheet, base: string, k: nat, j: nat)
    requires 1 <= j <= k + 1
    requires HasFrames(sheet, base, k)
    ensures Play(sheet, base, j, k + 1 - j) == seq(k + 1 - j, i requires 0 <= i => FrameName(base, j + i))
    decreases k + 1 - j
  {
    if j <= k {
      PlaysInOrder(sheet, base, k, j + 1);
      var tail := seq(k - j, i requires 0 <= i => FrameName(base, j + 1 + i));
      var all := seq(k + 1 - j, i requires 0 <= i => FrameName(base, j + i));
      assert all == [FrameName(base, j)] + tail;
    }
  }

  /** ... and after frame k, with frame k+1 absent, it wraps to frame 1 and
      signals the end of the animation. */
  lemma CycleWraps(sheet: Sheet, base: string, k: nat)
    requires k >= 1 && HasFrames(sheet, base, k) && FrameName(base, k + 1) !in sheet
    ensures NextFrame(sheet, base, k + 1) == Advance(FrameName(base, 1), 2, true)
  {
    assert FrameName(base, 1) in sheet;
  }

  /** The animated part of the component's state. */
  datatype Anim = Anim(frame: nat, waitCounter: int, fired: seq<EventId>,
                       descr: Option<FrameEntry>, spriteSize: Option<Size>)

  /** The settings `update` reads but does not change. */
  datatype Config = Config(sheet: Sheet, spriteName: string, isAnimated: bool,
                           frameSkip: int, animWait: int, events: seq<EventId>)

  /** The sheet name `updateMesh` looks up: the next frame of an animation,
      or the sprite's own name. */
  function ChosenName(c: Config, a: Anim): string
    requires a.frame >= 1
  {
    if c.isAnimated then NextFrame(c.sheet, c.spriteName, a.frame).name else c.spriteName
  }

  /** `updateMesh`: choose a name, then take its sheet entry if there is one. */
  function MeshStep(c: Config, a: Anim): (r: Anim)
    requires a.frame >= 1
    ensures r.frame >= 1
    ensures ChosenName(c, a) in c.sheet ==>
      r.descr == Some(c.sheet[ChosenName(c, a)]) && r.spriteSize == Some(c.sheet[ChosenName(c, a)].sourceSize)
    ensures ChosenName(c, a) !in c.sheet ==> r.descr == a.descr && r.spriteSize == a.spriteSize
    ensures c.isAnimated ==> var adv := NextFrame(c.sheet, c.spriteName, a.frame);
      r.frame == adv.frame && r.waitCounter == (if adv.ended then c.animWait else a.waitCounter) &&
      r.fired == a.fired + (if adv.ended then c.events else [])
    ensures !c.isAnimated ==> r.frame == a.frame && r.waitCounter == a.waitCounter && r.fired == a.fired
    ensures r.fired == a.fired || r.fired == a.fired + c.events
    ensures (r.descr, r.spriteSize) != (a.descr, a.spriteSize) ==>
      r.descr.Some? && r.descr.value in c.sheet.Values && r.spriteSize == Some(r.descr.value.sourceSize)
  {
    var adv := if c.isAnimated then NextFrame(c.sheet, c.spriteName, a.frame) else Advance(c.spriteName, a.frame, false);
    var moved := a.(frame := adv.frame,
                    waitCounter := if adv.ended then c.animWait else a.waitCounter,
                    fired := a.fired + if adv.ended then c.events else []);
    if adv.name in c.sheet then
      moved.(descr := Some(c.sheet[adv.name]), spriteSize := Some(c.sheet[adv.name].sourceSize))
    else moved
  }

  /** A frame number is due when the frame skip divides it; JavaScript's
      `frame % 0` is NaN, which equals nothing. */
  predicate FrameDue(frameNo: nat, frameSkip: int)
  {
    frameSkip != 0 && frameNo % frameSkip == 0
  }

  /** The animation part of `update` at frame number `frameNo`. */
  function Tick(c: Config, frameNo: nat, a: Anim): (r: Anim)
    requires a.frame >= 1
    ensures r.frame >= 1
  {
    if !c.isAnimated then a
    else if a.waitCounter > 0 then a.(waitCounter := a.waitCounter - 1)
    else if FrameDue(frameNo, c.frameSkip) then MeshStep(c, a)
    else a
  }

  /** A sprite that is not animated never changes its animation state. */
  lemma StaticSpriteFrozen(c: Config, frameNo: nat, a: Anim)
    requires a.frame >= 1 && !c.isAnimated
    ensures Tick(c, frameNo, a) == a
  {
  }

  /** While the wait counter is positive, a tick only counts it down. */
  lemma WaitOnlyCountsDown(c: Config, frameNo: nat, a: Anim)
    requires a.frame >= 1 && c.isAnimated && a.waitCounter > 0
    ensures Tick(c, frameNo, a) == a.(waitCounter := a.waitCounter - 1)
  {
  }

  /** The frame, the callbacks and the displayed entry move only on a due
      frame of an animated sprite that has finished waiting; callbacks fire
      only on a wrap, which also restarts the wait. */
  lemma AdvancesOnlyWhenDue(c: Config, frameNo: nat, a: Anim)
    requires a.frame >= 1
    ensures var r := Tick(c, frameNo, a);
      r.(waitCounter := a.waitCounter) != a ==>
        c.isAnimated && a.waitCounter <= 0 && FrameDue(frameNo, c.frameSkip)
    ensures var r := Tick(c, frameNo, a);
      r.fired != a.fired ==> r.fired == a.fired + c.events && r.waitCounter == c.animWait && r.frame <= 2
  {
  }

  /** When the current frame, frame 1 and the base name are all missing from
      the sheet, the displayed entry stays as it was although the frame counter
      has moved back to 1, the wait has restarted and the callbacks have fired. */
  lemma MissingNameStillMovesFrame(c: Config, a: Anim)
    requires c.isAnimated && a.frame > 1
    requires FrameName(c.spriteName, a.frame) !in c.sheet
    requires FrameName(c.spriteName, 1) !in c.sheet && c.spriteName !in c.sheet
    ensures MeshStep(c, a) == a.(frame := 1, waitCounter := c.animWait, fired := a.fired + c.events)
  {
  }

  // ---------------------------------------------------------------------------
  // Vertices

  /** The 20 numbers of `updateComponents`: four `x, y, z, u, v` corners in
      the order (xMin, yMin), (xMax, yMin), (xMax, yMax), (xMin, yMax), with
      the position at the left and top edges. */
  function VertexLayout(x: real, y: real, z: real, e: FrameEntry): (v: seq<real>)
    ensures |v| == 20
    ensures forall c :: 0 <= c < 4 ==> v[5 * c + 2] == z
    ensures v[0] == x && v[1] == y - e.frame.h && v[3] == e.uv.x && v[4] == e.uv.y
    ensures v[10] == x + e.frame.w && v[11] == y && v[13] == e.uv.x + e.uv.w && v[14] == e.uv.y + e.uv.h
    ensures v[5] == v[10] && v[6] == v[1] && v[8] == v[13] && v[9] == v[4]
    ensures v[15] == v[0] && v[16] == v[11] && v[18] == v[3] && v[19] == v[14]
  {
    var xMin := x;
    var xMax := xMin + e.frame.w;
    var yMax := y;
    var yMin := yMax - e.frame.h;
    var uMin := e.uv.x;
    var uMax := uMin + e.uv.w;
    var vMin := e.uv.y;
    var vMax := vMin + e.uv.h;
    [xMin, yMin, z, uMin, vMin,
     xMax, yMin, z, uMax, vMin,
     xMax, yMax, z, uMax, vMax,
     xMin, yMax, z, uMin, vMax]
  }

  /** The optional fields of a sprite description. */
  datatype SpriteDesc = SpriteDesc(spriteName: Option<string>, isAnimated: Option<bool>,
                                   frameSkip: Option<int>, animWait: Option<int>)

  class SpriteComponent {
    var spriteSheet: Sheet
    var spriteName: string
    var animationEndedEvent: seq<EventId>
    /** The end callbacks fired so far, in order. */
    var fired: seq<EventId>
    var isAnimated: bool
    var frameSkip: int
    var animationFrame: nat
    var animWait: int
    var animWaitCounter: int
    var descr: Option<FrameEntry>
    var spriteSize: Option<Size>
    var vertices: array<real>

    constructor ()
      ensures animationEndedEvent == [] && fired == [] && descr == None && spriteSize == None
      ensures animationFrame == 1
    {
      spriteSheet, spriteName := map[], "";
      animationEndedEvent, fired := [], [];
      isAnimated, frameSkip, animationFrame := false, 1, 1;
      animWait, animWaitCounter := 0, 0;
      descr, spriteSize := None, None;
      vertices := new real[0];
    }

    function AnimState(): Anim
      reads this
    {
      Anim(animationFrame, animWaitCounter, fired, descr, spriteSize)
    }

    function Settings(): Config
      reads this
    {
      Config(spriteSheet, spriteName, isAnimated, frameSkip, animWait, animationEndedEvent)
    }

    /** `create(descr)`: the defaults for missing settings, and the animation
        restarted at frame 1 with a full wait. */
    method Create(d: SpriteDesc)
      modifies this`spriteName, this`isAnimated, this`frameSkip, this`animWait
      modifies this`animationFrame, this`animWaitCounter
      ensures spriteName == if d.spriteName.Some? && d.spriteName.value != "" then d.spriteName.value else "(unknown)"
      ensures isAnimated == if d.isAnimated.Some? then d.isAnimated.value else false
      ensures frameSkip == if d.frameSkip.Some? then d.frameSkip.value else 1
      ensures animWait == if d.animWait.Some? then d.animWait.value else 0
      ensures animationFrame == 1 && animWaitCounter == animWait
    {
      spriteName := if d.spriteName.Some? && d.spriteName.value != "" then d.spriteName.value else "(unknown)";
      isAnimated := if d.isAnimated.Some? then d.isAnimated.value else false;
      frameSkip := if d.frameSkip.Some? then d.frameSkip.value else 1;
      animWait := if d.animWait.Some? then d.animWait.value else 0;
      animationFrame := 1;
      animWaitCounter := animWait;
    }

    /** Another component registers an end-of-animation callback. */
    method OnAnimationEnded(e: EventId)
      modifies this`animationEndedEvent
      ensures animationEndedEvent == old(animationEndedEvent) + [e]
    {
      animationEndedEvent := animationEndedEvent + [e];
    }

    /** `setup(descr)`: attach the sheet, allocate the 20-number vertex store
        and choose the first entry. */
    method Setup(sheet: Sheet)
      requires animationFrame >= 1
      modifies this
      ensures spriteSheet == sheet
      ensures fresh(vertices) && vertices[..] == seq(20, _ => 0.0)
      ensures Settings() == old(Settings()).(sheet := sheet)
      ensures AnimState() == MeshStep(Settings(), old(AnimState()))
    {
      spriteSheet := sheet;
      vertices := new real[20](_ => 0.0);
      UpdateMesh();
    }

    /** `findNextFrameName()`. */
    method FindNextFrameName() returns (name: string)
      requires animationFrame >= 1
      modifies this`animationFrame, this`animWaitCounter, this`fired
      ensures var adv := NextFrame(spriteSheet, spriteName, old(animationFrame));
        name == adv.name && animationFrame == adv.frame &&
        animWaitCounter == (if adv.ended then animWait else old(animWaitCounter)) &&
        fired == old(fired) + (if adv.ended then animationEndedEvent else [])
      decreases animationFrame
    {
      var animationSprite := FrameName(spriteName, animationFrame);
      if animationSprite in spriteSheet {
        animationFrame := animationFrame + 1;
        return animationSprite;
      }
      if animationFrame == 1 {
        return spriteName;
      }
      animationFrame := 1;
      animWaitCounter := animWait;
      var k := 0;
      while k < |animationEndedEvent|
        invariant 0 <= k <= |animationEndedEvent|
        invariant fired == old(fired) + animationEndedEvent[..k]
        modifies this`fired
      {
        fired := fired + [animationEndedEvent[k]];
        k := k + 1;
      }
      assert animationEndedEvent[..k] == animationEndedEvent;
      name := FindNextFrameName();
    }

    /** `updateMesh()`. */
    method UpdateMesh()
      requires animationFrame >= 1
      modifies this`animationFrame, this`animWaitCounter, this`fired, this`descr, this`spriteSize
      ensures AnimState() == MeshStep(Settings(), old(AnimState()))
    {
      var name := if isAnimated then "" else spriteName;
      if isAnimated {
        name := FindNextFrameName();
      }
      if name !in spriteSheet {
        return;
      }
      descr := Some(spriteSheet[name]);
      spriteSize := Some(descr.value.sourceSize);
    }

    /** `update(timing)`: the animation step, then the vertices of the current
        entry at world position (x, y, z). With no entry chosen yet the
        vertex computation fails (`ok` is false) and the store is untouched. */
    method Update(frameNo: nat, x: real, y: real, z: real) returns (ok: bool)
      requires animationFrame >= 1 && vertices.Length == 20
      modifies this`animationFrame, this`animWaitCounter, this`fired, this`descr, this`spriteSize, vertices
      ensures AnimState() == Tick(Settings(), frameNo, old(AnimState()))
      ensures ok == descr.Some?
      ensures ok ==> vertices[..] == VertexLayout(x, y, z, descr.value)
      ensures !ok ==> vertices[..] == old(vertices[..])
    {
      if isAnimated {
        if animWaitCounter > 0 {
          animWaitCounter := animWaitCounter - 1;
        } else if frameSkip != 0 && frameNo % frameSkip == 0 {
          UpdateMesh();
        }
      }
      ok := UpdateComponents(descr, x, y, z);
    }

    /** `updateComponents(descr)`: writes the layout into the store at offset 0. */
    method UpdateComponents(d: Option<FrameEntry>, x: real, y: real, z: real) returns (ok: bool)
      requires vertices.Length == 20
      modifies vertices
      ensures ok == d.Some?
      ensures ok ==> vertices[..] == VertexLayout(x, y, z, d.value)
      ensures !ok ==> vertices[..] == old(vertices[..])
    {
      if d.None? {
        return false;
      }
      var v := VertexLayout(x, y, z, d.value);
      forall i | 0 <= i < 20 {
        vertices[i] := v[i];
      }
      ok := true;
    }
  }
}
