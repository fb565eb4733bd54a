/** The two renderers: cpp/11/terrain (one camera and a scene root) and
    cpp/10/shadows (the same, plus one framebuffer the scene is drawn into
    before a full-screen quad shows it). Both are immutable values here;
    GL state changes become calls in a trace. */
module Renderers {
  import opened Common
  import opened Linear
  import C = Cameras
  import S = SceneGraph

  /** glm::perspective(fovy, (float)width / (float)height, near, far): the
      division happens inside, so a zero height is the caller's problem. */
  type Perspective = (real, nat, nat, real, real) -> Mat4

  /** The state-setting calls a Render makes, in order. */
  datatype Call =
    | EnableDepthTest
    | DisableDepthTest
    | EnableTexture2D
    | Viewport(width: nat, height: nat)
    | ClearColor(r: real, g: real, b: real, a: real)
    | Clear(depth: bool, colour: bool)
    | PolygonMode(lines: bool)
    | Scene(e: S.Event)
    | FramebufferUpdate(fb: nat)
    | FramebufferBind(fb: nat)
    | FramebufferUnbind(fb: nat)
    | FramebufferShaderBind(fb: nat)
    | FramebufferDraw(fb: nat)
    | FramebufferShaderUnbind(fb: nat)

  /** A pointer the destructor deletes. */
  datatype Deleted = CameraSlot(i: nat) | FramebufferSlot(i: nat)

  /** The vertical field of view, near and far planes of every Update. */
  const FieldOfView: real := 45.0
  const Near: real := 0.1
  const Far: real := 512.0

  /** The calls both renderers make before drawing the scene: depth test,
      texturing, viewport, a near-black clear, and the polygon mode: lines
      exactly when W is held, otherwise fill. */
  function Prologue(width: nat, height: nat, wHeld: bool): (r: seq<Call>)
    ensures |r| == 6 && r[5] == PolygonMode(wHeld)
    ensures forall i | 0 <= i < |r| :: !r[i].Scene? && (r[i].PolygonMode? ==> i == 5)
  {
    [ EnableDepthTest, EnableTexture2D, Viewport(width, height),
      ClearColor(0.01, 0.01, 0.01, 1.0), Clear(true, true), PolygonMode(wHeld) ]
  }

  function SceneCalls(es: seq<S.Event>): (r: seq<Call>)
    ensures |r| == |es|
    ensures forall i | 0 <= i < |es| :: r[i] == Scene(es[i])
  {
    if es == [] then [] else [Scene(es[0])] + SceneCalls(es[1..])
  }

  /** The scene-graph calls inside a renderer trace, in order. */
  function SceneOf(t: seq<Call>): (r: seq<S.Event>)
    ensures |r| <= |t|
  {
    if t == [] then []
    else (if t[0].Scene? then [t[0].e] else []) + SceneOf(t[1..])
  }

  lemma {:induction false} SceneOfAppend(a: seq<Call>, b: seq<Call>)
    ensures SceneOf(a + b) == SceneOf(a) + SceneOf(b)
  {
    if a == [] {
      assert a + b == b;
    } else {
      assert (a + b)[0] == a[0];
      assert (a + b)[1..] == a[1..] + b;
      SceneOfAppend(a[1..], b);
    }
  }

  lemma {:induction false} SceneOfSceneCalls(es: seq<S.Event>)
    ensures SceneOf(SceneCalls(es)) == es
  {
    if es != [] {
      assert SceneCalls(es) == [Scene(es[0])] + SceneCalls(es[1..]);
      SceneOfAppend([Scene(es[0])], SceneCalls(es[1..]));
      SceneOfSceneCalls(es[1..]);
    }
  }

  lemma {:induction false} SceneOfNone(t: seq<Call>)
    requires forall i | 0 <= i < |t| :: !t[i].Scene?
    ensures SceneOf(t) == []
  {
    if t != [] {
      SceneOfNone(t[1..]);
    }
  }

  /** The calls that hand the scene to the root: Draw if there is a root,
      nothing otherwise. */
  function DrawRoot(root: Option<S.Node>): seq<Call> {
    if root.Some? then SceneCalls(S.Draw(root.value)) else []
  }

  // ---------------------------------------------------------------------
  // cpp/11/terrain

  datatype Renderer = Renderer(
    width: nat,
    height: nat,
    cameras: seq<C.Camera>,
    root: Option<S.Node>,
    projection: Mat4)

  /** Renderer::Renderer: one default camera and no root. The projection is
      not set until the first Update; its indeterminate value is a
      parameter, as is the new camera's indeterminate mouse sample. */
  function New(w: nat, h: nat, mouse: C.Vec2, projection: Mat4): (r: Renderer)
    requires w < U32_MODULUS && h < U32_MODULUS
    ensures |r.cameras| == 1 && r.cameras[0] == C.New(mouse)
    ensures r.root == None
    ensures r.width == w && r.height == h
  {
    Renderer(w, h, [C.New(mouse)], None, projection)
  }

  /** Renderer::setRoot: the root is replaced, nothing else changes. */
  function SetRoot(r: Renderer, root: Option<S.Node>): (q: Renderer)
    ensures q.root == root && q.(root := r.root) == r
  {
    r.(root := root)
  }

  /** The guard in Renderer::GetCamera, `index > m_cameras.size() - 1`,
      evaluated in 64-bit size_t arithmetic. */
  predicate GuardFires(index: nat, size: nat)
    requires index < U32_MODULUS && size < U64_MODULUS
  {
    index > (size - 1) % U64_MODULUS
  }

  /** The guard is the out-of-range test for a non-empty camera list, and
      never fires for an empty one because size() - 1 wraps to the
      largest size_t. Either way its body is empty, so GetCamera below
      requires an index in range. */
  lemma GuardMeaning(index: nat, size: nat)
    requires index < U32_MODULUS && size < U64_MODULUS
    ensures size == 0 ==> !GuardFires(index, size)
    ensures size > 0 ==> (GuardFires(index, size) <==> index >= size)
  {
  }

  /** Renderer::GetCamera read through. */
  function GetCamera(r: Renderer, index: nat): (c: C.Camera)
    requires index < |r.cameras|
    ensures c in r.cameras
  {
    r.cameras[index]
  }

  /** A write through the reference GetCamera returns: that slot alone
      changes. */
  function SetCamera(r: Renderer, index: nat, c: C.Camera): (q: Renderer)
    requires index < |r.cameras|
    ensures |q.cameras| == |r.cameras| && GetCamera(q, index) == c
    ensures forall j | 0 <= j < |r.cameras| && j != index :: GetCamera(q, j) == GetCamera(r, j)
    ensures q.root == r.root && q.width == r.width && q.height == r.height && q.projection == r.projection
  {
    r.(cameras := r.cameras[index := c])
  }

  /** Renderer::Update: store the perspective projection, then update the
      root, if any, with it and camera 0. */
  function Update(r: Renderer, v: S.Version, perspective: Perspective, lookAt: S.LookAt): (out: (Renderer, seq<S.Event>))
    requires r.root.Some? ==> |r.cameras| >= 1
    ensures out.0 == r.(projection := perspective(C.Radians(FieldOfView), r.width, r.height, Near, Far))
    ensures r.root == None ==> out.1 == []
    ensures r.root.Some? ==> out.1 == S.Update(v, r.root.value, out.0.projection, r.cameras[0], lookAt)
  {
    var projection := perspective(C.Radians(FieldOfView), r.width, r.height, Near, Far);
    (r.(projection := projection),
     if r.root.Some? then S.Update(v, r.root.value, projection, r.cameras[0], lookAt) else [])
  }

  /** Renderer::Render: set up the frame, choose the polygon mode from the W
      key, then draw the root, if any. */
  function Render(r: Renderer, wHeld: bool): (t: seq<Call>)
    ensures |t| >= 6 && t[5] == PolygonMode(wHeld)
  {
    Prologue(r.width, r.height, wHeld) + DrawRoot(r.root)
  }

  /** Render's scene calls are exactly the root's Draw, or none without a
      root; it sets the polygon mode exactly once, to lines iff W is held. */
  lemma RenderDrawsRoot(r: Renderer, wHeld: bool)
    ensures SceneOf(Render(r, wHeld)) == (if r.root.Some? then S.Draw(r.root.value) else [])
    ensures forall i | 0 <= i < |Render(r, wHeld)| && Render(r, wHeld)[i].PolygonMode? :: i == 5 && Render(r, wHeld)[i].lines == wHeld
  {
    var p := Prologue(r.width, r.height, wHeld);
    SceneOfAppend(p, DrawRoot(r.root));
    SceneOfNone(p);
    if r.root.Some? {
      SceneOfSceneCalls(S.Draw(r.root.value));
    }
  }

  /** Renderer::~Renderer: every camera, in order. The root is not deleted. */
  function Destroy(r: Renderer): (d: seq<Deleted>)
    ensures forall x :: x in d <==> x.CameraSlot? && x.i < |r.cameras|
    ensures S.Distinct(d)
  {
    var d := seq(|r.cameras|, i requires 0 <= i => CameraSlot(i));
    assert forall x: Deleted | x.CameraSlot? && x.i < |r.cameras| :: d[x.i] == x;
    d
  }

  // ---------------------------------------------------------------------
  // cpp/10/shadows

  datatype Framebuffer = Framebuffer(width: nat, height: nat)

  datatype FboRenderer = FboRenderer(
    base: Renderer,
    framebuffers: seq<Framebuffer>)

  /** Renderer::Renderer of cpp/10/shadows: one camera, no root, and one
      framebuffer of the screen's size. */
  function NewFbo(w: nat, h: nat, mouse: C.Vec2, projection: Mat4): (r: FboRenderer)
    requires w < U32_MODULUS && h < U32_MODULUS
    ensures |r.base.cameras| == 1 && r.base.root == None
    ensures r.framebuffers == [Framebuffer(w, h)]
  {
    FboRenderer(New(w, h, mouse, projection), [Framebuffer(w, h)])
  }

  function SetRootFbo(r: FboRenderer, root: Option<S.Node>): (q: FboRenderer)
    ensures q.base.root == root && q.(base := q.base.(root := r.base.root)) == r
  {
    r.(base := SetRoot(r.base, root))
  }

  /** Renderer::Update of cpp/10/shadows; identical to the other. */
  function UpdateFbo(r: FboRenderer, v: S.Version, perspective: Perspective, lookAt: S.LookAt): (out: (FboRenderer, seq<S.Event>))
    requires r.base.root.Some? ==> |r.base.cameras| >= 1
    ensures out.0.framebuffers == r.framebuffers
    ensures (out.0.base, out.1) == Update(r.base, v, perspective, lookAt)
  {
    var (b, es) := Update(r.base, v, perspective, lookAt);
    (r.(base := b), es)
  }

  /** What follows the scene in a framebuffer Render: unbind framebuffer 0,
      clear to white without depth testing, and draw its quad with its own
      shader. */
  const FboEpilogue: seq<Call> :=
    [ FramebufferUnbind(0), DisableDepthTest, ClearColor(1.0, 1.0, 1.0, 1.0), Clear(false, true),
      FramebufferShaderBind(0), FramebufferDraw(0), FramebufferShaderUnbind(0) ]

  /** Renderer::Render of cpp/10/shadows: the scene is drawn into
      framebuffer 0, which is then shown on a white background by its own
      shader. Only framebuffer 0 is used, so it must exist. */
  function RenderFbo(r: FboRenderer, wHeld: bool): (t: seq<Call>)
    requires |r.framebuffers| >= 1
    ensures |t| >= 15 && t[7] == PolygonMode(wHeld)
  {
    [FramebufferUpdate(0), FramebufferBind(0)]
      + Prologue(r.base.width, r.base.height, wHeld)
      + DrawRoot(r.base.root)
      + FboEpilogue
  }

  /** A trace whose head and tail make no scene call has its scene calls in
      the middle part only. */
  lemma SceneOnlyInMiddle(head: seq<Call>, mid: seq<Call>, tail: seq<Call>)
    requires forall i | 0 <= i < |head| :: !head[i].Scene?
    requires forall i | 0 <= i < |tail| :: !tail[i].Scene?
    ensures forall i | 0 <= i < |head + mid + tail| && (head + mid + tail)[i].Scene? :: |head| <= i < |head| + |mid|
  {
    var t := head + mid + tail;
    assert forall i | 0 <= i < |head| :: t[i] == head[i];
    assert forall i | |head| + |mid| <= i < |t| :: t[i] == tail[i - |head| - |mid|];
  }

  /** The epilogue makes no scene call. */
  lemma EpilogueHasNoScene()
    ensures forall i | 0 <= i < |FboEpilogue| :: !FboEpilogue[i].Scene?
  {
  }

  /** The framebuffer render's scene calls are exactly the root's Draw. */
  lemma RenderFboScene(r: FboRenderer, wHeld: bool)
    requires |r.framebuffers| >= 1
    ensures SceneOf(RenderFbo(r, wHeld)) == (if r.base.root.Some? then S.Draw(r.base.root.value) else [])
  {
    var head := [FramebufferUpdate(0), FramebufferBind(0)] + Prologue(r.base.width, r.base.height, wHeld);
    var scene := DrawRoot(r.base.root);
    assert RenderFbo(r, wHeld) == head + scene + FboEpilogue;
    SceneOfAppend(head + scene, FboEpilogue);
    SceneOfAppend(head, scene);
    SceneOfNone(head);
    EpilogueHasNoScene();
    SceneOfNone(FboEpilogue);
    if r.base.root.Some? {
      SceneOfSceneCalls(S.Draw(r.base.root.value));
    }
  }

  /** In the framebuffer renderer the scene calls are the root's Draw, every
      one of them made while framebuffer 0 is bound (after the bind at 1,
      before the unbind that opens the last seven calls), and the quad is
      drawn last, between its shader's bind and unbind. */
  lemma RenderFboOrder(r: FboRenderer, wHeld: bool)
    requires |r.framebuffers| >= 1
    ensures var t := RenderFbo(r, wHeld);
      && SceneOf(t) == (if r.base.root.Some? then S.Draw(r.base.root.value) else [])
      && t[1] == FramebufferBind(0)
      && t[|t| - 7] == FramebufferUnbind(0)
      && (forall i | 0 <= i < |t| && t[i].Scene? :: 1 < i < |t| - 7)
      && t[|t| - 3..] == [FramebufferShaderBind(0), FramebufferDraw(0), FramebufferShaderUnbind(0)]
  {
    RenderFboScene(r, wHeld);
    var t := RenderFbo(r, wHeld);
    var head := [FramebufferUpdate(0), FramebufferBind(0)] + Prologue(r.base.width, r.base.height, wHeld);
    var scene := DrawRoot(r.base.root);
    assert t == head + scene + FboEpilogue;
    assert head[1] == FramebufferBind(0);
    EpilogueHasNoScene();
    SceneOnlyInMiddle(head, scene, FboEpilogue);
    assert t[|head| + |scene|..] == FboEpilogue;
  }

  /** Renderer::~Renderer of cpp/10/shadows: every camera, then every
      framebuffer, each once. */
  function DestroyFbo(r: FboRenderer): (d: seq<Deleted>)
    ensures forall x :: x in d <==> (x.CameraSlot? && x.i < |r.base.cameras|) || (x.FramebufferSlot? && x.i < |r.framebuffers|)
    ensures S.Distinct(d)
  {
    var cs := Destroy(r.base);
    var fs := seq(|r.framebuffers|, i requires 0 <= i => FramebufferSlot(i));
    assert forall x: Deleted | x.FramebufferSlot? && x.i < |r.framebuffers| :: fs[x.i] == x;
    assert forall i, j | 0 <= i < |cs| && 0 <= j < |fs| :: cs[i] != fs[j] by {
      forall i, j | 0 <= i < |cs| && 0 <= j < |fs| ensures cs[i] != fs[j] {
        assert cs[i] in cs;
      }
    }
    cs + fs
  }
}
