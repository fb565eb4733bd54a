/** The scene graph of 9/shadows/src/SceneNode.cpp and
    10/terrain/src/SceneNode.cpp, modelled literally.

    A node is an inductive tree value. The parent pointer becomes the
    parent's id, which AddChild records. Draw and Update do not return a
    new tree; they return the trace of the shader, object and uniform calls
    they make, each tagged with the node that makes it. This mirrors the
    source, where neither ever writes a node or a transform. Like the source,
    both traversals recurse into children[0] once per child. */
module SceneGraph {
  import opened Common
  import opened Linear
  import T = Transforms
  import C = Cameras

  type NodeId = nat
  /** The identity of the Object a node points at. */
  type ObjectId = nat
  /** The identity of the Shader a node owns. */
  type ShaderId = nat

  datatype Node = Node(
    id: NodeId,
    parent: Option<NodeId>,
    obj: Option<ObjectId>,
    shader: ShaderId,
    local: T.Transform,
    world: T.Transform,
    children: seq<Node>)

  /** A uniform upload: its name and value. */
  datatype Uniform =
    | Int(name: string, i: int)
    | Matrix(name: string, m: Mat4)
    | Vector(name: string, v: Vec3)
    | Float(name: string, f: real)

  /** One call made by a traversal, tagged with the node that made it. */
  datatype Event =
    | ShaderBind(node: NodeId)
    | ObjectBind(node: NodeId)
    | ObjectRender(node: NodeId)
    | SetUniform(node: NodeId, u: Uniform)

  /** glm::lookAt(eye, centre, up), which the model leaves to the caller. */
  type LookAt = (Vec3, Vec3, Vec3) -> Mat4

  // ---------------------------------------------------------------------
  // Sequence helpers

  /** s concatenated k times. */
  function Repeat<X>(s: seq<X>, k: nat): (r: seq<X>)
    ensures |r| == k * |s|
  {
    if k == 0 then [] else s + Repeat(s, k - 1)
  }

  lemma {:induction false} InRepeat<X>(s: seq<X>, k: nat, x: X)
    requires x in Repeat(s, k)
    ensures x in s
  {
    if k > 0 {
      if x !in s {
        InRepeat(s, k - 1, x);
      }
    }
  }

  /** Number of occurrences of x in s. */
  function Occurrences<X(==)>(s: seq<X>, x: X): nat {
    multiset(s)[x]
  }

  lemma {:induction false} OccurrencesRepeat<X>(s: seq<X>, k: nat, x: X)
    ensures Occurrences(Repeat(s, k), x) == k * Occurrences(s, x)
  {
    if k > 0 {
      var o := Occurrences(s, x);
      OccurrencesRepeat(s, k - 1, x);
      assert multiset(s + Repeat(s, k - 1)) == multiset(s) + multiset(Repeat(s, k - 1));
      assert Occurrences(Repeat(s, k), x) == o + (k - 1) * o;
      assert o + (k - 1) * o == k * o;
    }
  }

  /** No element occurs twice. */
  predicate Distinct<X(==)>(s: seq<X>) {
    forall i, j | 0 <= i < j < |s| :: s[i] != s[j]
  }

  // ---------------------------------------------------------------------
  // Tree vocabulary

  /** The ids of every node in the subtree. */
  function Ids(n: Node): set<NodeId>
    decreases n
  {
    {n.id} + IdsOf(n.children)
  }

  function IdsOf(cs: seq<Node>): set<NodeId>
    decreases cs
  {
    if cs == [] then {} else Ids(cs[0]) + IdsOf(cs[1..])
  }

  lemma {:induction false} IdsOfContains(cs: seq<Node>, i: nat)
    requires i < |cs|
    ensures Ids(cs[i]) <= IdsOf(cs)
    decreases cs
  {
    if i > 0 {
      IdsOfContains(cs[1..], i - 1);
    }
  }

  /** Every id in the subtree is distinct. */
  predicate UniqueIds(n: Node)
    decreases n
  {
    n.id !in IdsOf(n.children) && UniqueIdsOf(n.children)
  }

  predicate UniqueIdsOf(cs: seq<Node>)
    decreases cs
  {
    cs == [] || (UniqueIds(cs[0]) && Ids(cs[0]) !! IdsOf(cs[1..]) && UniqueIdsOf(cs[1..]))
  }

  lemma {:induction false} UniqueIdsOfElement(cs: seq<Node>, i: nat)
    requires UniqueIdsOf(cs) && i < |cs|
    ensures UniqueIds(cs[i])
    decreases cs
  {
    if i > 0 {
      UniqueIdsOfElement(cs[1..], i - 1);
    }
  }

  /** In a tree with distinct ids, sibling subtrees share no id. */
  lemma {:induction false} UniqueIdsOfDisjoint(cs: seq<Node>, i: nat, j: nat)
    requires UniqueIdsOf(cs) && i < j < |cs|
    ensures Ids(cs[i]) !! Ids(cs[j])
    decreases cs
  {
    if i == 0 {
      IdsOfContains(cs[1..], j - 1);
    } else {
      UniqueIdsOfDisjoint(cs[1..], i - 1, j - 1);
    }
  }

  /** Every child's parent link names its parent, all the way down. */
  predicate WellLinked(n: Node)
    decreases n
  {
    forall i | 0 <= i < |n.children| :: n.children[i].parent == Some(n.id) && WellLinked(n.children[i])
  }

  // ---------------------------------------------------------------------
  // Construction

  /** SceneNode::SceneNode: stores the object, no parent, no children. The
      shader built from the two shader files is the given `shader`; both
      transforms are default-constructed, that is the identity. */
  function NewNode(id: NodeId, obj: Option<ObjectId>, shader: ShaderId): (n: Node)
    ensures n.parent == None && n.children == [] && n.obj == obj && n.id == id
    ensures n.local.m == Identity() && n.world.m == Identity()
    ensures WellLinked(n) && UniqueIds(n) && Ids(n) == {id}
  {
    Node(id, None, obj, shader, T.New(), T.New(), [])
  }

  /** SceneNode::AddChild: the child's parent becomes this node and it is
      appended after the existing children, which keep their order. */
  function AddChild(p: Node, n: Node): (r: Node)
    ensures |r.children| == |p.children| + 1
    ensures r.children[..|p.children|] == p.children
    ensures r.children[|p.children|] == n.(parent := Some(p.id))
    ensures r.id == p.id && r.parent == p.parent && r.obj == p.obj && r.shader == p.shader
    ensures r.local == p.local && r.world == p.world
  {
    p.(children := p.children + [n.(parent := Some(p.id))])
  }

  /** AddChild keeps a well-linked tree well-linked, and its ids are the
      parent's and the child's. */
  lemma AddChildKeepsLinks(p: Node, n: Node)
    requires WellLinked(p) && WellLinked(n)
    ensures WellLinked(AddChild(p, n))
    ensures Ids(AddChild(p, n)) == Ids(p) + Ids(n)
  {
    var r := AddChild(p, n);
    var cs := p.children + [n.(parent := Some(p.id))];
    assert r.children == cs;
    IdsOfAppend(p.children, n.(parent := Some(p.id)));
  }

  lemma {:induction false} IdsOfAppend(cs: seq<Node>, c: Node)
    ensures IdsOf(cs + [c]) == IdsOf(cs) + Ids(c)
    decreases cs
  {
    if cs == [] {
      assert [c][1..] == [];
    } else {
      assert (cs + [c])[0] == cs[0];
      assert (cs + [c])[1..] == cs[1..] + [c];
      IdsOfAppend(cs[1..], c);
    }
  }

  /** SceneNode::GetLocalTransform used as an lvalue: only the local
      transform changes. */
  function SetLocalTransform(n: Node, t: T.Transform): (r: Node)
    ensures r.local == t && r.(local := n.local) == n
  {
    n.(local := t)
  }

  /** SceneNode::GetWorldTransform used as an lvalue: only the world
      transform changes. */
  function SetWorldTransform(n: Node, t: T.Transform): (r: Node)
    ensures r.world == t && r.(world := n.world) == n
  {
    n.(world := t)
  }

  // ---------------------------------------------------------------------
  // Draw

  /** SceneNode::Draw: bind the shader; if there is an object, render it and
      then draw children[0] once per child. */
  function Draw(n: Node): (r: seq<Event>)
    ensures |r| >= 1 && r[0] == ShaderBind(n.id)
    ensures n.obj == None <==> r == [ShaderBind(n.id)]
    decreases n
  {
    [ShaderBind(n.id)]
      + if n.obj == None then [] else
          [ObjectRender(n.id)]
            + if n.children == [] then [] else Repeat(Draw(n.children[0]), |n.children|)
  }

  /** The nodes whose objects a trace renders, in order. */
  function Renders(t: seq<Event>): (r: seq<NodeId>)
    ensures |r| <= |t|
  {
    if t == [] then []
    else (if t[0].ObjectRender? then [t[0].node] else []) + Renders(t[1..])
  }

  lemma {:induction false} RendersAppend(a: seq<Event>, b: seq<Event>)
    ensures Renders(a + b) == Renders(a) + Renders(b)
  {
    if a == [] {
      assert a + b == b;
    } else {
      assert (a + b)[0] == a[0];
      assert (a + b)[1..] == a[1..] + b;
      RendersAppend(a[1..], b);
    }
  }

  lemma {:induction false} RendersRepeat(t: seq<Event>, k: nat)
    ensures Renders(Repeat(t, k)) == Repeat(Renders(t), k)
  {
    if k > 0 {
      RendersAppend(t, Repeat(t, k - 1));
      RendersRepeat(t, k - 1);
    }
  }

  lemma {:induction false} RendersIn(t: seq<Event>, x: NodeId)
    requires x in Renders(t)
    ensures ObjectRender(x) in t
  {
    if t[0] != ObjectRender(x) {
      RendersIn(t[1..], x);
    }
  }

  /** Draw(n) renders n itself first, then the whole rendering of the first
      child's subtree once per child: nothing of any other child. */
  lemma DrawRendersFirstChildPerChild(n: Node)
    requires n.obj.Some?
    ensures Renders(Draw(n)) == [n.id] + (if n.children == [] then [] else Repeat(Renders(Draw(n.children[0])), |n.children|))
    ensures n.children != [] ==> |Renders(Draw(n))| == 1 + |n.children| * |Renders(Draw(n.children[0]))|
  {
    var rest := if n.children == [] then [] else Repeat(Draw(n.children[0]), |n.children|);
    assert Draw(n) == [ShaderBind(n.id)] + ([ObjectRender(n.id)] + rest);
    RendersAppend([ShaderBind(n.id)], [ObjectRender(n.id)] + rest);
    RendersAppend([ObjectRender(n.id)], rest);
    assert Renders([ShaderBind(n.id)]) == [];
    assert Renders([ObjectRender(n.id)]) == [n.id];
    if n.children != [] {
      RendersRepeat(Draw(n.children[0]), |n.children|);
    }
  }

  /** Every call Draw(n) makes is made by a node of n's subtree: n itself or
      a node under its first child. */
  lemma {:induction false} DrawStaysInFirstChild(n: Node, e: Event)
    requires e in Draw(n)
    ensures e.node == n.id || (n.children != [] && e.node in Ids(n.children[0]))
    ensures e.node in Ids(n)
    decreases n
  {
    if e.node != n.id {
      var c := n.children[0];
      InRepeat(Draw(c), |n.children|, e);
      DrawStaysInFirstChild(c, e);
      IdsOfContains(n.children, 0);
    }
  }

  /** In a tree with distinct ids, Draw never makes a call on behalf of any
      node under a child other than the first. */
  lemma LaterChildrenNeverDrawn(n: Node, i: nat)
    requires UniqueIds(n) && 0 < i < |n.children|
    ensures forall e | e in Draw(n) :: e.node !in Ids(n.children[i])
  {
    IdsOfContains(n.children, i);
    UniqueIdsOfDisjoint(n.children, 0, i);
    forall e | e in Draw(n)
      ensures e.node !in Ids(n.children[i])
    {
      DrawStaysInFirstChild(n, e);
    }
  }

  /** In a tree with distinct ids, when n and its first child both hold an
      object, the first child's object is rendered exactly once per child
      of n. */
  lemma FirstChildRenderedPerChild(n: Node)
    requires UniqueIds(n) && n.obj.Some? && n.children != [] && n.children[0].obj.Some?
    ensures Occurrences(Renders(Draw(n)), n.children[0].id) == |n.children|
  {
    var c := n.children[0];
    IdsOfContains(n.children, 0);
    UniqueIdsOfElement(n.children, 0);
    assert Occurrences(Renders(Draw(c)), c.id) == 1 by {
      DrawRendersFirstChildPerChild(c);
      if c.children != [] {
        var g := c.children[0];
        IdsOfContains(c.children, 0);
        if c.id in Renders(Draw(g)) {
          RendersIn(Draw(g), c.id);
          DrawStaysInFirstChild(g, ObjectRender(c.id));
          assert false;
        }
        assert Occurrences(Renders(Draw(g)), c.id) == 0;
        OccurrencesRepeat(Renders(Draw(g)), |c.children|, c.id);
        assert multiset([c.id] + Repeat(Renders(Draw(g)), |c.children|))
          == multiset([c.id]) + multiset(Repeat(Renders(Draw(g)), |c.children|));
      }
    }
    DrawRendersFirstChildPerChild(n);
    OccurrencesRepeat(Renders(Draw(c)), |n.children|, c.id);
    assert multiset([n.id] + Repeat(Renders(Draw(c)), |n.children|))
      == multiset([n.id]) + multiset(Repeat(Renders(Draw(c)), |n.children|));
  }

  /** A chain: every node holds an object and has at most one child. */
  predicate Chain(n: Node)
    decreases n
  {
    n.obj.Some? && |n.children| <= 1 && (|n.children| == 1 ==> Chain(n.children[0]))
  }

  /** The ids of a chain from root to leaf. */
  function ChainIds(n: Node): seq<NodeId>
    decreases n
  {
    [n.id] + if |n.children| == 1 then ChainIds(n.children[0]) else []
  }

  /** Draw on a chain renders every node exactly once, root to leaf. */
  lemma {:induction false} ChainRendersEachNodeOnce(n: Node)
    requires Chain(n) && UniqueIds(n)
    ensures Renders(Draw(n)) == ChainIds(n)
    ensures Distinct(Renders(Draw(n)))
    ensures forall x :: x in Renders(Draw(n)) <==> x in Ids(n)
    decreases n
  {
    DrawRendersFirstChildPerChild(n);
    if |n.children| == 1 {
      var c := n.children[0];
      assert IdsOf(n.children) == Ids(c) by {
        assert n.children[1..] == [];
      }
      UniqueIdsOfElement(n.children, 0);
      ChainRendersEachNodeOnce(c);
      assert Repeat(Renders(Draw(c)), 1) == Renders(Draw(c));
      DistinctAppend([n.id], ChainIds(c));
    } else {
      assert n.children == [];
    }
  }

  // ---------------------------------------------------------------------
  // Update

  /** The two versions of SceneNode::Update. */
  datatype Version =
    | /** 9/shadows: binds the object, two samplers, two point lights. */
      Shadows
    | /** 10/terrain: no object bind, one sampler, one light. */
      Terrain

  /** The point every light is placed at: the camera's eye plus its view
      direction. */
  function LightPosition(cam: C.Camera): (p: Vec3)
    ensures p.Minus(cam.eye) == cam.view
  {
    Vec3(cam.eye.x + cam.view.x, cam.eye.y + cam.view.y, cam.eye.z + cam.view.z)
  }

  /** Camera::GetWorldToViewmatrix: glm::lookAt from the eye towards
      eye + view. */
  function ViewMatrix(cam: C.Camera, lookAt: LookAt): Mat4 {
    lookAt(cam.eye, cam.eye.Plus(cam.view), cam.up)
  }

  /** The uniforms a node with an object sets, in order. */
  function NodeUniforms(v: Version, n: Node, projection: Mat4, cam: C.Camera, lookAt: LookAt): seq<Uniform> {
    var mvp := [ Matrix("model", n.world.m), Matrix("view", ViewMatrix(cam, lookAt)), Matrix("projection", projection) ];
    var pos := LightPosition(cam);
    match v
    case Shadows =>
      [Int("u_DiffuseMap", 0), Int("u_DetailMap", 1)] + mvp
        + PointLight(0, Vec3(1.0, 1.0, 1.0), pos, 0.003, 0.0)
        + PointLight(1, Vec3(1.0, 0.0, 0.0), pos, 0.09, 0.032)
    case Terrain =>
      [Int("u_DiffuseMap", 0)] + mvp
        + [ Vector("lightColor", Vec3(1.0, 1.0, 1.0)),
            Vector("lightPos", pos),
            Float("ambientIntensity", 0.5) ]
  }

  function SetAll(id: NodeId, us: seq<Uniform>): (r: seq<Event>)
    ensures |r| == |us|
    ensures forall i | 0 <= i < |us| :: r[i] == SetUniform(id, us[i])
  {
    if us == [] then [] else [SetUniform(id, us[0])] + SetAll(id, us[1..])
  }

  /** The calls a node with an object makes before recursing. */
  function NodeUpdate(v: Version, n: Node, projection: Mat4, cam: C.Camera, lookAt: LookAt): seq<Event> {
    (if v == Shadows then [ObjectBind(n.id)] else [])
      + [ShaderBind(n.id)]
      + SetAll(n.id, NodeUniforms(v, n, projection, cam, lookAt))
  }

  /** SceneNode::Update: nothing for a node without an object; otherwise the
      node's own binds and uniforms, then Update on children[0] once per
      child. The tree is an input only: no transform is written. */
  function Update(v: Version, n: Node, projection: Mat4, cam: C.Camera, lookAt: LookAt): (r: seq<Event>)
    ensures n.obj == None <==> r == []
    ensures n.obj.Some? && v == Shadows ==> |r| >= 2 && r[0] == ObjectBind(n.id) && r[1] == ShaderBind(n.id)
    ensures n.obj.Some? && v == Terrain ==> r[0] == ShaderBind(n.id)
    decreases n
  {
    if n.obj == None then []
    else
      NodeUpdate(v, n, projection, cam, lookAt)
        + if n.children == [] then [] else Repeat(Update(v, n.children[0], projection, cam, lookAt), |n.children|)
  }

  /** Names under which a light position is uploaded. */
  predicate IsLightPositionName(name: string) {
    name == "lightPos" || name == "pointLights[0].lightPos" || name == "pointLights[1].lightPos"
  }

  /** The nodes of a subtree. */
  function Subtree(n: Node): set<Node>
    decreases n
  {
    {n} + SubtreeOf(n.children)
  }

  function SubtreeOf(cs: seq<Node>): set<Node>
    decreases cs
  {
    if cs == [] then {} else Subtree(cs[0]) + SubtreeOf(cs[1..])
  }

  lemma NodeUniformsFacts(v: Version, n: Node, projection: Mat4, cam: C.Camera, lookAt: LookAt, u: Uniform)
    requires u in NodeUniforms(v, n, projection, cam, lookAt)
    ensures u.name == "model" ==> u == Matrix("model", n.world.m)
    ensures u.name == "view" ==> u == Matrix("view", ViewMatrix(cam, lookAt))
    ensures u.name == "projection" ==> u == Matrix("projection", projection)
    ensures IsLightPositionName(u.name) ==> u == Vector(u.name, LightPosition(cam))
  {
    var mvp := [ Matrix("model", n.world.m), Matrix("view", ViewMatrix(cam, lookAt)), Matrix("projection", projection) ];
    var pos := LightPosition(cam);
    if u in mvp {
    } else if v == Shadows {
      ShadowLightFacts(pos, u);
    } else {
      assert u in [Int("u_DiffuseMap", 0)] + [ Vector("lightColor", Vec3(1.0, 1.0, 1.0)), Vector("lightPos", pos), Float("ambientIntensity", 0.5) ];
    }
  }

  /** The uniforms of the shadows version other than the matrices: none is
      named like a matrix, and each light position is `pos`. */
  lemma ShadowLightFacts(pos: Vec3, u: Uniform)
    requires u in [Int("u_DiffuseMap", 0), Int("u_DetailMap", 1)] + PointLight(0, Vec3(1.0, 1.0, 1.0), pos, 0.003, 0.0)
        + PointLight(1, Vec3(1.0, 0.0, 0.0), pos, 0.09, 0.032)
    ensures u.name != "model" && u.name != "view" && u.name != "projection"
    ensures IsLightPositionName(u.name) ==> u == Vector(u.name, pos)
  {
    if u in PointLight(0, Vec3(1.0, 1.0, 1.0), pos, 0.003, 0.0) {
      PointLightFacts(0, Vec3(1.0, 1.0, 1.0), pos, 0.003, 0.0, u);
    } else if u in PointLight(1, Vec3(1.0, 0.0, 0.0), pos, 0.09, 0.032) {
      PointLightFacts(1, Vec3(1.0, 0.0, 0.0), pos, 0.09, 0.032, u);
    }
  }

  /** The seven uniforms of `pointLights[i]` in the shadows shader. */
  function PointLight(i: nat, color: Vec3, pos: Vec3, linear: real, quadratic: real): seq<Uniform>
    requires i < 2
  {
    var p := if i == 0 then "pointLights[0]." else "pointLights[1].";
    [ Vector(p + "lightColor", color),
      Vector(p + "lightPos", pos),
      Float(p + "ambientIntensity", 0.9),
      Float(p + "specularStrength", 0.5),
      Float(p + "constant", 1.0),
      Float(p + "linear", linear),
      Float(p + "quadratic", quadratic) ]
  }

  /** No uniform of a point light is named like a matrix, and its position
      is `pos`. */
  lemma PointLightFacts(i: nat, color: Vec3, pos: Vec3, linear: real, quadratic: real, u: Uniform)
    requires i < 2 && u in PointLight(i, color, pos, linear, quadratic)
    ensures u.name != "model" && u.name != "view" && u.name != "projection"
    ensures IsLightPositionName(u.name) ==> u == Vector(u.name, pos)
  {
    var p := if i == 0 then "pointLights[0]." else "pointLights[1].";
    assert p[0] == 'p' && |p| == 15;
    assert u.name[..15] == p;
  }

  lemma NodeUpdateUploads(v: Version, n: Node, projection: Mat4, cam: C.Camera, lookAt: LookAt, e: Event)
    requires e in NodeUpdate(v, n, projection, cam, lookAt) && e.SetUniform?
    ensures e.node == n.id && e.u in NodeUniforms(v, n, projection, cam, lookAt)
  {
    var us := NodeUniforms(v, n, projection, cam, lookAt);
    var pre := (if v == Shadows then [ObjectBind(n.id)] else []) + [ShaderBind(n.id)];
    var own := pre + SetAll(n.id, us);
    var k :| 0 <= k < |own| && own[k] == e;
    assert k >= |pre|;
  }

  /** Every model-matrix upload of Update(n) carries the world transform of
      the subtree node that makes it, every view and projection upload the
      camera's view and the given projection, and every light is placed at
      the camera's eye plus its view direction. */
  lemma {:induction false} UpdateUniforms(v: Version, n: Node, projection: Mat4, cam: C.Camera, lookAt: LookAt, e: Event)
    requires e in Update(v, n, projection, cam, lookAt) && e.SetUniform?
    ensures e.u.name == "model" ==> exists m | m in Subtree(n) :: m.id == e.node && e.u == Matrix("model", m.world.m)
    ensures e.u.name == "view" ==> e.u == Matrix("view", ViewMatrix(cam, lookAt))
    ensures e.u.name == "projection" ==> e.u == Matrix("projection", projection)
    ensures IsLightPositionName(e.u.name) ==> e.u == Vector(e.u.name, LightPosition(cam))
    decreases n
  {
    if e in NodeUpdate(v, n, projection, cam, lookAt) {
      NodeUpdateUploads(v, n, projection, cam, lookAt, e);
      NodeUniformsFacts(v, n, projection, cam, lookAt, e.u);
      assert n in Subtree(n);
    } else {
      var c := n.children[0];
      InRepeat(Update(v, c, projection, cam, lookAt), |n.children|, e);
      UpdateUniforms(v, c, projection, cam, lookAt, e);
      SubtreeOfContains(n.children, 0);
    }
  }

  lemma {:induction false} SubtreeOfContains(cs: seq<Node>, i: nat)
    requires i < |cs|
    ensures Subtree(cs[i]) <= SubtreeOf(cs)
    decreases cs
  {
    if i > 0 {
      SubtreeOfContains(cs[1..], i - 1);
    }
  }

  // ---------------------------------------------------------------------
  // Destruction

  /** The ids `delete`d while destroying n: each child in order, after the
      child's own destructor has deleted the child's subtree. */
  function Released(n: Node): seq<NodeId>
    decreases n
  {
    ReleasedOf(n.children)
  }

  function ReleasedOf(cs: seq<Node>): seq<NodeId>
    decreases cs
  {
    if cs == [] then [] else Released(cs[0]) + [cs[0].id] + ReleasedOf(cs[1..])
  }

  lemma DistinctAppend(a: seq<NodeId>, b: seq<NodeId>)
    requires Distinct(a) && Distinct(b)
    requires forall x | x in a :: x !in b
    ensures Distinct(a + b)
  {
    forall i, j | 0 <= i < j < |a + b|
      ensures (a + b)[i] != (a + b)[j]
    {
      if i < |a| && j >= |a| {
        assert (a + b)[i] in a;
        assert (a + b)[j] == b[j - |a|];
      }
    }
  }

  /** In a tree with distinct ids the destructor deletes every descendant
      exactly once and nothing else: never the node itself. */
  lemma {:induction false} ReleasesEachDescendantOnce(n: Node)
    requires UniqueIds(n)
    ensures Distinct(Released(n))
    ensures forall x :: x in Released(n) <==> x in IdsOf(n.children)
    decreases n
  {
    ReleasesEachOnce(n.children);
  }

  lemma {:induction false} ReleasesEachOnce(cs: seq<Node>)
    requires UniqueIdsOf(cs)
    ensures Distinct(ReleasedOf(cs))
    ensures forall x :: x in ReleasedOf(cs) <==> x in IdsOf(cs)
    decreases cs
  {
    if cs != [] {
      var c := cs[0];
      ReleasesEachDescendantOnce(c);
      ReleasesEachOnce(cs[1..]);
      DistinctAppend(Released(c), [c.id]);
      DistinctAppend(Released(c) + [c.id], ReleasedOf(cs[1..]));
    }
  }
}
