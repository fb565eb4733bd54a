/** The "object-oriented C" picture of an OpenGL context in 3/ooc.cpp and
    dlang/03_opengl/ooc.c: a global context holds a fixed table of buffer
    objects and the next free handle, and generating an object hands out
    that handle and moves the counter on by one. A `void*` payload is an
    address, 0 being NULL; the table of a global starts zeroed. */
module Handles {

  /** The size of the context's object table. */
  const CAPACITY: nat := 100

  /** A `VertexBufferObject`: its handle and its data pointer. */
  datatype Vbo = Vbo(handle: int, data: nat)

  /** The context: the object table and `currentFreeHandle`. */
  datatype Context = Context(vbo: seq<Vbo>, currentFreeHandle: int)

  /** A context whose table has its fixed size, whose counter has not run
      past the table, and whose first `currentFreeHandle` slots each carry
      their own index as handle. */
  predicate Valid(c: Context) {
    && |c.vbo| == CAPACITY
    && 0 <= c.currentFreeHandle <= CAPACITY
    && forall h | 0 <= h < c.currentFreeHandle :: c.vbo[h].handle == h
  }

  /** The global context of a program: a zeroed table and a counter of 0
      (the default member initialiser of 3/ooc.cpp, the zeroed global of
      dlang/03_opengl/ooc.c). */
  const Global: Context := Context(seq(CAPACITY, _ => Vbo(0, 0)), 0)

  /** initGLContext: reset the counter to 0, leaving the table as it is. */
  function InitGLContext(c: Context): (r: Context)
    ensures r.currentFreeHandle == 0 && r.vbo == c.vbo
    ensures |c.vbo| == CAPACITY ==> Valid(r)
  {
    c.(currentFreeHandle := 0)
  }

  /** What `GenerateVertexBufferObject` leaves behind: the new context, the
      handle written through its pointer argument, and its status. */
  datatype Generated = Generated(context: Context, handle: int, status: int)

  /** GenerateVertexBufferObject: the current counter is the new handle; the
      slot at that index records the handle and the data; the counter moves
      on by one; the status is 0. Nothing checks the table's size, so a
      counter inside the table is what the caller must ensure. */
  function Generate(c: Context, data: nat): (r: Generated)
    requires Valid(c) && c.currentFreeHandle < CAPACITY
    ensures r.status == 0 && r.handle == c.currentFreeHandle
    ensures Valid(r.context) && r.context.currentFreeHandle == c.currentFreeHandle + 1
    ensures r.context.vbo[r.handle] == Vbo(r.handle, data)
    ensures forall h | 0 <= h < CAPACITY && h != r.handle :: r.context.vbo[h] == c.vbo[h]
  {
    var current := c.currentFreeHandle;
    Generated(Context(c.vbo[current := Vbo(current, data)], current + 1), current, 0)
  }

  /** useVBO: read the slot of `handle` and report success. Nothing checks
      the handle, so it must lie inside the table. */
  function UseVbo(c: Context, handle: int): (r: (int, nat))
    requires Valid(c) && 0 <= handle < CAPACITY
    ensures r.0 == 0
    ensures r.1 == c.vbo[handle].data
  {
    (0, c.vbo[handle].data)
  }

  /** The handles and final context of generating one object per payload,
      in order. */
  function GenerateAll(c: Context, payloads: seq<nat>): (r: (Context, seq<int>))
    requires Valid(c) && c.currentFreeHandle + |payloads| <= CAPACITY
    ensures Valid(r.0) && r.0.currentFreeHandle == c.currentFreeHandle + |payloads|
    ensures |r.1| == |payloads|
    decreases |payloads|
  {
    if payloads == [] then (c, [])
    else
      var g := Generate(c, payloads[0]);
      var rest := GenerateAll(g.context, payloads[1..]);
      (rest.0, [g.handle] + rest.1)
  }

  /** Successive calls hand out consecutive handles from the counter on, so
      no handle is handed out twice; afterwards `useVBO` on each handle
      reads the data it was generated with. */
  lemma {:induction false} GenerateAllHandles(c: Context, payloads: seq<nat>)
    requires Valid(c) && c.currentFreeHandle + |payloads| <= CAPACITY
    ensures var r := GenerateAll(c, payloads);
      && (forall k | 0 <= k < |r.1| :: r.1[k] == c.currentFreeHandle + k)
      && (forall k | 0 <= k < |payloads| :: UseVbo(r.0, r.1[k]).1 == payloads[k])
    decreases |payloads|
  {
    if payloads != [] {
      var g := Generate(c, payloads[0]);
      GenerateAllHandles(g.context, payloads[1..]);
      var r := GenerateAll(c, payloads);
      var rest := GenerateAll(g.context, payloads[1..]);
      assert r.1 == [g.handle] + rest.1;
      forall k | 0 <= k < |payloads|
        ensures UseVbo(r.0, r.1[k]).1 == payloads[k]
      {
        if k == 0 {
          assert r.1[0] == c.currentFreeHandle;
          LaterGenerationsKeep(g.context, payloads[1..], c.currentFreeHandle);
        } else {
          assert r.1[k] == rest.1[k - 1];
          assert payloads[k] == payloads[1..][k - 1];
        }
      }
    }
  }

  /** Generating more objects leaves the slots below the counter alone. */
  lemma {:induction false} LaterGenerationsKeep(c: Context, payloads: seq<nat>, h: int)
    requires Valid(c) && c.currentFreeHandle + |payloads| <= CAPACITY
    requires 0 <= h < c.currentFreeHandle
    ensures GenerateAll(c, payloads).0.vbo[h] == c.vbo[h]
    decreases |payloads|
  {
    if payloads != [] {
      var g := Generate(c, payloads[0]);
      LaterGenerationsKeep(g.context, payloads[1..], h);
    }
  }

  /** Two handles from one run differ. */
  lemma HandlesAreDistinct(c: Context, payloads: seq<nat>, i: nat, j: nat)
    requires Valid(c) && c.currentFreeHandle + |payloads| <= CAPACITY
    requires i < j < |payloads|
    ensures GenerateAll(c, payloads).1[i] != GenerateAll(c, payloads).1[j]
  {
    GenerateAllHandles(c, payloads);
  }

  /** main of 3/ooc.cpp: three objects with NULL data from the fresh
      global; the third handle, the one printed, is 2. */
  lemma CppMainPrintsTwo()
    ensures GenerateAll(Global, [0, 0, 0]).1 == [0, 1, 2]
  {
    GenerateAllHandles(Global, [0, 0, 0]);
  }

  /** main of dlang/03_opengl/ooc.c: the same after `initGLContext`, on
      whatever table the global holds. */
  lemma CMainPrintsTwo(g: Context)
    requires |g.vbo| == CAPACITY
    ensures GenerateAll(InitGLContext(g), [0, 0, 0]).1 == [0, 1, 2]
  {
    GenerateAllHandles(InitGLContext(g), [0, 0, 0]);
  }
}
