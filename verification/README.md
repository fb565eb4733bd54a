# OpenGL teaching demos: a verified model of their sequential core

The repository is a collection of small OpenGL/SDL demos written for a
graphics course. Most of their lines talk to the GPU or the window, but
underneath sit several pieces of ordinary sequential logic. This project
models that logic in Dafny and proves properties of it:

- **Scene graph and renderers.** `SceneNode` trees with a parent link,
  `AddChild`, and recursive `Draw`/`Update`. The calls these make are
  recorded as a trace of events, each tagged with the node that makes it.
  The child loop that recurses into `m_children[0]` once per child is
  modelled as written. Two `Renderer`s are modelled: the plain one, and
  the framebuffer one, which draws the scene into framebuffer 0 and then
  overlays a full-screen quad.
- **Transforms and cameras.** 4x4 matrices over `real`, the `Transform`
  operators, and the camera's `Move*`/`MouseLook` updates for the two
  camera classes. Rotation and `glm::lookAt`/`perspective` are parameters.
- **Mesh construction.**
  - `Geometry`: parallel attribute arrays, the 14-float interleave of
    `Gen`, `MakeTriangle`, and the bounds check of `AddIndex`.
  - The three `VertexBufferLayout` tables.
  - `MeshMaker`, the builder that removes duplicate triangles by pointer
    identity, and `Vertex` equality.
  - The terrain grid, the UV sphere, and the textured quad object.
- **Images.** The plain PPM ("P3") reader with its optional flip, and
  pixel addressing by `SetPixel`/`GetPixel*`. Also the gradient writer of
  1/main2.cpp.
- **ASCII STL reader.** Line classification, float accumulation, the
  six padding values after each facet normal, and per-facet normal
  recomputation.
- **Small utilities.** `LoadShaderAsString` and the shader wrapper's
  compile and uniform paths, the `ShaderManager` registry, and the handle
  allocator of the two "object-oriented C" demos.

Modelling choices that hold throughout:

- Every C++ object is an immutable value, and a mutator returns the new value.
- GL work is a trace of call values.
- Values the driver or the operating system supplies are parameters. These
  are object ids, compile status, uniform locations, file contents,
  `std::stof`, the bytes of a fresh allocation, and the pressed keys.
- `unsigned int`, `size_t` and `uint8_t` wrap-around is written out
  (`Common.ToU32`, `Common.ToByte`).
- An `exit(1)` and undefined behaviour are explicit outcomes where the
  reader can reach them. Elsewhere they are preconditions, except for the
  missing `return` of `MeshMaker::AddTriangle` (see "Left out").

One file per component:

| file | module | component |
|---|---|---|
| common.dfy | Common | option, byte and fixed-width conversions |
| text.dfy | Text | getline, atoi, find, strtok, string streams |
| linear.dfy | Linear | vectors and 4x4 matrices |
| transform.dfy | Transforms | 10/shadows `Transform` |
| camera.dfy | Cameras, StlCameras | the two camera classes |
| vertex.dfy | Vertices | `IVertex`, `Vertex2`, `Vertex3TN` |
| geometry.dfy | Geometries | `Geometry` |
| layout.dfy | Layouts | `VertexBufferLayout` |
| meshmaker.dfy | MeshMakers | `MeshMaker` |
| terrain.dfy | Terrains | `Terrain` |
| sphere.dfy | Spheres | `Sphere::init` |
| quad.dfy | Objects | 10/terrain `Object` |
| images.dfy | Images | `Image` (PPM) |
| gradient.dfy | Gradients | the gradient writer |
| stl.dfy | Stl | `STLFile` and the inline `STL` class |
| scene.dfy | SceneGraph | `SceneNode` |
| renderer.dfy | Renderers | the two `Renderer`s |
| shader.dfy | Shaders | cubemap `Shader` |
| shadermanager.dfy | ShaderRegistry | `ShaderManager` |
| handles.dfy | Handles | ooc handle allocator |

## Model

| member | source | states |
|---|---|---|
| Cameras.New | cpp/10/shadows/src/Camera.cpp:118-127 | a new camera has its eye at the origin, looks down -z and has +y as up |
| Cameras.MouseLook | cpp/10/shadows/src/Camera.cpp:9-35 | the program-wide first-look flag is cleared, the new mouse sample is remembered, and the eye and up vector stay as they were |
| Cameras.FirstMouseLookKeepsView | cpp/10/shadows/src/Camera.cpp:12-22 | on the first look of the program the previous sample is the new one, so the view does not turn |
| Cameras.MoveForward | cpp/10/shadows/src/Camera.cpp:37-44 | the eye moves by speed times the view; view, up and mouse sample are unchanged |
| Cameras.MoveBackward | cpp/10/shadows/src/Camera.cpp:46-53 | the eye moves back by speed times the view; nothing else changes |
| Cameras.Strafe | cpp/10/shadows/src/Camera.cpp:58-62 | the sideways step has no vertical component |
| Cameras.MoveLeft | cpp/10/shadows/src/Camera.cpp:56-65 | the eye moves against the strafe step, keeping its height; nothing else changes |
| Cameras.MoveRight | cpp/10/shadows/src/Camera.cpp:67-76 | the eye moves along the strafe step, keeping its height; nothing else changes |
| Cameras.MoveUp | cpp/10/shadows/src/Camera.cpp:78-80 | only the eye's height changes, by +speed |
| Cameras.MoveDown | cpp/10/shadows/src/Camera.cpp:82-84 | only the eye's height changes, by -speed |
| Cameras.SetCameraEyePosition | cpp/10/shadows/src/Camera.cpp:87-103 | the eye getters read back exactly the coordinates set; nothing else changes |
| Cameras.ForwardBackwardInverse | cpp/10/shadows/src/Camera.cpp:37-53 | forward and backward by the same speed undo each other, in either order |
| Cameras.LeftRightInverse | cpp/10/shadows/src/Camera.cpp:56-76 | left and right by the same speed undo each other, in either order |
| Cameras.UpDownInverse | cpp/10/shadows/src/Camera.cpp:78-84 | up and down by the same speed undo each other, in either order |
| Cameras.InitialMoveRight | cpp/10/shadows/src/Camera.cpp:67-76 | from the initial camera, moving right by s moves the eye by exactly (s, 0, 0) |
| Cameras.RunKeepsUp | cpp/10/shadows/src/Camera.cpp:9-91 | no sequence of camera operations changes the up vector |
| StlCameras.New | cpp/7/stl_light/src/Camera.cpp:88-97 | the earlier camera starts at (0, 0, 3), looking down -z, up along +y |
| StlCameras.MouseLook | cpp/7/stl_light/src/Camera.cpp:8-27 | the first-look flag is cleared, the sample remembered, eye and up unchanged |
| StlCameras.MouseLookFacts | cpp/7/stl_light/src/Camera.cpp:15-23 | the first look keeps the view, and the vertical mouse position never affects the view |
| StlCameras.MoveForward | cpp/7/stl_light/src/Camera.cpp:30-35 | the eye moves by speed times the view; nothing else changes |
| StlCameras.MoveBackward | cpp/7/stl_light/src/Camera.cpp:37-42 | the eye moves back by speed times the view; nothing else changes |
| StlCameras.ForwardBackwardInverse | cpp/7/stl_light/src/Camera.cpp:30-42 | forward and backward by the same speed undo each other |
| StlCameras.MoveSideways | cpp/7/stl_light/src/Camera.cpp:44-54 | the sideways and vertical moves of the earlier camera change nothing |
| StlCameras.SetCameraEyePosition | cpp/7/stl_light/src/Camera.cpp:57-61 | the eye is set exactly; nothing else changes |
| Linear.Identity | 10/shadows/src/Transform.cpp:14-16 | `glm::mat4(1.0f)` has ones on the diagonal and zeros elsewhere |
| Linear.Mul | 10/shadows/src/Transform.cpp:56 | entry (i, j) of the product is row i of the left factor times column j of the right |
| Linear.Add | 10/shadows/src/Transform.cpp:62 | the sum is taken entry by entry |
| Linear.Translation | 10/shadows/src/Transform.cpp:26 | the translation matrix maps the origin to the point v |
| Linear.ApplyMul | 10/shadows/src/Transform.cpp:78-84 | applying a product applies the right factor first, then the left |
| Linear.MulIdentity | 10/shadows/src/Transform.cpp:5-16 | the identity is a unit on both sides of the product |
| Linear.MulAssociative | 10/shadows/src/Transform.cpp:55-58 | the product is associative, so repeated `*=` can be regrouped |
| Transforms.New | 10/shadows/src/Transform.cpp:5-7 | a new transform leaves every vector unchanged |
| Transforms.LoadIdentity | 10/shadows/src/Transform.cpp:14-16 | whatever the prior state, the matrix becomes the identity and acts as it |
| Transforms.Translate | 10/shadows/src/Transform.cpp:18-27 | a point is first moved by (x, y, z) and then mapped by the previous matrix |
| Transforms.Scale | 10/shadows/src/Transform.cpp:33-35 | a point is first scaled component-wise and then mapped by the previous matrix |
| Transforms.Rotate | 10/shadows/src/Transform.cpp:29-31 | a vector is first rotated and then mapped by the previous matrix |
| Transforms.ApplyTransform | 10/shadows/src/Transform.cpp:49-51 | the matrix is replaced by the argument's, not composed with it |
| Transforms.Assign | 10/shadows/src/Transform.cpp:67-70 | assignment copies the argument's matrix, the same as ApplyTransform |
| Transforms.Times | 10/shadows/src/Transform.cpp:78-84 | `lhs * rhs` acts as rhs first, then lhs |
| Transforms.Plus | 10/shadows/src/Transform.cpp:87-93 | `lhs + rhs` acts as the sum of the two actions |
| Transforms.MulAssign | 10/shadows/src/Transform.cpp:55-58 | `*=` makes the transform act as the argument first, then its old matrix |
| Transforms.AddAssign | 10/shadows/src/Transform.cpp:61-64 | `+=` makes the transform act as the sum of its old action and the argument's |
| Transforms.LoadIdentityThenMulAssign | 10/shadows/src/Transform.cpp:14-16 | loading the identity and then `*= t` leaves exactly t |
| Transforms.MulAssignAssociates | 10/shadows/src/Transform.cpp:55-58 | `*= a` then `*= b` equals `*= (a * b)` |
| Transforms.TranslateTwice | 10/shadows/src/Transform.cpp:18-27 | two translations compose into one translation by the sum |
| Vertices.IVertexEquals | 9/shadows/include/Vertex.hpp:8-13 | comparison through the base class is always false, so it disagrees with equality (a vertex is not equal to itself) |
| Vertices.Vertex2Equals | 9/shadows/include/Vertex.hpp:17-25 | true exactly when the two vertices are equal |
| Vertices.Vertex3TNEquals | 9/shadows/include/Vertex.hpp:42-49 | true exactly when all eight fields agree |
| Vertices.NewVertex3TN | 9/shadows/include/Vertex.hpp:36-38 | position and texture coordinate are those given; the normal is whatever indeterminate value was there |
| Vertices.NewVertex3TNWithNormal | 9/shadows/include/Vertex.hpp:39-41 | the vertex's eight floats are the eight arguments, in order |
| Vertices.FloatsRoundTrip | 9/shadows/include/Vertex.hpp:31-41 | a vertex and its eight floats determine each other |
| Geometries.AddVertex | 9/shadows/src/Geometry.cpp:21-40 | the new vertex gets the next number, the given position and texture coordinate, and (0, 0, 1) as normal, tangent and bitangent; earlier data and the index list are kept |
| Geometries.AddVertexKeeps | 9/shadows/src/Geometry.cpp:21-27 | adding a vertex leaves every earlier vertex's position and texture coordinate as they were |
| Geometries.AddIndex | 9/shadows/src/Geometry.cpp:44-51 | an index up to and including the vertex count is appended; a larger one is dropped and nothing else changes |
| Geometries.AddIndexAdmitsVertexCount | 9/shadows/src/Geometry.cpp:46 | the bound check accepts the vertex count itself, which names no vertex, so valid indices become invalid |
| Geometries.AddIndexChecked | 9/shadows/src/Geometry.cpp:45-50 | with the intended bound an index is appended exactly when it names a vertex, so valid indices stay valid |
| Geometries.Record | 9/shadows/src/Geometry.cpp:80-101 | each vertex contributes 14 floats |
| Geometries.Interleave | 9/shadows/src/Geometry.cpp:77-102 | the records of k vertices take 14 k floats |
| Geometries.InterleaveAt | 9/shadows/src/Geometry.cpp:77-102 | float j of vertex i's record sits at position 14 i + j |
| Geometries.Gen | 9/shadows/src/Geometry.cpp:73-103 | the records of all vertices, in vertex order, are appended after the existing buffer (nothing is cleared), and float j of vertex i lands at 14 i + j past the old end |
| Geometries.SetTriple | 9/shadows/src/Geometry.cpp:154-166 | one vertex's three floats are overwritten and every other vertex's are kept |
| Geometries.MakeTriangle | 9/shadows/src/Geometry.cpp:107-167 | the three indices are appended; the three corners get normal (0, 0, 1) and the frame computed from their positions and texture coordinates; every other vertex and the positions, texture coordinates and buffer are unchanged |
| Geometries.BufferDataSize | 9/shadows/src/Geometry.cpp:59-61 | the float count, equal to the buffer length while it fits in 32 bits |
| Geometries.BufferSizeInBytes | 9/shadows/src/Geometry.cpp:64-66 | the byte count is an `unsigned int` |
| Geometries.IndicesSize | 9/shadows/src/Geometry.cpp:170-172 | the index count, equal to the list length while it fits in 32 bits |
| Geometries.BytesAreFourPerFloat | 9/shadows/src/Geometry.cpp:59-66 | the byte size is four times the float count while it fits, and wraps to 0 at 2^30 floats |
| Layouts.PositionLayout | cpp/10/shadows/src/VertexBufferLayout.cpp:37-101 | one enabled position attribute filling a 3-float stride; vcount floats and icount indices are uploaded |
| Layouts.TextureLayout | cpp/10/shadows/src/VertexBufferLayout.cpp:104-177 | position then a 2-float texture coordinate flagged as normalised, packed into a 5-float stride, both enabled |
| Layouts.NormalLayout | cpp/10/shadows/src/VertexBufferLayout.cpp:187-267 | five enabled attributes numbered 0-4, each starting where the previous ends and filling a 14-float stride |
| Layouts.MeshMakerLayout | 9/shadows/include/MeshMaker.hpp:243-269 | the attributes fill a stride of 8, but only arrays 0 and 1 are enabled, so the texture coordinate array is never switched on |
| Layouts.NormalLayoutReadsGenRecords | cpp/10/shadows/src/VertexBufferLayout.cpp:242-256 | each attribute of the normal layout, read at its offset within a record Gen wrote, yields exactly that vertex's field of the same number |
| MeshMakers.New | 9/shadows/include/MeshMaker.hpp:24-26 | a new builder has the chosen layout, stores nothing and satisfies the builder invariant |
| MeshMakers.Chunks | 9/shadows/include/MeshMaker.hpp:296-297 | the float data read back as vertices has one vertex per eight floats |
| MeshMakers.ChunksAppend | 9/shadows/include/MeshMaker.hpp:120-127 | appending a vertex's eight floats to whole records appends exactly that vertex |
| MeshMakers.InsertStoresVertices | 9/shadows/include/MeshMaker.hpp:115-127 | a new pointer gets the next number and its vertex is stored under that number |
| MeshMakers.InsertKeepsNumbersDistinct | 9/shadows/include/MeshMaker.hpp:115-119 | numbering a new pointer with the map's size keeps numbers unique |
| MeshMakers.InsertKeepsValid | 9/shadows/include/MeshMaker.hpp:115-127 | adding a new pointer keeps the builder invariant and every stored vertex |
| MeshMakers.Lookup | 9/shadows/include/MeshMaker.hpp:111-128 | a known pointer yields its number and adds nothing; a new one gets the next number and its eight floats are appended; the pointer ends up mapped to the number handed out |
| MeshMakers.LookupKeepsValid | 9/shadows/include/MeshMaker.hpp:111-164 | a lookup keeps the invariant, and the number handed out names a stored vertex equal to the pointer's |
| MeshMakers.AddTriangle | 9/shadows/include/MeshMaker.hpp:101-181 | three indices are appended, and they are the corners' numbers in the resulting map |
| MeshMakers.AddTriangleNumbers | 9/shadows/include/MeshMaker.hpp:101-181 | each corner gets its existing number or the next new one, in corner order |
| MeshMakers.EnterKeepsNumbers | 9/shadows/include/MeshMaker.hpp:111-119 | entering a pointer never renumbers one already entered |
| MeshMakers.AddTriangleKeepsNumbers | 9/shadows/include/MeshMaker.hpp:101-181 | AddTriangle never renumbers a pointer it had already seen |
| MeshMakers.AddTriangleVertices | 9/shadows/include/MeshMaker.hpp:101-164 | vertex data is appended only for the corners whose pointers are new, in corner order |
| MeshMakers.AppendTriangleKeepsValid | 9/shadows/include/MeshMaker.hpp:178-180 | appending three numbers of stored vertices keeps every index valid |
| MeshMakers.AddTriangleKeepsValid | 9/shadows/include/MeshMaker.hpp:101-181 | AddTriangle keeps the invariant, its three indices name stored vertices equal to its corners, and earlier vertices stay |
| MeshMakers.FreshTriangle | 9/shadows/include/MeshMaker.hpp:101-181 | three new, distinct pointers are numbered n, n+1, n+2 and their floats appended in order |
| MeshMakers.SecondCorners | 9/shadows/include/MeshMaker.hpp:44-45 | a quad's second triangle uses only the quad's corners, including the fourth |
| MeshMakers.Quad | 9/shadows/include/MeshMaker.hpp:44-45 | two triangles append six indices and keep the layout |
| MeshMakers.QuadKeepsValid | 9/shadows/include/MeshMaker.hpp:44-45 | two AddTriangle calls keep the builder invariant |
| MeshMakers.SecondIndices | 9/shadows/include/MeshMaker.hpp:55-91 | the second triangle's indices are its corners' positions offset by n |
| MeshMakers.QuadOnFreshPointers | 9/shadows/include/MeshMaker.hpp:38-45 | four fresh corners are numbered n to n+3, stored once each in order, and indexed by the quad's two triangles |
| MeshMakers.SecondTriangleOfQuad | 9/shadows/include/MeshMaker.hpp:45 | the second triangle reuses three stored corners and stores only the fourth |
| MeshMakers.VerticesCount | 9/shadows/include/MeshMaker.hpp:198-200 | the float count, eight per stored vertex while it fits in 32 bits |
| MeshMakers.IndicesCount | 9/shadows/include/MeshMaker.hpp:207-209 | the index count while it fits in 32 bits |
| MeshMakers.BufferSizeInBytes | 9/shadows/include/MeshMaker.hpp:184-195 | the vertex size of the layout times the number of indices (not vertices); 0 for the End layout |
| MeshMakers.Make | 9/shadows/include/MeshMaker.hpp:38-41 | a make_shared call gives a fresh address holding the eight given floats |
| MeshMakers.PlaneCorner | 9/shadows/include/MeshMaker.hpp:38-41 | the plane's corner k is allocated at base + k |
| MeshMakers.CreateTexturedPlane | 9/shadows/include/MeshMaker.hpp:35-47 | the plane adds six indices, sets the Vertex3TN layout, and Generate sizes the buffer at 40 bytes per float |
| MeshMakers.PlaneOnFreshBuilder | 9/shadows/include/MeshMaker.hpp:35-47 | the plane stores its four corners once, in order, and indexes them as (n,n+1,n+2) and (n,n+2,n+3) |
| MeshMakers.PlaneKeepsValid | 9/shadows/include/MeshMaker.hpp:35-47 | the plane keeps the builder invariant |
| MeshMakers.CubeCorner | 9/shadows/include/MeshMaker.hpp:51-89 | corner k of the cube is allocated at base + k |
| MeshMakers.CubeCorners | 9/shadows/include/MeshMaker.hpp:51-89 | the 24 corners with their floats, in the order the AddTriangle calls first use them (the back face is allocated 0, 1, 2, 3 and first used 0, 2, 1, 3) |
| MeshMakers.Faces | 9/shadows/include/MeshMaker.hpp:55-91 | one quad per face appends six indices per face |
| MeshMakers.CreateCube | 9/shadows/include/MeshMaker.hpp:49-95 | the cube appends 36 indices whatever x, y and z are, sets the Vertex3TN layout and gets Generate's stride-8 table |
| MeshMakers.FacesIndices | 9/shadows/include/MeshMaker.hpp:55-91 | six indices per face |
| MeshMakers.AllFloats | 9/shadows/include/MeshMaker.hpp:120-163 | eight floats per vertex |
| MeshMakers.AllFloatsOfQuad | 9/shadows/include/MeshMaker.hpp:120-163 | the floats of a face's corners come first, then the rest |
| MeshMakers.GrowsTwice | 9/shadows/include/MeshMaker.hpp:101-181 | the growth of two builder steps adds up |
| MeshMakers.FacesOnFreshBuilder | 9/shadows/include/MeshMaker.hpp:49-91 | with corners fresher than every stored pointer, faces never share a vertex: each stores its four corners in order and indexes them from the next free number |
| MeshMakers.GrowsByFaces | 9/shadows/include/MeshMaker.hpp:49-91 | one face followed by the rest grows the builder by the whole cube's data |
| MeshMakers.FirstQuadOnFreshBuilder | 9/shadows/include/MeshMaker.hpp:51-56 | the first face stores its corners and the remaining corners stay fresh |
| MeshMakers.RestStaysFresh | 9/shadows/include/MeshMaker.hpp:51-91 | corners allocated later remain fresher than everything stored after a face |
| MeshMakers.FacesKeepValid | 9/shadows/include/MeshMaker.hpp:49-91 | adding faces keeps the builder invariant |
| MeshMakers.CubeOnFreshBuilder | 9/shadows/include/MeshMaker.hpp:49-95 | the cube stores 24 vertices, in order, and appends the indices of its twelve triangles |
| MeshMakers.CubeKeepsValid | 9/shadows/include/MeshMaker.hpp:49-95 | the cube keeps the builder invariant |
| MeshMakers.CubeCornersAllocatedAfter | 9/shadows/include/MeshMaker.hpp:51-89 | the cube's corners are allocated in order, after every stored pointer |
| MeshMakers.LayoutIsIrrelevant | 9/shadows/include/MeshMaker.hpp:93 | setting the layout tag does not change the growth |
| MeshMakers.ValidIgnoresLayout | 9/shadows/include/MeshMaker.hpp:93 | setting the layout tag keeps the invariant |
| MeshMakers.CubeIndicesFromZero | 9/shadows/include/MeshMaker.hpp:55-91 | numbered from 0, the cube's index list is 0,1,2,1,0,3, then 4,5,6,6,7,4, and so on face by face, as the AddTriangle calls list them |
| MeshMakers.CubeFaces | 9/shadows/include/MeshMaker.hpp:55-91 | the six faces, back to top, take the shapes flip, strip, strip, flip, strip, flip, numbered in steps of four |
| MeshMakers.QuadIndicesValues | 9/shadows/include/MeshMaker.hpp:44-45 | the six indices of each quad shape |
| MeshMakers.Generate | 9/shadows/include/MeshMaker.hpp:243-269 | stride 8; the index bytes are four per index, and the vertex bytes are the float count times sizeof(Vertex3TN) |
| Images.NewImage | 11/terrain/src/Image.cpp:9-11 | a new image stores only its path; width, height and bits per pixel read 0 and no pixel data is held |
| Images.RowMajorAddressing | 11/terrain/src/Image.cpp:82-97 | in the row-major order a PPM file lists pixels, every pixel of a width by height image owns three distinct bytes inside the buffer |
| Images.SquareAddressing | 13/particles/include/Image.hpp:41-51 | for a square image the getters' offset equals row-major addressing |
| Images.WideImageCollides | 13/particles/include/Image.hpp:41-51 | in an image wider than tall, two different pixels are addressed at the same in-buffer bytes |
| Images.TallImageOverruns | 11/terrain/src/Image.cpp:114-116 | in an image taller than wide, the last pixel is addressed past the end of the buffer |
| Images.GetPixelR | 13/particles/include/Image.hpp:41-43 | the red component is the byte at the pixel's offset, the height serving as row length |
| Images.GetPixelG | 13/particles/include/Image.hpp:45-47 | the green component is the byte after the red one |
| Images.GetPixelB | 13/particles/include/Image.hpp:49-51 | the blue component is the byte two after the red one |
| Images.SetPixel | 11/terrain/src/Image.cpp:105-120 | a coordinate beyond the width or height leaves the image unchanged; otherwise exactly the three bytes of the pixel change, to r, g, b, and nothing else changes |
| Images.SetThenGet | 11/terrain/src/Image.cpp:105-120 | after an accepted SetPixel the three getters return the colour written |
| Images.WidthIsAccepted | 11/terrain/src/Image.cpp:106 | x equal to the width is not rejected |
| Images.FlipSource | 11/terrain/src/Image.cpp:89-95 | byte j of the flipped region comes from the mirrored pixel and keeps its component |
| Images.Flipped | 11/terrain/src/Image.cpp:82-97 | the flip keeps the buffer's length and leaves bytes past the flipped region alone |
| Images.FlipTwice | 11/terrain/src/Image.cpp:82-97 | flipping twice gives the original bytes back |
| Images.FlipMovesPixels | 11/terrain/src/Image.cpp:89-95 | pixel k of the flipped buffer is pixel n/3-1-k of the original, components in the same order |
| Images.FlipPixels | 11/terrain/src/Image.cpp:84-96 | the copy-and-write-back loop computes exactly the reversed pixel order |
| Images.FlipImage | 11/terrain/src/Image.cpp:82-97 | the flip is defined exactly when width*height*3 bytes lie in the buffer, and then reverses those pixels |
| Images.Allocate | 11/terrain/src/Image.cpp:57 | the allocated buffer holds exactly the requested number of bytes |
| Images.ReadLine | 11/terrain/src/Image.cpp:42-74 | a comment line changes nothing; no line changes the path or bits per pixel; the run stops only by exit or undefined behaviour |
| Images.ReadDimensionLine | 11/terrain/src/Image.cpp:49-65 | reading on means both dimensions are positive, the buffer holds width*height*3 bytes and nothing else of the image changed; otherwise the process exits or the behaviour is undefined |
| Images.ReadPixel | 11/terrain/src/Image.cpp:69-72 | a pixel line stores its number, cut to a byte, at the next position exactly when the position lies in the buffer; past it the write is undefined |
| Images.Parse | 11/terrain/src/Image.cpp:42-74 | a completed read keeps the path and bits per pixel and never leaves negative dimensions |
| Images.LoadPPM | 11/terrain/src/Image.cpp:29-98 | a file that cannot be opened leaves the image as it is when no flip is asked for; a load keeps the path and bits per pixel |
| Images.CommentsAreSkipped | 11/terrain/src/Image.cpp:44-46 | inserting a comment line anywhere in the file does not change the outcome |
| Images.ReadDimensions | 11/terrain/src/Image.cpp:49-65 | the line "a b" sets width and height to atoi of its words and allocates when both are positive, else exits |
| Images.DimensionWords | 11/terrain/src/Image.cpp:51-53 | tokenising "a b" at blanks gives the two words a and b |
| Images.NonPositiveDimensionExits | 11/terrain/src/Image.cpp:62-65 | a header with a zero or negative dimension ends the process with those dimensions stored |
| Images.IntToStringWord | 11/terrain/src/Image.cpp:44-54 | a written number is one blank-free word that is neither a comment nor a magic line |
| Images.PixelLines | 11/terrain/src/Image.cpp:70 | one line per pixel byte |
| Images.ReadPixelLine | 11/terrain/src/Image.cpp:69-72 | a written byte value read past the header is stored as that same byte at the next position |
| Images.Overwrite | 11/terrain/src/Image.cpp:70-71 | writing a run of bytes from a position keeps the buffer's length |
| Images.OverwriteStep | 11/terrain/src/Image.cpp:70-71 | storing one byte then the rest is storing the whole run |
| Images.ParsePixels | 11/terrain/src/Image.cpp:69-72 | pixel lines fill the buffer in order from the current position when they fit, and one line too many is undefined behaviour |
| Images.ParseHeader | 11/terrain/src/Image.cpp:47-68 | the magic, dimension and maximum-value lines take a new image to a width by height buffer with magic "P3" |
| Images.ReadMagicLine | 11/terrain/src/Image.cpp:47-48 | a line starting with 'P' is stored as the magic number and counted |
| Images.ReadMaxValueLine | 11/terrain/src/Image.cpp:66-68 | the maximum-value line is counted and otherwise ignored |
| Images.ParseNext | 11/terrain/src/Image.cpp:42-74 | a line that lets the reader go on leaves the rest of the run to the remaining lines |
| Images.LoadWrittenPPM | 11/terrain/src/Image.cpp:29-98 | a P3 file with one byte per line is read back as exactly the image it describes, flipped when asked, whatever the allocator supplied |
| Text.DigitValue | 11/terrain/src/Image.cpp:70 | the value of a decimal digit is below ten |
| Text.DigitChar | 11/terrain/src/Image.cpp:55 | the digit written for a value below ten is a digit that reads back as that value |
| Text.IndexOf | cpp/13/cubemap/include/shader.hpp:47 | the first occurrence of a character, or none exactly when it does not occur |
| Text.Lines | cpp/13/cubemap/include/shader.hpp:47-49 | the lines getline extracts contain no newline |
| Text.JoinLinesOfLines | cpp/13/cubemap/include/shader.hpp:47-49 | appending a newline to every extracted line rebuilds the text, plus a final newline when it lacked one |
| Text.LinesOfJoinLines | cpp/13/cubemap/include/shader.hpp:47-49 | newline-free lines, each followed by a newline, split back into the same lines |
| Text.SplitAtNewline | cpp/13/cubemap/include/shader.hpp:47 | the first newline ends the first extracted line and the rest of the text gives the remaining lines |
| Text.FirstNewline | cpp/13/cubemap/include/shader.hpp:47 | in a + newline + b with a newline-free, the first newline is at the length of a |
| Text.Span | 11/terrain/src/Image.cpp:52 | the longest prefix whose characters all satisfy the predicate |
| Text.NatToString | 11/terrain/src/Image.cpp:55 | a non-empty run of digits without a leading zero |
| Text.DigitsOfNatToString | 11/terrain/src/Image.cpp:55 | the digits written for n have value n |
| Text.AtoiNatToString | 11/terrain/src/Image.cpp:70 | atoi reads a written natural number, and its negation, back exactly |
| Text.AtoiOfDigits | 11/terrain/src/Image.cpp:70 | atoi of a digit string is the digits' value |
| Text.AtoiIntToString | 11/terrain/src/Image.cpp:52-54 | atoi reads every written integer back exactly |
| Text.Find | 7/stl_light/src/STL.cpp:29-30 | find returns the first position where the pattern occurs, and nothing exactly when it occurs nowhere |
| Text.Words | 7/stl_light/src/STL.cpp:34-37 | the words are non-empty and contain no delimiter; `Text.WordsKeepText` and `Text.WordsOfUnwords` state that they are the runs of the text, in order |
| Text.WordLength | 7/stl_light/src/STL.cpp:36 | the length of the leading word: no delimiter inside it, a delimiter right after it |
| Text.BlankWords | 11/terrain/src/Image.cpp:51-53 | strtok at blanks yields non-empty words without blanks which, put together, are the text without its blanks |
| Text.SpaceWords | 7/stl_light/src/STL.cpp:34-37 | extraction from a string stream yields non-empty words without white space which, put together, are the text without its white space |
| Text.BlankWordsOfUnwords | 11/terrain/src/Image.cpp:51-53 | blank-free words written with single blanks between them are split back into the same words |
| Text.WordsOfUnwords | 7/stl_light/src/STL.cpp:34-37 | for any delimiter set containing the blank, non-empty delimiter-free words written with single blanks between them split back into the same words |
| Text.SpaceWordsOfUnwords | 7/stl_light/src/STL.cpp:34-37 | white-space-free words written with single blanks between them are read back by `>>` as the same words |
| Text.WordsKeepText | 7/stl_light/src/STL.cpp:34-37 | the words, one after another, are exactly the characters of the text that are not delimiters, in order |
| Terrains.SplitGridIndex | cpp/10/shadows/src/Terrain.cpp:28-31 | every sample index below xs*zs is x + z*xs for exactly one column x < xs and row z < zs |
| Terrains.JoinGridIndex | cpp/10/shadows/src/Terrain.cpp:28-31 | x + z*xs lies in the grid and splits back into column x and row z |
| Terrains.Height | cpp/10/shadows/src/Terrain.cpp:30 | a sample's height, the red byte divided by five and truncated, lies between 0 and 51 |
| Terrains.HeightData | cpp/10/shadows/src/Terrain.cpp:22-32 | the height table holds one entry per sample |
| Terrains.HeightDataAt | cpp/10/shadows/src/Terrain.cpp:28-31 | entry x + z*xs of the height table is the height read from pixel (z, x), the coordinates swapped as written |
| Terrains.TexCoordRange | cpp/10/shadows/src/Terrain.cpp:57-58 | every texture coordinate 1 - i/segments lies in (0, 1] |
| Terrains.GridVertices | cpp/10/shadows/src/Terrain.cpp:55-62 | the vertex loop stores one vertex per sample, in z-major order, and no index or buffer yet |
| Terrains.AddSample | cpp/10/shadows/src/Terrain.cpp:60 | adding the next sample's vertex extends the stored samples by exactly that one |
| Terrains.AddSampleVertex | cpp/10/shadows/src/Terrain.cpp:60 | adding a vertex adds one vertex and leaves indices and buffer alone |
| Terrains.GridVertexOfSample | cpp/10/shadows/src/Terrain.cpp:55-62 | vertex x + z*xs sits at (x, height, z) with texture coordinates (1 - x/xs, 1 - z/zs), both in (0, 1] |
| Terrains.CellIndices | cpp/10/shadows/src/Terrain.cpp:71-77 | each cell issues six indices, each reduced to 32 bits |
| Terrains.GridIndices | cpp/10/shadows/src/Terrain.cpp:69-79 | the index loop issues six indices per cell, (xs-1)*(zs-1) cells |
| Terrains.Kept | 9/shadows/src/Geometry.cpp:44-51 | the indices the geometry keeps are a sub-run none of whose entries exceed the vertex count |
| Terrains.KeptAll | 9/shadows/src/Geometry.cpp:44-51 | when no index exceeds the vertex count, every index is kept |
| Terrains.AddIndices | 9/shadows/src/Geometry.cpp:44-51 | adding indices appends exactly the kept ones and changes nothing else |
| Terrains.InitGeometry | cpp/10/shadows/src/Terrain.cpp:51-90 | Init stores every sample's vertex and the kept grid indices, and the buffer is not yet built |
| Terrains.CellInRange | cpp/10/shadows/src/Terrain.cpp:71-77 | with the row stride xs, the six indices of every cell name existing vertices |
| Terrains.RowStrideIndicesInRange | cpp/10/shadows/src/Terrain.cpp:69-79 | with the row stride xs, every grid index names an existing vertex |
| Terrains.RowStrideInitIsValid | cpp/10/shadows/src/Terrain.cpp:69-79 | with the row stride xs, Init keeps all 6*(xs-1)*(zs-1) indices and they are all valid |
| Terrains.SquareInitIsValid | cpp/10/shadows/src/Terrain.cpp:69-79 | on a square grid the stride as written is the row stride, so Init is valid |
| Terrains.ZStrideOverruns | cpp/10/shadows/src/Terrain.cpp:71-77 | on a 2 by 3 grid the stride zs issues index 6 for a six-vertex grid, so the indices are not all valid |
| Terrains.ZStrideIndices | cpp/10/shadows/src/Terrain.cpp:69-79 | the exact indices the stride zs issues on a 2 by 3 grid |
| Terrains.NewTerrain | cpp/10/shadows/src/Terrain.cpp:8-36 | the constructor stores the segment counts, the height table, every sample's vertex, the kept indices with stride zs, a buffer of 14 floats per vertex and the normal layout of that buffer |
| Spheres.BandCoordRange | cpp/10/shadows/include/Sphere.h:57-58 | every texture coordinate 1 - i/bands with i <= bands lies in [0, 1], and is 0 exactly at the last band |
| Spheres.VertexRow | cpp/10/shadows/include/Sphere.h:48-63 | one latitude row holds longitudeBands + 1 vertices, the j-th computed from (lat, j) |
| Spheres.SphereVertices | cpp/10/shadows/include/Sphere.h:43-64 | n latitude rows give n*(longitudeBands + 1) vertices |
| Spheres.SphereVertexAt | cpp/10/shadows/include/Sphere.h:43-64 | vertex lat*(longitudeBands + 1) + long is computed from (lat, long) with u = 1 - long/longitudeBands and v = 1 - lat/latitudeBands |
| Spheres.SphereTexCoordsInRange | cpp/10/shadows/include/Sphere.h:56-62 | every vertex's texture coordinates lie in [0, 1] |
| Spheres.QuadIndices | cpp/10/shadows/include/Sphere.h:73-81 | each quad issues six indices |
| Spheres.IndexRow | cpp/10/shadows/include/Sphere.h:72-82 | one latitude row of c quads issues 6*c indices |
| Spheres.RowStartIsProduct | cpp/10/shadows/include/Sphere.h:71-83 | n rows of quads issue 6*n*longitudeBands indices |
| Spheres.SphereIndices | cpp/10/shadows/include/Sphere.h:71-83 | the index list's length is the count of its quads times six |
| Spheres.QuadIndicesValues | cpp/10/shadows/include/Sphere.h:73-81 | quad (lat, long) issues first, second, first+1, second, second+1, first+1 with first = lat*(longitudeBands+1)+long and second = first+longitudeBands+1, each naming a vertex |
| Spheres.IndexRowInRange | cpp/10/shadows/include/Sphere.h:72-82 | every index of a row names an existing vertex |
| Spheres.SphereIndicesInRange | cpp/10/shadows/include/Sphere.h:71-83 | every index names an existing vertex |
| Spheres.IndexRowAt | cpp/10/shadows/include/Sphere.h:72-82 | index 6*long + t of a row is the t-th index of quad long |
| Spheres.SphereIndicesAt | cpp/10/shadows/include/Sphere.h:71-83 | the index at the start of row lat plus 6*long + t is the t-th index of quad (lat, long) |
| Spheres.Init | cpp/10/shadows/include/Sphere.h:37-98 | init builds (latitudeBands+1)*(longitudeBands+1) vertices and 6*latitudeBands*longitudeBands indices |
| Spheres.InitSphere | cpp/10/shadows/include/Sphere.h:38-83 | with 30 bands each way: 961 vertices, 5400 indices, all below 961 |
| SceneGraph.Repeat | 9/shadows/src/SceneNode.cpp:55-57 | k passes over the same calls produce k times as many calls |
| SceneGraph.InRepeat | 9/shadows/src/SceneNode.cpp:55-57 | repeating a trace introduces no call it did not contain |
| SceneGraph.OccurrencesRepeat | 9/shadows/src/SceneNode.cpp:55-57 | a call occurs k times as often in k repetitions of a trace |
| SceneGraph.IdsOfContains | 9/shadows/src/SceneNode.cpp:24-30 | the ids of every child are among the ids of its siblings' forest |
| SceneGraph.UniqueIdsOfElement | 9/shadows/src/SceneNode.cpp:33-42 | every tree of a forest with unique ids has unique ids |
| SceneGraph.UniqueIdsOfDisjoint | 9/shadows/src/SceneNode.cpp:33-42 | two different trees of such a forest share no id |
| SceneGraph.NewNode | 9/shadows/src/SceneNode.cpp:7-22 | a new node has no parent and no children, identity local and world transforms, and is well linked |
| SceneGraph.AddChild | 9/shadows/src/SceneNode.cpp:33-42 | the child is appended after the existing children with this node as its parent; nothing else of the node changes |
| SceneGraph.AddChildKeepsLinks | 9/shadows/src/SceneNode.cpp:33-42 | adding a well-linked child keeps the tree well linked, and its ids are the union of both trees' ids |
| SceneGraph.IdsOfAppend | 9/shadows/src/SceneNode.cpp:41 | appending a child adds exactly its ids |
| SceneGraph.SetLocalTransform | 9/shadows/src/SceneNode.cpp:122-124 | writing through the local-transform reference changes only the local transform |
| SceneGraph.SetWorldTransform | 9/shadows/src/SceneNode.cpp:128-130 | writing through the world-transform reference changes only the world transform |
| SceneGraph.Draw | 9/shadows/src/SceneNode.cpp:47-59 | Draw always binds the node's shader first, and does nothing else exactly when the node has no object |
| SceneGraph.Renders | 9/shadows/src/SceneNode.cpp:53 | the object renders of a trace, in order |
| SceneGraph.RendersAppend | 9/shadows/src/SceneNode.cpp:53 | the renders of two traces in sequence are the renders of each in sequence |
| SceneGraph.RendersRepeat | 9/shadows/src/SceneNode.cpp:55-57 | the renders of a repeated trace are its renders repeated |
| SceneGraph.RendersIn | 9/shadows/src/SceneNode.cpp:53 | every node listed as rendered made a render call |
| SceneGraph.DrawRendersFirstChildPerChild | 9/shadows/src/SceneNode.cpp:51-57 | a node with an object renders itself, then the first child's drawing once per child |
| SceneGraph.DrawStaysInFirstChild | 9/shadows/src/SceneNode.cpp:55-57 | every call of Draw comes from the node itself or from its first child's subtree |
| SceneGraph.LaterChildrenNeverDrawn | 9/shadows/src/SceneNode.cpp:55-57 | with unique ids, no node of the second or later children is ever drawn |
| SceneGraph.FirstChildRenderedPerChild | 9/shadows/src/SceneNode.cpp:55-57 | the first child is rendered once per child of its parent |
| SceneGraph.ChainRendersEachNodeOnce | 9/shadows/src/SceneNode.cpp:47-59 | in a chain with one child per node, Draw renders every node exactly once, root first |
| SceneGraph.LightPosition | 9/shadows/src/SceneNode.cpp:90-93 | every light sits at the camera's eye plus its view direction |
| SceneGraph.SetAll | 9/shadows/src/SceneNode.cpp:77-110 | the uniform uploads are issued one per uniform, in order, by this node |
| SceneGraph.Update | 9/shadows/src/SceneNode.cpp:65-118 | a node without an object does nothing; otherwise the 9/shadows version binds the object then the shader, and the 10/terrain version (10/terrain/src/SceneNode.cpp:64-95) binds the shader first |
| SceneGraph.NodeUniformsFacts | 9/shadows/src/SceneNode.cpp:77-110 | the model uniform is the node's world matrix, view is the camera's look-at matrix, projection is the argument, and every light position is the camera's eye plus view |
| SceneGraph.NodeUpdateUploads | 9/shadows/src/SceneNode.cpp:69-110 | the uploads a node makes for itself are its own uniforms |
| SceneGraph.UpdateUniforms | 9/shadows/src/SceneNode.cpp:65-118 | in the whole traversal every model upload is the world matrix of a node of the tree, and view, projection and light positions are as for a single node |
| SceneGraph.SubtreeOfContains | 9/shadows/src/SceneNode.cpp:114-116 | every child's subtree is part of its parent's forest |
| SceneGraph.DistinctAppend | 9/shadows/src/SceneNode.cpp:27-29 | joining two duplicate-free id lists with no id in common keeps them duplicate-free |
| SceneGraph.ReleasesEachDescendantOnce | 9/shadows/src/SceneNode.cpp:25-30 | destroying a node with unique ids deletes each descendant exactly once and nothing else |
| SceneGraph.ReleasesEachOnce | 10/terrain/src/SceneNode.cpp:24-29 | deleting a forest deletes each of its nodes exactly once |
| Renderers.Prologue | cpp/11/terrain/src/Renderer.cpp:51-71 | the six state calls before the scene contain no scene call, and the one polygon-mode call, last, is lines exactly when W is held |
| Renderers.SceneCalls | cpp/11/terrain/src/Renderer.cpp:74-76 | the scene's calls appear in the render trace one for one, in order |
| Renderers.SceneOfAppend | cpp/11/terrain/src/Renderer.cpp:47-77 | the scene calls of two traces in sequence are those of each in sequence |
| Renderers.SceneOfSceneCalls | cpp/11/terrain/src/Renderer.cpp:74-76 | the scene calls recovered from a wrapped scene trace are that trace |
| Renderers.SceneOfNone | cpp/11/terrain/src/Renderer.cpp:51-71 | a trace of state calls only has no scene calls |
| Renderers.New | cpp/11/terrain/src/Renderer.cpp:5-17 | a new renderer has the screen size, exactly one camera, a fresh one, and no root |
| Renderers.SetRoot | cpp/11/terrain/src/Renderer.cpp:81-83 | setRoot replaces the root and nothing else |
| Renderers.GuardMeaning | cpp/11/terrain/include/Renderer.hpp:42-44 | the guard index > size()-1 in size_t arithmetic is the out-of-range test for a non-empty camera list and never fires for an empty one |
| Renderers.GetCamera | cpp/11/terrain/include/Renderer.hpp:41-46 | the camera returned is one of the renderer's cameras |
| Renderers.SetCamera | cpp/11/terrain/include/Renderer.hpp:41-46 | writing through the returned reference changes that camera alone, and nothing else of the renderer |
| Renderers.Update | cpp/11/terrain/src/Renderer.cpp:27-42 | Update stores the perspective projection of the screen, then updates the root, if any, with that projection and camera 0 |
| Renderers.Render | cpp/11/terrain/src/Renderer.cpp:47-77 | a render begins with the six state calls, polygon mode lines exactly when W is held |
| Renderers.RenderDrawsRoot | cpp/11/terrain/src/Renderer.cpp:47-77 | the scene calls of a render are exactly the root's Draw, or none without a root, and the only polygon-mode call is the sixth |
| Renderers.Destroy | cpp/11/terrain/src/Renderer.cpp:20-25 | the destructor deletes every camera exactly once and nothing else |
| Renderers.NewFbo | cpp/10/shadows/src/Renderer.cpp:5-22 | the framebuffer renderer starts with one camera, no root, and one framebuffer of the screen's size |
| Renderers.SetRootFbo | cpp/10/shadows/src/Renderer.cpp:129-131 | setRoot replaces the root and nothing else |
| Renderers.UpdateFbo | cpp/10/shadows/src/Renderer.cpp:36-51 | the framebuffer renderer updates exactly as the plain one and keeps its framebuffers |
| Renderers.RenderFbo | cpp/10/shadows/src/Renderer.cpp:56-125 | the framebuffer render issues at least fifteen calls, the eighth being the polygon mode chosen by W |
| Renderers.RenderFboOrder | cpp/10/shadows/src/Renderer.cpp:56-125 | the scene calls are the root's Draw, all made while framebuffer 0 is bound, and the quad is drawn last between its shader's bind and unbind |
| Renderers.DestroyFbo | cpp/10/shadows/src/Renderer.cpp:25-34 | the destructor deletes every camera and every framebuffer exactly once and nothing else |
| Objects.AddCorner | 10/terrain/src/Object.cpp:32-35 | adding a corner appends one vertex with that corner's position and texture coordinate and leaves every earlier vertex, the indices and the buffer alone |
| Objects.QuadVertices | 10/terrain/src/Object.cpp:32-35 | the four corners (-1,-1), (1,-1), (1,1), (-1,1) at z = 0 with texture coordinates (0,0), (1,0), (1,1), (0,1) are appended in that order |
| Objects.Triangle | 9/shadows/src/Geometry.cpp:107-167 | a triangle of existing vertices appends its three indices and changes no vertex |
| Objects.QuadGeometry | 10/terrain/src/Object.cpp:32-40 | the quad's geometry is the four corners and the triangles 0,1,2 and 2,3,0 |
| Objects.TwoTriangles | 10/terrain/src/Object.cpp:39-40 | the two triangles' indices in sequence are 0,1,2,2,3,0 |
| Objects.MakeTexturedQuad | 10/terrain/src/Object.cpp:26-56 | the quad appends its four corners and six indices, builds 14 floats per vertex after the old buffer, describes the buffer with the normal layout and loads the named texture |
| Objects.FreshTexturedQuad | 10/terrain/src/Object.cpp:26-56 | on a fresh object the quad has 56 floats, indices 0,1,2,2,3,0, all valid, the four corners, and renders six indices |
| Objects.Bind | 10/terrain/src/Object.cpp:61-66 | Bind binds the layout and then the diffuse texture in slot 0 |
| Objects.Render | 10/terrain/src/Object.cpp:69-78 | Render binds, then draws as many indices as the geometry holds |
| Gradients.CRem | 1/main2.cpp:30-31 | C++ % of a non-negative dividend: below the divisor's magnitude, and the dividend itself when smaller than it |
| Gradients.CellChannels | 1/main2.cpp:23-31 | with a positive wrap, red is i mod the clamped wrap and green is j mod it, both below the wrap and below 255 |
| Gradients.Blocks | 1/main2.cpp:27-35 | two nested loops, i outer over n and j inner over h, produce n*h values |
| Gradients.BlocksAt | 1/main2.cpp:27-35 | the value for (i, j) is pushed at position i*h + j |
| Gradients.NewImage | 1/main2.cpp:19-36 | the constructor stores the dimensions and pushes width*height pixels, the one for column i, row j at i*height + j |
| Gradients.OutputIndexInRange | 1/main2.cpp:46-50 | the index j*width + i read by output lies in the pixel vector |
| Gradients.Output | 1/main2.cpp:40-55 | output prints the three header lines and then one line per pixel |
| Gradients.OutputAt | 1/main2.cpp:46-50 | the line printed at position i*height + j after the header is the pixel stored at j*width + i |
| Gradients.AfterHeader | 1/main2.cpp:43-45 | the lines after a three-line header are the body's |
| Gradients.OutputRowMajor | 1/main2.cpp:40-55 | the row-major P3 output prints the header and one line per pixel |
| Gradients.OutputRowMajorAt | 1/main2.cpp:40-55 | in the row-major output, the line for column x, row y is the pixel constructed for (x, y) |
| Gradients.GradientPicture | 1/main2.cpp:19-55 | in the row-major output of a constructed gradient, column x, row y shows red x mod wrap and green y mod wrap |
| Gradients.SquareOutputIsRowMajor | 1/main2.cpp:46-50 | for a square image the output as written is the row-major output |
| Gradients.SplitSquareIndex | 1/main2.cpp:46-50 | every index below n*n is i*n + j for some i, j below n |
| Gradients.WideOutputScrambled | 1/main2.cpp:46-50 | for a 3 by 2 gradient the output as written prints the wrong pixel on its second line |
| Stl.ClassifyMeaning | 7/stl_light/src/STL.cpp:29-57 | a line is a vertex line exactly when "vertex " occurs in it, a facet line exactly when "facet normal " occurs and "vertex " does not, ignored otherwise, and its words follow the first occurrence of the marker |
| Stl.Floats | 7/stl_light/src/STL.cpp:36-38 | every word is converted by stof, one float per word, in order |
| Stl.Padding | 7/stl_light/src/STL.cpp:49-56 | the six padding values pushed after a facet's words are six consecutive numbers derived from the list's size, not copies of the normal |
| Stl.Kinds | 7/stl_light/src/STL.cpp:28-58 | every line of the file is classified on its own |
| Stl.Load | 7/stl_light/src/STL.cpp:28-58 | the loop stores as many vertex floats as the vertex lines hold words, and as many normal entries as the facet lines hold words plus six padding values each |
| Stl.ReadVertexLine | 7/stl_light/src/STL.cpp:32-38 | a vertex line appends its words' floats to the vertices, in order, and leaves the normals alone |
| Stl.ReadFacetLine | 7/stl_light/src/STL.cpp:40-57 | a facet line with three words appends the three floats and then six numbers counted from the list's size, leaving the vertices alone |
| Stl.ReadIgnoredLine | 7/stl_light/src/STL.cpp:29-57 | a line with neither marker changes nothing |
| Stl.LoadFile | 7/stl_light/src/main.cpp:271-310 | a file that cannot be opened gives empty lists; otherwise the lists are those the line loop builds |
| Stl.ThreeWordsCounts | 7/stl_light/src/STL.cpp:28-58 | with three numbers per line, three vertex floats per vertex line and nine normal entries per facet line |
| Stl.WellFormedSizes | 7/stl_light/src/STL.cpp:28-58 | a file with three vertex lines per facet line gives as many normal entries as vertex floats, a multiple of nine |
| Stl.StoreNormal | 7/stl_light/src/STL.cpp:75-85 | the nine entries from i become the normal's x, y, z three times and nothing else changes |
| Stl.FacetOfEntry | 7/stl_light/src/STL.cpp:62 | every normal entry lies inside a facet of nine vertex floats |
| Stl.RecomputeStep | 7/stl_light/src/STL.cpp:62-87 | one pass of the recomputation loop stores the facet's normal for the next nine entries and keeps the rest |
| Stl.Recompute | 7/stl_light/src/STL.cpp:60-87 | every normal entry under a facet becomes the cross product of the facet's edges v2-v1 and v3-v2; entries past the vertices keep their values; the vertices are unchanged |
| Stl.NewStlFile | 7/stl_light/src/STL.cpp:21-91 | the constructor keeps the loaded vertices and replaces every normal entry under them with its facet's computed normal |
| Stl.WellFormedStlFile | 7/stl_light/src/STL.cpp:21-91 | for a well-formed file, one computed normal per vertex, for every vertex |
| Stl.Draw | 7/stl_light/src/STL.cpp:200-205 | Draw always draws 4404 vertices from the start, more than a smaller mesh holds |
| Stl.PaddingIsNotACopy | 7/stl_light/src/main.cpp:298-306 | after "facet normal 0 0 1" the stored entries are 0, 0, 1, -1, 0, 1, 2, 3, 4, so the normal is not repeated per vertex |
| Stl.LoadCopying | 7/stl_light/src/main.cpp:278-308 | the corrected reader stores the same vertices as the one as written |
| Stl.CopyingRepeatsNormals | 7/stl_light/src/main.cpp:292-306 | the corrected reader stores nine entries per facet, as many as written, each vertex carrying the facet's normal |
| Stl.AppendThreeCopies | 7/stl_light/src/main.cpp:298-306 | appending one normal three times to whole facets keeps every vertex carrying its facet's normal |
| Common.ToU32 | 9/shadows/src/Geometry.cpp:59-61 | an unsigned int holds the value modulo 2^32, and an in-range value unchanged |
| Common.ToByte | 11/terrain/src/Image.cpp:70 | a cast to uint8_t keeps a value in 0..255 unchanged |
| Shaders.LoadShaderAsString | cpp/13/cubemap/include/shader.hpp:39-55 | a file that cannot be opened gives the empty string; otherwise the text with a final newline added when missing, splitting into the same lines as the file |
| Shaders.LoadIsIdempotent | cpp/13/cubemap/include/shader.hpp:39-55 | loading a loaded string gives it back |
| Shaders.CompileStage | cpp/13/cubemap/include/shader.hpp:68-118 | a stage is created, given its source and compiled; a failed compile deletes the object and returns 0, a successful one returns the object and deletes nothing |
| Shaders.CreateShaderProgram | cpp/13/cubemap/include/shader.hpp:126-156 | the program id is stored and returned; both loaded sources are compiled; the compile results, 0 after a failure, are attached; the last call deletes the fragment result |
| Shaders.Bind | cpp/13/cubemap/include/shader.hpp:181-183 | Bind makes the stored program current |
| Shaders.Unbind | cpp/13/cubemap/include/shader.hpp:184-186 | Unbind makes program 0 current |
| Shaders.BindAfterCreate | cpp/13/cubemap/include/shader.hpp:126-156 | binding a freshly built shader uses the id the build returned |
| Shaders.Destroy | cpp/13/cubemap/include/shader.hpp:27-30 | the destructor deletes the stored program |
| Shaders.DestroyAfterCreate | cpp/13/cubemap/include/shader.hpp:27-30 | destroying a freshly built shader deletes exactly the program the build returned |
| Shaders.SetUniformMatrix4fv | cpp/13/cubemap/include/shader.hpp:159-168 | the process exits exactly when the name has no location; otherwise the matrix is uploaded to that location |
| Shaders.SetUniform1i | cpp/13/cubemap/include/shader.hpp:170-179 | the process exits exactly when the name has no location; otherwise 0 is uploaded there, whatever value was passed |
| Shaders.SetUniform1iIgnoresValue | cpp/13/cubemap/include/shader.hpp:174 | the value argument makes no difference |
| Shaders.SettersAgreeOnExit | cpp/13/cubemap/include/shader.hpp:159-179 | both setters exit for exactly the same names |
| ShaderRegistry.Instance | 10/shadows/include/ShaderManager.hpp:22-25 | the first call creates an empty manager; every later call returns that same manager and changes nothing |
| ShaderRegistry.InstanceIsSingleton | 10/shadows/include/ShaderManager.hpp:22-25 | asking twice gives the same manager and process as asking once |
| ShaderRegistry.CreateNewShader | 10/shadows/include/ShaderManager.hpp:28-43 | the name is added, or its entry replaced, with a freshly allocated shader built from the two loaded files; the other names keep their shaders |
| ShaderRegistry.GetShader | 10/shadows/include/ShaderManager.hpp:46-56 | the stored shader when the name is registered, a null pointer exactly when it is not |
| ShaderRegistry.UseShader | 10/shadows/include/ShaderManager.hpp:59-68 | a registered name binds its shader, an unknown one binds nothing |
| ShaderRegistry.LookupAfterCreate | 10/shadows/include/ShaderManager.hpp:28-68 | after creating a name, looking it up finds the new shader and using it binds its program, while every other name answers as before |
| ShaderRegistry.RunOnlyGrows | 10/shadows/include/ShaderManager.hpp:28-68 | after any run of requests the names are the earlier ones plus exactly the created ones, and all addresses stay distinct from fresh ones |
| Handles.InitGLContext | dlang/03_opengl/ooc.c:26-28 | initGLContext resets the counter to 0 and leaves the table alone |
| Handles.Generate | 3/ooc.cpp:27-41 | the counter is the new handle, its slot records the handle and the data, the counter moves on by one, no other slot changes, and the status is 0 |
| Handles.UseVbo | 3/ooc.cpp:43-48 | useVBO reports 0, and the data it reads is that of the handle's slot |
| Handles.GenerateAll | 3/ooc.cpp:50-58 | one generation per payload moves the counter on by the number of payloads |
| Handles.GenerateAllHandles | 3/ooc.cpp:27-48 | successive calls hand out consecutive handles from the counter on, and useVBO on each reads back the data it was generated with |
| Handles.LaterGenerationsKeep | 3/ooc.cpp:33-37 | later generations leave the slots below the counter alone |
| Handles.HandlesAreDistinct | 3/ooc.cpp:27-41 | no handle is handed out twice |
| Handles.CppMainPrintsTwo | 3/ooc.cpp:50-62 | three generations from the fresh global hand out 0, 1 and 2, so 2 is printed |
| Handles.CMainPrintsTwo | dlang/03_opengl/ooc.c:54-68 | after initGLContext, three generations hand out 0, 1 and 2 whatever the table held |

## Left out

- GL, SDL and window calls: they are foreign calls. Binds, draws, uniform uploads and framebuffer work become trace values. Texture loading keeps only the file name.
- Console output (`std::cout`, `printf`, `PrintPixels`, `PrintVertices`/`PrintIndices`, the "mine/them" lines of `STLFile`): output only.
- Floating point: all float arithmetic is idealised over `real`, with no rounding and no NaN.
- Trigonometry, `glm::rotate`, `glm::lookAt`, `glm::perspective` and the normalisation in `MakeTriangle`: they are parameters or recorded inputs. The only fact assumed about `rotate` is that angle zero is the identity. Sphere vertices record the grid point their position is computed from.
- `std::stof`: a parameter, and its exceptions on malformed tokens are not modelled.
- Indeterminate memory (the bytes of `new uint8_t[n]`, the blue channel of the gradient's pixels, the normal of the 5-argument `Vertex3TN`): a parameter, whatever it holds.
- `GetPixelDataPtr`, `GetBufferDataPtr`, `GetIndicesDataPtr`, and the `GetVertices`/`GetNormals` copies: with value semantics they are field reads of the modelled state.
- Camera `GetWorldToViewmatrix`/`GetViewMatrix`: the matrix is the `lookAt` parameter applied to eye, eye + view and up. `SceneGraph.Update` records that application.
- Destructors that only free memory (`Image`, `Terrain`, `Object`): memory is not modelled. The scene graph's and the renderers' destructors delete other objects and are modelled (`SceneGraph.ReleasesEachOnce`, `Renderers.Destroy`), as is `Shader::~Shader` (`Shaders.Destroy`).
- The GL deletes of `MeshMaker::~MeshMaker` and `STLFile::~STLFile`: the VAO and buffer ids they delete are not part of the model. As written, `~MeshMaker` deletes `m_vertexPositionBuffer` twice and never the index buffer. `~STLFile` deletes its three buffers, its vertex array and its program.
- MeshMakers.AddTriangle: the source declares it `int` and falls off its end without a `return`, which is undefined behaviour on every call, including those from `CreateTexturedPlane` and `CreateCube`. No caller uses the value, so the model returns none and describes only the builder's new state.
- Geometries.MakeTriangle: requires at most 2^32 position floats. Below that bound the `unsigned int` offsets `vert*3 + k` cannot wrap; above it the source would read a wrapped offset. The only callers stay far below it.
- Objects.Triangle: the same 2^32 position-float bound as `Geometries.MakeTriangle`.
- Objects.QuadGeometry: requires room for the quad's 12 position floats below 2^32, for the same reason.
- Objects.MakeTexturedQuad: the same 12-float room below 2^32 as `Objects.QuadGeometry`.
- `Object::RenderMesh`, `Terrain::LoadHeightMap` (empty) and `Terrain::LoadTextures`: GL-only or empty.
- 10/shadows/include/Shader.hpp is not part of this model. `ShaderRegistry` takes its `CreateShader` as a `build` parameter and reads files with `Shaders.LoadShaderAsString`. 5/rotation has its own copy of that function, identical in behaviour, so it is modelled once.
- Shaders.CompileStage: a kind other than vertex or fragment reads an uninitialised object id in the source, so the kind is a precondition.
- Shaders.CreateShaderProgram: the compile logs and the `GL_INFO_LOG_LENGTH` buffer are left out, as is what the driver does with a program whose stages failed.
- Handles.UseVbo: requires only a handle inside the 100-slot table (what keeps the read defined), not one below the counter.
- Handles.Generate: a counter at 100 overruns the table in the source; the model requires it to be below 100.
- Renderers.GetCamera: an index past the camera list is undefined behaviour after the empty guard, so it is a precondition (`Renderers.GuardMeaning` states what the guard computes).
- Renderers.RenderFbo: `m_framebuffers[0]` is used unchecked, so one framebuffer is a precondition.
- Images.SetPixel: an accepted pixel that lies outside the buffer is an out-of-bounds write, so it is a precondition. The getters likewise require the pixel to lie in the buffer.
- Images.Parse: the `m_width*m_height*3` product is not reduced to 32 bits, so dimensions whose product overflows `int` are outside the model.
- Images.LoadPPM: only the facts that hold for every file are stated on it. Its behaviour on concrete files is stated by `Images.LoadWrittenPPM`, `Images.NonPositiveDimensionExits`, `Images.CommentsAreSkipped` and `Images.ParsePixels`.
- Text.Atoi: the value is not reduced to `int`, so `atoi` overflow (undefined in C) is not modelled.
- Terrains.NewTerrain: requires at least one segment each way (the unsigned `m_zSegments-1` would wrap) and fewer than 2^32 samples.
- Stl.Recompute: requires at most as many normal entries as vertex floats, in blocks of nine (the loop indexes both unchecked).
- Gradients.NewImage: a wrap of 0 divides by zero in the source, so it is excluded.
- World transforms are never composed along the parent chain by the source, and the model does not invent that.

## Findings

These are places where the source does something other than what its own comments, error messages or callers evidently intend. For each one, the model contains the behaviour as written and a corrected version with the intended property proved. The programs themselves keep the behaviour as written.

| source | as written | input that shows it | evidently intended | confidence | as-written member | corrected member |
|---|---|---|---|---|---|---|
| 9/shadows/src/Geometry.cpp:46 | the bound check accepts `i <= vertexCount` | `AddIndex(n)` on a geometry with n vertices appends n, which names no vertex | accept only `i < vertexCount`, as the "invalid index" message says | high, not executed | Geometries.AddIndexAdmitsVertexCount | Geometries.AddIndexChecked |
| cpp/10/shadows/src/Terrain.cpp:71-77 | the row offset is `z*m_zSegments` | a 2 by 3 grid (6 vertices) issues index 6 | the row stride is `m_xSegments`, as in the vertex loop at line 60 | high, not executed | Terrains.ZStrideOverruns | Terrains.RowStrideInitIsValid |
| 13/particles/include/Image.hpp:41-51 | pixel offset `x*3 + height*(y*3)` (also 11/terrain/src/Image.cpp:114-116) | a 3 by 2 image: pixels (2, 0) and (0, 1) share bytes; a 1 by 2 image: pixel (0, 1) reads past the buffer | row-major `3*(x + width*y)`, the order the PPM reader fills | high, not executed | Images.WideImageCollides | Images.RowMajorAddressing |
| 1/main2.cpp:46-50 | `output` reads `pixels[j*width+i]` with i over the width outer | a 3 by 2 gradient prints the pixel of column 1, row 1 on its second line | print row by row, the pixel of column x, row y at `x*height + y` | medium, not executed | Gradients.WideOutputScrambled | Gradients.GradientPicture |
| 7/stl_light/src/main.cpp:298-306 | the six padding values are `size()-4 .. size()+1` (also 7/stl_light/src/STL.cpp:48-56) | "facet normal 0 0 1" stores 0, 0, 1, -1, 0, 1, 2, 3, 4 | copy the normal twice, as the comment says | high, not executed | Stl.PaddingIsNotACopy | Stl.CopyingRepeatsNormals |
