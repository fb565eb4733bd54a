/** The shader registry of 10/shadows/include/ShaderManager.hpp: a
    process-wide singleton mapping names to shared shaders. A shared
    pointer is a `Ref`: the address `make_shared` returned and the shader
    behind it; fresh addresses come from a counter. The files a shader is
    read from come from a file system parameter, and the 10/shadows
    `Shader::CreateShader` (whose header is not part of this model) is a
    parameter turning the two loaded sources into a program. */
module ShaderRegistry {
  import opened Common
  import Shaders

  /** A `std::shared_ptr<Shader>`: the object's address and its state. */
  datatype Ref = Ref(address: nat, shader: Shaders.Shader)

  /** The manager: `m_shaders`, plus the next address `make_shared` will
      use. */
  datatype Manager = Manager(shaders: map<string, Ref>, nextAddress: nat)

  /** The process: the manager, once `Instance` has created it. */
  datatype Process = Process(instance: Option<Manager>)

  /** Reading a path: its text, or `None` when it cannot be opened. */
  type FileSystem = string -> Option<string>

  /** Building a program from a vertex and a fragment source. */
  type Build = (string, string) -> Shaders.Shader

  /** Every shared shader was allocated before the current address. */
  predicate Valid(m: Manager) {
    forall name | name in m.shaders :: m.shaders[name].address < m.nextAddress
  }

  /** The manager before the first shader: empty. */
  const NewManager: Manager := Manager(map[], 0)

  /** ShaderManager::Instance: the first call creates the manager, every
      later call returns that same manager and changes nothing. */
  function Instance(p: Process): (r: (Process, Manager))
    ensures r.0.instance == Some(r.1)
    ensures p.instance.Some? ==> r.0 == p && r.1 == p.instance.value
    ensures p.instance.None? ==> r.1 == NewManager && Valid(r.1)
  {
    match p.instance
    case Some(m) => (p, m)
    case None => (Process(Some(NewManager)), NewManager)
  }

  /** Asking twice gives the same manager, and the second call leaves the
      process as the first one left it. */
  lemma InstanceIsSingleton(p: Process)
    ensures Instance(Instance(p).0) == Instance(p)
  {
  }

  /** ShaderManager::CreateNewShader: a new shared shader built from the two
      loaded files is stored under `name`, replacing any earlier entry; the
      other names keep their shaders, and no name disappears. */
  function CreateNewShader(m: Manager, name: string, vertexPath: string, fragmentPath: string,
                           files: FileSystem, build: Build): (r: Manager)
    ensures r.shaders.Keys == m.shaders.Keys + {name}
    ensures r.shaders[name].address == m.nextAddress
    ensures r.shaders[name].shader ==
      build(Shaders.LoadShaderAsString(files(vertexPath)), Shaders.LoadShaderAsString(files(fragmentPath)))
    ensures forall other | other in m.shaders && other != name :: r.shaders[other] == m.shaders[other]
    ensures Valid(m) ==> Valid(r)
    ensures Valid(m) ==> forall other | other in m.shaders :: m.shaders[other].address != r.shaders[name].address
  {
    var vertexSource := Shaders.LoadShaderAsString(files(vertexPath));
    var fragmentSource := Shaders.LoadShaderAsString(files(fragmentPath));
    var s := Ref(m.nextAddress, build(vertexSource, fragmentSource));
    Manager(m.shaders[name := s], m.nextAddress + 1)
  }

  /** ShaderManager::GetShader: the shader stored under `name`, or a null
      pointer when there is none. */
  function GetShader(m: Manager, name: string): (r: Option<Ref>)
    ensures r.Some? <==> name in m.shaders
    ensures r.Some? ==> r.value == m.shaders[name]
  {
    if name in m.shaders then Some(m.shaders[name]) else None
  }

  /** ShaderManager::UseShader: bind the shader stored under `name`; bind
      nothing when there is none. */
  function UseShader(m: Manager, name: string): (calls: seq<Shaders.GLCall>)
    ensures |calls| <= 1
    ensures |calls| == 1 <==> name in m.shaders
    ensures |calls| == 1 ==> calls[0] == Shaders.Bind(m.shaders[name].shader)
  {
    match GetShader(m, name)
    case Some(s) => [Shaders.Bind(s.shader)]
    case None => []
  }

  /** After `CreateNewShader(name, ...)`, looking `name` up finds the new
      shader and using it binds its program, while every other name answers
      as before. */
  lemma LookupAfterCreate(m: Manager, name: string, vertexPath: string, fragmentPath: string,
                          files: FileSystem, build: Build, other: string)
    ensures var r := CreateNewShader(m, name, vertexPath, fragmentPath, files, build);
      && GetShader(r, name) == Some(Ref(m.nextAddress, build(Shaders.LoadShaderAsString(files(vertexPath)), Shaders.LoadShaderAsString(files(fragmentPath)))))
      && UseShader(r, name) == [Shaders.UseProgram(r.shaders[name].shader.program)]
      && (other != name ==> GetShader(r, other) == GetShader(m, other) && UseShader(r, other) == UseShader(m, other))
  {
  }

  /** The requests a program makes of the registry. */
  datatype Request =
    | Create(name: string, vertexPath: string, fragmentPath: string)
    | Get(name: string)
    | Use(name: string)

  /** The registry after a run of requests; only `Create` changes it. */
  function Run(m: Manager, requests: seq<Request>, files: FileSystem, build: Build): Manager
    decreases requests
  {
    if requests == [] then m
    else
      var next := match requests[0]
        case Create(name, v, f) => CreateNewShader(m, name, v, f, files, build)
        case _ => m;
      Run(next, requests[1..], files, build)
  }

  /** No request removes a name: every name registered before a run is
      still registered after it, exactly the created names are added, and
      the addresses stay valid. */
  lemma {:induction false} RunOnlyGrows(m: Manager, requests: seq<Request>, files: FileSystem, build: Build)
    requires Valid(m)
    ensures var r := Run(m, requests, files, build);
      && r.shaders.Keys == m.shaders.Keys + CreatedNames(requests)
      && Valid(r)
      && m.nextAddress <= r.nextAddress
    decreases requests
  {
    if requests != [] {
      var next := match requests[0]
        case Create(name, v, f) => CreateNewShader(m, name, v, f, files, build)
        case _ => m;
      RunOnlyGrows(next, requests[1..], files, build);
    }
  }

  /** The names a run of requests creates. */
  function CreatedNames(requests: seq<Request>): set<string> {
    if requests == [] then {}
    else (if requests[0].Create? then {requests[0].name} else {}) + CreatedNames(requests[1..])
  }
}
