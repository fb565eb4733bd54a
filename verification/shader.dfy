/** The shader wrapper of cpp/13/cubemap/include/shader.hpp: reading a
    shader file line by line, compiling one stage, building the program,
    and the two uniform setters with their "unknown name" exit. The GL
    driver is outside the model: the ids it hands out, whether a source
    compiles and where a uniform lives are parameters, and the GL work is a
    trace of calls. A file is `None` when it cannot be opened. */
module Shaders {
  import opened Common
  import opened Linear
  import opened Text

  const GL_FRAGMENT_SHADER: nat := 0x8B30
  const GL_VERTEX_SHADER: nat := 0x8B31

  /** The shader kinds `CompileShader` creates an object for. */
  predicate IsStage(kind: nat) {
    kind == GL_VERTEX_SHADER || kind == GL_FRAGMENT_SHADER
  }

  /** The GL calls the wrapper issues, in order. */
  datatype GLCall =
    | CreateShader(kind: nat)
    | ShaderSource(shader: nat, source: string)
    | CompileShader(shader: nat)
    | DeleteShader(shader: nat)
    | CreateProgram
    | AttachShader(program: nat, shader: nat)
    | LinkProgram(program: nat)
    | ValidateProgram(program: nat)
    | DetachShader(program: nat, shader: nat)
    | UseProgram(program: nat)
    | DeleteProgram(program: nat)
    | Uniform1i(location: nat, value: int)
    | UniformMatrix4fv(location: nat, matrix: Mat4)

  /** The wrapper's state: the program object it owns. */
  datatype Shader = Shader(program: nat)

  /** What a uniform setter does: one upload, or the process exits because
      the name is unknown to the program. */
  datatype UniformOutcome = Uploaded(call: GLCall) | Exited

  /** Where the driver places a uniform of a program, negative when the
      program has none of that name. */
  type UniformLookup = (nat, string) -> int

  /** Shader::LoadShaderAsString: every line `std::getline` extracts,
      followed by a newline. A file that cannot be opened gives the empty
      string. Otherwise the result is the file's text, with a newline added
      when the text is non-empty and does not already end in one, and it
      splits into the same lines. */
  function LoadShaderAsString(file: Option<string>): (r: string)
    ensures file.None? ==> r == []
    ensures r == [] || r[|r| - 1] == '\n'
    ensures file.Some? ==>
      r == if file.value == [] || file.value[|file.value| - 1] == '\n' then file.value else file.value + "\n"
    ensures file.Some? ==> Lines(r) == Lines(file.value)
  {
    match file
    case None => []
    case Some(text) =>
      JoinLinesOfLines(text);
      LinesOfJoinLines(Lines(text));
      JoinLines(Lines(text))
  }

  /** Loading is idempotent: a loaded string loads as itself. */
  lemma LoadIsIdempotent(file: Option<string>)
    ensures LoadShaderAsString(Some(LoadShaderAsString(file))) == LoadShaderAsString(file)
  {
  }

  /** The outcome of `CompileShader`: the id it returns and its GL work. */
  datatype Compiled = Compiled(id: nat, calls: seq<GLCall>)

  /** Shader::CompileShader for a vertex or fragment stage. `created` is the
      object `glCreateShader` hands out and `compiles` the compile status.
      A failed compile deletes the object and returns 0; a successful one
      returns the object and deletes nothing. (For any other kind the source
      reads an uninitialised object id, so the kind is a precondition.) */
  function CompileStage(kind: nat, source: string, created: nat, compiles: bool): (r: Compiled)
    requires IsStage(kind)
    ensures |r.calls| >= 3 && r.calls[0] == CreateShader(kind)
    ensures r.calls[1] == ShaderSource(created, source) && r.calls[2] == CompileShader(created)
    ensures !compiles ==> r.id == 0 && r.calls[|r.calls| - 1] == DeleteShader(created)
    ensures compiles ==> r.id == created && forall k | 0 <= k < |r.calls| :: !r.calls[k].DeleteShader?
  {
    var front := [CreateShader(kind), ShaderSource(created, source), CompileShader(created)];
    if compiles then Compiled(created, front) else Compiled(0, front + [DeleteShader(created)])
  }

  /** The ids and compile results the driver supplies while a program is
      built. */
  datatype Driver = Driver(
    program: nat,
    vertexObject: nat, vertexCompiles: bool,
    fragmentObject: nat, fragmentCompiles: bool)

  /** The outcome of `CreateShaderProgram`: the updated wrapper, the id
      returned to the caller and the GL work. */
  datatype Created = Created(shader: Shader, id: nat, calls: seq<GLCall>)

  /** Shader::CreateShaderProgram: load both files, create the program,
      compile both stages, attach whatever the compiles returned (0 after a
      failure), link, validate, detach and delete the stages. The program
      id is stored in the wrapper and is also what is returned. */
  function CreateShaderProgram(s: Shader, vertexFile: Option<string>, fragmentFile: Option<string>, d: Driver): (r: Created)
    ensures r.shader.program == d.program && r.id == r.shader.program
    ensures CreateProgram in r.calls
    ensures AttachShader(d.program, if d.vertexCompiles then d.vertexObject else 0) in r.calls
    ensures AttachShader(d.program, if d.fragmentCompiles then d.fragmentObject else 0) in r.calls
    ensures ShaderSource(d.vertexObject, LoadShaderAsString(vertexFile)) in r.calls
    ensures ShaderSource(d.fragmentObject, LoadShaderAsString(fragmentFile)) in r.calls
    ensures r.calls[|r.calls| - 1] == DeleteShader(if d.fragmentCompiles then d.fragmentObject else 0)
  {
    var vertexSource := LoadShaderAsString(vertexFile);
    var fragmentSource := LoadShaderAsString(fragmentFile);
    var v := CompileStage(GL_VERTEX_SHADER, vertexSource, d.vertexObject, d.vertexCompiles);
    var f := CompileStage(GL_FRAGMENT_SHADER, fragmentSource, d.fragmentObject, d.fragmentCompiles);
    var p := d.program;
    var link := [AttachShader(p, v.id), AttachShader(p, f.id), LinkProgram(p), ValidateProgram(p),
                 DetachShader(p, v.id), DetachShader(p, f.id), DeleteShader(v.id), DeleteShader(f.id)];
    var calls := [CreateProgram] + v.calls + f.calls + link;
    assert ShaderSource(d.vertexObject, vertexSource) == calls[2];
    assert ShaderSource(d.fragmentObject, fragmentSource) == calls[1 + |v.calls| + 1];
    assert AttachShader(p, v.id) == calls[1 + |v.calls| + |f.calls|];
    assert AttachShader(p, f.id) == calls[1 + |v.calls| + |f.calls| + 1];
    Created(Shader(p), p, calls)
  }

  /** Shader::Bind: make the stored program current. */
  function Bind(s: Shader): (c: GLCall)
    ensures c.UseProgram? && c.program == s.program
  {
    UseProgram(s.program)
  }

  /** Shader::Unbind: make no program current. */
  function Unbind(s: Shader): (c: GLCall)
    ensures c.UseProgram? && c.program == 0
  {
    UseProgram(0)
  }

  /** Binding a freshly built shader uses exactly the id the build
      returned. */
  lemma BindAfterCreate(s: Shader, vertexFile: Option<string>, fragmentFile: Option<string>, d: Driver)
    ensures Bind(CreateShaderProgram(s, vertexFile, fragmentFile, d).shader) == UseProgram(CreateShaderProgram(s, vertexFile, fragmentFile, d).id)
  {
  }

  /** Shader::~Shader: delete the stored program. */
  function Destroy(s: Shader): (c: GLCall)
    ensures c.DeleteProgram? && c.program == s.program
  {
    DeleteProgram(s.program)
  }

  /** Destroying a freshly built shader deletes exactly the program the
      build created and returned, and no shader object. */
  lemma DestroyAfterCreate(s: Shader, vertexFile: Option<string>, fragmentFile: Option<string>, d: Driver)
    ensures var c := CreateShaderProgram(s, vertexFile, fragmentFile, d);
      Destroy(c.shader) == DeleteProgram(c.id) && Destroy(c.shader) == DeleteProgram(d.program)
  {
  }

  /** Shader::SetUniformMatrix4fv: look the name up in the stored program;
      a non-negative location receives the matrix, a negative one ends the
      process. */
  function SetUniformMatrix4fv(s: Shader, name: string, matrix: Mat4, location: UniformLookup): (r: UniformOutcome)
    ensures r.Exited? <==> location(s.program, name) < 0
    ensures r.Uploaded? ==> r.call.UniformMatrix4fv? && r.call.location == location(s.program, name) && r.call.matrix == matrix
  {
    var at := location(s.program, name);
    if at >= 0 then Uploaded(UniformMatrix4fv(at, matrix)) else Exited
  }

  /** Shader::SetUniform1i: the same lookup, but the value uploaded to a
      found location is always 0, whatever the caller passed. */
  function SetUniform1i(s: Shader, name: string, value: int, location: UniformLookup): (r: UniformOutcome)
    ensures r.Exited? <==> location(s.program, name) < 0
    ensures r.Uploaded? ==> r.call.Uniform1i? && r.call.location == location(s.program, name) && r.call.value == 0
  {
    var at := location(s.program, name);
    if at >= 0 then Uploaded(Uniform1i(at, 0)) else Exited
  }

  /** The value argument of `SetUniform1i` makes no difference. */
  lemma SetUniform1iIgnoresValue(s: Shader, name: string, a: int, b: int, location: UniformLookup)
    ensures SetUniform1i(s, name, a, location) == SetUniform1i(s, name, b, location)
  {
  }

  /** Both setters exit for exactly the same names. */
  lemma SettersAgreeOnExit(s: Shader, name: string, value: int, matrix: Mat4, location: UniformLookup)
    ensures SetUniform1i(s, name, value, location).Exited? <==> SetUniformMatrix4fv(s, name, matrix, location).Exited?
  {
  }
}
