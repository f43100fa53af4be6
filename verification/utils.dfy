/** The add-on's small helpers: mesh comparison, path comparison under the
    file system's case rules, the dictionary-backed context wrapper, and the
    search through already linked libraries.

    Whether the file system is case-insensitive (probed once with a temporary
    file) and `os.path.realpath` (which reads the file system) are
    parameters. */
module Utils {
  import opened Wrappers
  import opened Strings

  // ---------------------------------------------------------------------------
  // Meshes

  /** The parts of a Blender mesh the comparison looks at. */
  datatype Mesh<V, P, L, E> = Mesh(vertices: seq<V>, polygons: seq<P>, loops: seq<L>, edges: seq<E>)

  /** The four element counts of a mesh: vertices, polygons, loops, edges. */
  function Counts<V, P, L, E>(m: Mesh<V, P, L, E>): (nat, nat, nat, nat)
  {
    (|m.vertices|, |m.polygons|, |m.loops|, |m.edges|)
  }

  /** Basic geometric similarity: the same number of vertices, polygons,
      loops and edges. Neither the coordinates nor the connectivity are
      looked at, so two meshes of one shape compare equal. */
  function CompareMeshes<V, P, L, E>(first: Mesh<V, P, L, E>, second: Mesh<V, P, L, E>): (r: bool)
    ensures r <==> Counts(first) == Counts(second)
  {
    |first.vertices| == |second.vertices|
    && |first.polygons| == |second.polygons|
    && |first.loops| == |second.loops|
    && |first.edges| == |second.edges|
  }

  // ---------------------------------------------------------------------------
  // Paths

  /** Both paths resolved, then compared ignoring ASCII case when the file
      system is case-insensitive, exactly otherwise. Paths that resolve alike
      are the same file in either mode, and the same file resolves to paths
      of one length. */
  predicate ComparePaths(first: string, second: string, caseInsensitive: bool, realpath: string -> string)
    ensures realpath(first) == realpath(second) ==> ComparePaths(first, second, caseInsensitive, realpath)
    ensures ComparePaths(first, second, caseInsensitive, realpath) ==> |realpath(first)| == |realpath(second)|
  {
    var a := realpath(first);
    var b := realpath(second);
    if caseInsensitive then Lower(a) == Lower(b) else a == b
  }

  // ---------------------------------------------------------------------------
  // Context wrapper

  /** The attribute that names the wrapped dictionary itself. */
  const CtxName := "_ctx"

  /** A copied context, as a dictionary of members. */
  datatype ContextWrapper<V> = ContextWrapper(ctx: map<string, V>)

  /** What a read returns: the dictionary itself for `_ctx`, a member
      otherwise. */
  datatype Got<V> = Dict(m: map<string, V>) | Member(v: V)

  /** The dictionary lookup of a missing member. */
  datatype KeyError = KeyError(name: string)

  /** A read of `name`, by attribute (`w.name`) or by item (`w[name]`): the
      wrapper defines both forms with the same body. An attribute read
      reaches that body only for a name the class does not itself provide. */
  function Get<V>(w: ContextWrapper<V>, name: string): (r: Result<Got<V>, KeyError>)
    ensures name == CtxName ==> r == Ok(Dict(w.ctx))
    ensures name != CtxName ==> (r.Err? <==> name !in w.ctx)
    ensures name != CtxName && name in w.ctx ==> r == Ok(Member(w.ctx[name]))
  {
    if name == CtxName then Ok(Dict(w.ctx))
    else if name in w.ctx then Ok(Member(w.ctx[name]))
    else Err(KeyError(name))
  }

  /** Assigning `_ctx`, by either form, replaces the wrapped dictionary. */
  function SetCtx<V>(w: ContextWrapper<V>, m: map<string, V>): (r: ContextWrapper<V>)
    ensures Get(r, CtxName) == Ok(Dict(m))
  {
    ContextWrapper(m)
  }

  /** An assignment to a member, by attribute (`w.name = value`) or by item
      (`w[name] = value`): the wrapper defines both forms with the same body. */
  function Set<V>(w: ContextWrapper<V>, name: string, value: V): (r: ContextWrapper<V>)
    requires name != CtxName
    ensures r.ctx.Keys == w.ctx.Keys + {name}
    ensures forall n :: n in w.ctx && n != name ==> r.ctx[n] == w.ctx[n]
  {
    ContextWrapper(w.ctx[name := value])
  }

  // ---------------------------------------------------------------------------
  // Linked libraries

  /** A linked library: its file path and the data-blocks that use it. */
  datatype Library<I> = Library(filepath: string, usersId: seq<I>)

  /** The first data-block of the requested type. */
  function FirstOfType<I>(ids: seq<I>, isType: I -> bool): (r: Option<I>)
    ensures r.Some? <==> exists k :: 0 <= k < |ids| && isType(ids[k])
    ensures r.Some? ==> exists k :: 0 <= k < |ids| && ids[k] == r.value && isType(ids[k])
                                    && forall k' :: 0 <= k' < k ==> !isType(ids[k'])
  {
    if |ids| == 0 then None
    else if isType(ids[0]) then Some(ids[0])
    else
      var rest := FirstOfType(ids[1..], isType);
      assert forall k :: 1 <= k < |ids| ==> ids[k] == ids[1..][k - 1];
      rest
  }

  /** The search as a recursive definition: libraries in order, and within
      the first matching library that has one, its first data-block of the
      type. */
  function Search<I>(libs: seq<Library<I>>, libFilepath: string, isType: I -> bool,
                     caseInsensitive: bool, realpath: string -> string): Option<I>
  {
    if |libs| == 0 then None
    else
      var here := if ComparePaths(libs[0].filepath, libFilepath, caseInsensitive, realpath)
                  then FirstOfType(libs[0].usersId, isType) else None;
      if here.Some? then here
      else Search(libs[1..], libFilepath, isType, caseInsensitive, realpath)
  }

  /** `linked_libraries_search`: the loop over the linked libraries; the
      first library whose path matches and that has a data-block of the type
      gives the result. */
  method LinkedLibrariesSearch<I>(libs: seq<Library<I>>, libFilepath: string, isType: I -> bool,
                                  caseInsensitive: bool, realpath: string -> string) returns (r: Option<I>)
    ensures r == Search(libs, libFilepath, isType, caseInsensitive, realpath)
    ensures r.Some? ==> isType(r.value)
  {
    var j := 0;
    while j < |libs|
      invariant 0 <= j <= |libs|
      invariant Search(libs, libFilepath, isType, caseInsensitive, realpath)
                == Search(libs[j..], libFilepath, isType, caseInsensitive, realpath)
    {
      var here := None;
      if ComparePaths(libs[j].filepath, libFilepath, caseInsensitive, realpath) {
        here := UsersSearch(libs[j].usersId, isType);
      }
      SearchStep(libs[j..], libFilepath, isType, caseInsensitive, realpath);
      assert libs[j..][1..] == libs[j + 1..];
      if here.Some? {
        return here;
      }
      j := j + 1;
    }
    return None;
  }

  /** The inner loop over one library's users. */
  method UsersSearch<I>(ids: seq<I>, isType: I -> bool) returns (r: Option<I>)
    ensures r == FirstOfType(ids, isType)
    ensures r.Some? ==> isType(r.value)
  {
    var k := 0;
    while k < |ids|
      invariant 0 <= k <= |ids|
      invariant FirstOfType(ids, isType) == FirstOfType(ids[k..], isType)
    {
      assert ids[k..][1..] == ids[k + 1..];
      if isType(ids[k]) {
        return Some(ids[k]);
      }
      k := k + 1;
    }
    return None;
  }

  lemma SearchStep<I>(libs: seq<Library<I>>, libFilepath: string, isType: I -> bool,
                      caseInsensitive: bool, realpath: string -> string)
    requires |libs| > 0
    ensures var here := if ComparePaths(libs[0].filepath, libFilepath, caseInsensitive, realpath)
                        then FirstOfType(libs[0].usersId, isType) else None;
            Search(libs, libFilepath, isType, caseInsensitive, realpath)
            == if here.Some? then here else Search(libs[1..], libFilepath, isType, caseInsensitive, realpath)
  {
  }
}
