/** Properties of the helpers: both comparisons are equivalences, exact path
    equality implies the case-insensitive one, what is written through the
    context wrapper reads back by either access form, and the library search
    answers from the first matching library that has a data-block of the
    type. */
module UtilsProperties {
  import opened Wrappers
  import opened Strings
  import opened Utils

  /** Mesh comparison is an equivalence. */
  lemma MeshEquivalence<V, P, L, E>(a: Mesh<V, P, L, E>, b: Mesh<V, P, L, E>, c: Mesh<V, P, L, E>)
    ensures CompareMeshes(a, a)
    ensures CompareMeshes(a, b) ==> CompareMeshes(b, a)
    ensures CompareMeshes(a, b) && CompareMeshes(b, c) ==> CompareMeshes(a, c)
  {
  }

  /** Meshes compare equal iff all four counts agree: the comparison does not
      look at the geometry itself, so any two meshes of the same sizes, with
      whatever vertices, polygons, loops and edges, compare equal. */
  lemma MeshCountsOnly<V, P, L, E>(a: Mesh<V, P, L, E>, b: Mesh<V, P, L, E>)
    ensures CompareMeshes(a, b) <==>
              && |a.vertices| == |b.vertices| && |a.polygons| == |b.polygons|
              && |a.loops| == |b.loops| && |a.edges| == |b.edges|
  {
  }

  /** Path comparison is an equivalence in either file-system mode. */
  lemma PathEquivalence(a: string, b: string, c: string, caseInsensitive: bool, realpath: string -> string)
    ensures ComparePaths(a, a, caseInsensitive, realpath)
    ensures ComparePaths(a, b, caseInsensitive, realpath) ==> ComparePaths(b, a, caseInsensitive, realpath)
    ensures ComparePaths(a, b, caseInsensitive, realpath) && ComparePaths(b, c, caseInsensitive, realpath)
            ==> ComparePaths(a, c, caseInsensitive, realpath)
  {
  }

  /** Paths equal on a case-sensitive file system are equal on a
      case-insensitive one. */
  lemma ExactImpliesInsensitive(a: string, b: string, realpath: string -> string)
    requires ComparePaths(a, b, false, realpath)
    ensures ComparePaths(a, b, true, realpath)
  {
  }

  /** Two names differing only in case are the same file only when the file
      system ignores case. */
  lemma CaseDecides()
    ensures ComparePaths("/Data/A", "/data/a", true, p => p)
    ensures !ComparePaths("/Data/A", "/data/a", false, p => p)
  {
    assert Lower("/Data/A") == Lower("/data/a");
    assert "/Data/A"[1] != "/data/a"[1];
  }

  /** A member once assigned reads back as the value assigned. */
  lemma ContextReadsBack<V>(w: ContextWrapper<V>, name: string, value: V)
    requires name != CtxName
    ensures Get(Set(w, name, value), name) == Ok(Member(value))
  {
  }

  /** Assigning one member leaves every other read as it was. */
  lemma ContextOthersUnchanged<V>(w: ContextWrapper<V>, name: string, other: string, value: V)
    requires name != CtxName && other != CtxName && other != name
    ensures Get(Set(w, name, value), other) == Get(w, other)
  {
  }

  /** A member never assigned raises KeyError. */
  lemma ContextMissingRaises<V>(w: ContextWrapper<V>, name: string)
    requires name != CtxName && name !in w.ctx
    ensures Get(w, name) == Err(KeyError(name))
  {
  }

  /** `_ctx` is the dictionary itself, with the assigned member in it. */
  lemma ContextSelf<V>(w: ContextWrapper<V>, name: string, value: V)
    requires name != CtxName
    ensures Get(Set(w, name, value), CtxName) == Ok(Dict(w.ctx[name := value]))
  {
  }

  /** A result comes from a library whose path matches, and there is none
      exactly when no matching library holds a data-block of the type. */
  lemma {:induction false} SearchSound<I>(libs: seq<Library<I>>, libFilepath: string, isType: I -> bool,
                                          caseInsensitive: bool, realpath: string -> string)
    ensures var r := Search(libs, libFilepath, isType, caseInsensitive, realpath);
            && (r.Some? ==>
                  exists j :: 0 <= j < |libs| && ComparePaths(libs[j].filepath, libFilepath, caseInsensitive, realpath)
                              && FirstOfType(libs[j].usersId, isType) == r)
            && (r.None? <==>
                  forall j :: 0 <= j < |libs| && ComparePaths(libs[j].filepath, libFilepath, caseInsensitive, realpath)
                              ==> FirstOfType(libs[j].usersId, isType).None?)
    decreases |libs|
  {
    if |libs| > 0 {
      var rest := libs[1..];
      assert forall j :: 1 <= j < |libs| ==> libs[j] == rest[j - 1];
      SearchSound(rest, libFilepath, isType, caseInsensitive, realpath);
    }
  }

  /** The search answers from the first matching library that holds a
      data-block of the type, skipping matching libraries that hold none. */
  lemma {:induction false} SearchFirstMatch<I>(libs: seq<Library<I>>, libFilepath: string, isType: I -> bool,
                                               caseInsensitive: bool, realpath: string -> string, j: nat)
    requires j < |libs| && ComparePaths(libs[j].filepath, libFilepath, caseInsensitive, realpath)
    requires FirstOfType(libs[j].usersId, isType).Some?
    requires forall i :: 0 <= i < j && ComparePaths(libs[i].filepath, libFilepath, caseInsensitive, realpath)
                         ==> FirstOfType(libs[i].usersId, isType).None?
    ensures Search(libs, libFilepath, isType, caseInsensitive, realpath) == FirstOfType(libs[j].usersId, isType)
    decreases j
  {
    if j > 0 {
      var rest := libs[1..];
      assert forall i :: 0 <= i < |rest| ==> rest[i] == libs[i + 1];
      SearchFirstMatch(rest, libFilepath, isType, caseInsensitive, realpath, j - 1);
    }
  }
}
