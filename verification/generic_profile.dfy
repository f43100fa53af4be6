/** The generic game profile: a texture's purpose is guessed from the suffix
    after the last '_' of its short name, and a per-material context
    remembers which map kinds are already wired so that each is wired once.

    Materials and shader nodes are opaque handles (`M`, `B`); the node wiring
    itself is reported as the map kind that was wired. */
module GenericProfile {
  import opened Wrappers
  import opened Strings
  import opened TextureTypes

  /** Lower-case suffix to map kind. */
  const SuffixMap: map<string, TexMapType> :=
    map["d" := Diffuse, "n" := Normal, "mro" := MRO, "sro" := SRO,
        "mroh" := MROH, "mroa" := MRO, "sroh" := MROH]

  /** `s.split('_')[-1]`. */
  function LastSegment(s: string): (r: string)
    ensures '_' !in r
  {
    var parts := Split(s, '_');
    parts[|parts| - 1]
  }

  /** `_short_name_to_tex_type`. */
  function ShortNameToTexType(shortName: string): (r: Option<TexMapType>)
    ensures r.Some? <==> LastSegment(Lower(shortName)) in SuffixMap
    ensures r.Some? ==> r.value == SuffixMap[LastSegment(Lower(shortName))]
  {
    var suffix := LastSegment(Lower(shortName));
    if suffix in SuffixMap then Some(SuffixMap[suffix]) else None
  }

  /** `do_process_texture`: the texture type string is not consulted; a
      texture is processed when its lower-cased last suffix is one of the
      seven known ones. */
  predicate DoProcessTexture(texType: string, shortName: string)
    ensures DoProcessTexture(texType, shortName)
            <==> LastSegment(Lower(shortName)) in {"d", "n", "mro", "sro", "mroh", "mroa", "sroh"}
  {
    ShortNameToTexType(shortName).Some?
  }

  /** `is_diffuse_tex_type`: only the suffix "d", in either case, names a
      diffuse map. */
  predicate IsDiffuseTexType(texType: string, shortName: string)
    ensures IsDiffuseTexType(texType, shortName) <==> LastSegment(Lower(shortName)) == "d"
  {
    ShortNameToTexType(shortName) == Some(Diffuse)
  }

  /** The per-material context. `linkedMaps` holds the kinds already handled,
      None (an unrecognised name) included. */
  datatype MaterialContext<B> = MaterialContext(bsdf: Option<B>, usePbr: bool, linkedMaps: set<Option<TexMapType>>)

  type StateBuffer<M, B> = map<M, MaterialContext<B>>

  /** `process_material`: a fresh context for the material. */
  function ProcessMaterial<M, B>(buf: StateBuffer<M, B>, mat: M, usePbr: bool): (r: StateBuffer<M, B>)
    ensures mat in r && r[mat] == MaterialContext(None, usePbr, {})
    ensures forall m :: m in buf && m != mat ==> m in r && r[m] == buf[m]
    ensures r.Keys == buf.Keys + {mat}
  {
    buf[mat := MaterialContext(None, usePbr, {})]
  }

  /** The context half of `handle_material_texture_pbr`: the bsdf is
      recorded; a kind not yet linked is remembered and, when it is a real
      kind, wired. */
  function PbrStep<B>(ctx: MaterialContext<B>, shortName: string, bsdf: B): (r: (MaterialContext<B>, Option<TexMapType>))
    ensures r.0.bsdf == Some(bsdf) && r.0.usePbr == ctx.usePbr
    ensures r.0.linkedMaps == ctx.linkedMaps + {ShortNameToTexType(shortName)}
    ensures r.1.Some? <==> ShortNameToTexType(shortName).Some? && ShortNameToTexType(shortName) !in ctx.linkedMaps
    ensures r.1.Some? ==> Some(r.1.value) == ShortNameToTexType(shortName)
  {
    var kind := ShortNameToTexType(shortName);
    var ctx' := ctx.(bsdf := Some(bsdf));
    if kind in ctx.linkedMaps then (ctx', None)
    else (ctx'.(linkedMaps := ctx.linkedMaps + {kind}), kind)
  }

  /** `handle_material_texture_pbr`; a material without a context raises
      KeyError. */
  function HandlePbr<M, B>(buf: StateBuffer<M, B>, mat: M, shortName: string, bsdf: B): (r: (StateBuffer<M, B>, Option<TexMapType>))
    requires mat in buf
    ensures r.0.Keys == buf.Keys && r.0[mat] == PbrStep(buf[mat], shortName, bsdf).0
    ensures forall m :: m in buf && m != mat ==> r.0[m] == buf[m]
    ensures r.1 == PbrStep(buf[mat], shortName, bsdf).1
  {
    var (ctx, wired) := PbrStep(buf[mat], shortName, bsdf);
    (buf[mat := ctx], wired)
  }

  /** `handle_material_texture_simple`: only the bsdf is recorded. */
  function HandleSimple<M, B>(buf: StateBuffer<M, B>, mat: M, bsdf: B): (r: StateBuffer<M, B>)
    requires mat in buf
    ensures r.Keys == buf.Keys && r[mat] == buf[mat].(bsdf := Some(bsdf))
    ensures forall m :: m in buf && m != mat ==> r[m] == buf[m]
  {
    buf[mat := buf[mat].(bsdf := Some(bsdf))]
  }

  /** `end_process_material`: the node defaults are applied to the recorded
      bsdf only in PBR mode, and the context is dropped. */
  function EndProcess<M, B>(buf: StateBuffer<M, B>, mat: M): (r: (StateBuffer<M, B>, Option<B>))
    requires mat in buf
    ensures r.0 == buf - {mat}
    ensures r.1.Some? <==> buf[mat].usePbr && buf[mat].bsdf.Some?
    ensures r.1.Some? ==> r.1 == buf[mat].bsdf
  {
    var ctx := buf[mat];
    (buf - {mat}, if ctx.usePbr && ctx.bsdf.Some? then ctx.bsdf else None)
  }

  /** One handler call made while importing a material. */
  datatype Call<B> = PbrCall(shortName: string, bsdf: B) | SimpleCall(bsdf: B)

  /** One handler call: the buffer after it and the kind it wired, if any. */
  function Handle<M, B>(buf: StateBuffer<M, B>, mat: M, call: Call<B>): (r: (StateBuffer<M, B>, Option<TexMapType>))
    requires mat in buf
    ensures r.0.Keys == buf.Keys
    ensures forall m :: m in buf && m != mat ==> r.0[m] == buf[m]
    ensures r.0[mat].usePbr == buf[mat].usePbr && r.0[mat].bsdf == Some(call.bsdf)
    ensures r.0[mat].linkedMaps
            == if call.PbrCall? then buf[mat].linkedMaps + {ShortNameToTexType(call.shortName)} else buf[mat].linkedMaps
    ensures r.1.Some? <==> call.PbrCall? && ShortNameToTexType(call.shortName).Some?
                           && ShortNameToTexType(call.shortName) !in buf[mat].linkedMaps
    ensures r.1.Some? ==> Some(r.1.value) == ShortNameToTexType(call.shortName)
  {
    match call
    case PbrCall(n, b) => HandlePbr(buf, mat, n, b)
    case SimpleCall(b) => (HandleSimple(buf, mat, b), None)
  }

  /** The handler calls applied in order, with the kinds wired. */
  function RunCalls<M, B>(buf: StateBuffer<M, B>, mat: M, calls: seq<Call<B>>): (r: (StateBuffer<M, B>, seq<TexMapType>))
    requires mat in buf
    ensures r.0.Keys == buf.Keys
    ensures forall m :: m in buf && m != mat ==> r.0[m] == buf[m]
    ensures r.0[mat].usePbr == buf[mat].usePbr
    ensures |calls| == 0 ==> r.0[mat].bsdf == buf[mat].bsdf
    ensures |calls| > 0 ==> r.0[mat].bsdf == Some(calls[|calls| - 1].bsdf)
    decreases |calls|
  {
    if |calls| == 0 then (buf, [])
    else
      var step := Handle(buf, mat, calls[0]);
      var rest := RunCalls(step.0, mat, calls[1..]);
      (rest.0, (if step.1.Some? then [step.1.value] else []) + rest.1)
  }
}
