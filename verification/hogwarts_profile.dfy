/** The Hogwarts Legacy game profile: texture parameter names from a
    material descriptor are looked up, exactly and case-sensitively, in a
    fixed table; the per-material state is the bsdf handed in last and the
    PBR flag. */
module HogwartsProfile {
  import opened Wrappers
  import opened TextureTypes

  /** The table read backwards: the parameter names of each map kind. */
  function NamesOf(kind: TexMapType): set<string>
  {
    match kind
    case Diffuse =>
      {"Diffuse", "Diffuse Map", "Diffuse A", "Diffuse Map A", "Diffuse A Map", "Color Glass",
       "Base color", "Base Color", "Color Mask", "Worn Diffuse"}
    case Normal =>
      {"Normal", "Normal Map", "Normal A", "Normal Map A", "Normal A Map", "Worn Normal"}
    case SRO =>
      {"SRO", "MRO/SRO Map", "SRO Map", "SRO A", "SRO Map A", "SRO A Map", "MRO/SRO A Map",
       "Worn SRO"}
    case MRO =>
      {"MRO", "MRO/SRO", "MRO Map", "MRO/SRO A", "MRO/SRO Map A", "MROA", "Worn MRO",
       "Worn MRO/SRO"}
    case MROH =>
      {"MROH", "MROH/SROH", "MROH Map", "MROH/SROH Map", "MROH A", "MROH/SROH A", "MRO A",
       "MROH Map A", "MROH/SROH Map A", "MRO Map A", "MROH A Map", "MROH/SROH A Map",
       "MRO A Map", "Worn MROH", "Worn MROH/SROH"}
  }

  /** The parameter names the table knows. */
  const ParamNames: set<string> :=
    NamesOf(Diffuse) + NamesOf(Normal) + NamesOf(SRO) + NamesOf(MRO) + NamesOf(MROH)

  /** `TEXTURE_PARAM_NAME_TRS.get(texType)`: the parameter-name table,
      entries as written, irregular ones included. The names are distinct, so
      a match on them reads as the dictionary does. */
  function Lookup(texType: string): Option<TexMapType>
  {
    match texType
    case "Diffuse" => Some(Diffuse)
    case "Normal" => Some(Normal)
    case "SRO" => Some(SRO)
    case "MRO" => Some(MRO)
    case "MROH" => Some(MROH)
    case "MROH/SROH" => Some(MROH)
    case "MRO/SRO" => Some(MRO)

    case "Diffuse Map" => Some(Diffuse)
    case "Normal Map" => Some(Normal)
    case "MRO/SRO Map" => Some(SRO)
    case "SRO Map" => Some(SRO)
    case "MROH Map" => Some(MROH)
    case "MROH/SROH Map" => Some(MROH)
    case "MRO Map" => Some(MRO)

    case "Diffuse A" => Some(Diffuse)
    case "Normal A" => Some(Normal)
    case "SRO A" => Some(SRO)
    case "MROH A" => Some(MROH)
    case "MROH/SROH A" => Some(MROH)
    case "MRO/SRO A" => Some(MRO)
    case "MRO A" => Some(MROH)

    case "Diffuse Map A" => Some(Diffuse)
    case "Normal Map A" => Some(Normal)
    case "SRO Map A" => Some(SRO)
    case "MROH Map A" => Some(MROH)
    case "MROH/SROH Map A" => Some(MROH)
    case "MRO/SRO Map A" => Some(MRO)
    case "MRO Map A" => Some(MROH)

    case "Diffuse A Map" => Some(Diffuse)
    case "Normal A Map" => Some(Normal)
    case "SRO A Map" => Some(SRO)
    case "MRO/SRO A Map" => Some(SRO)
    case "MROH A Map" => Some(MROH)
    case "MROH/SROH A Map" => Some(MROH)
    case "MRO A Map" => Some(MROH)

    case "Color Glass" => Some(Diffuse)
    case "Base color" => Some(Diffuse)
    case "Base Color" => Some(Diffuse)
    case "MROA" => Some(MRO)
    case "Color Mask" => Some(Diffuse)
    case "Worn Diffuse" => Some(Diffuse)
    case "Worn Normal" => Some(Normal)
    case "Worn SRO" => Some(SRO)
    case "Worn MRO" => Some(MRO)
    case "Worn MROH" => Some(MROH)
    case "Worn MROH/SROH" => Some(MROH)
    case "Worn MRO/SRO" => Some(MRO)

    case _ => None
  }

  /** `do_process_texture`: only the table's names are processed. */
  predicate DoProcessTexture(texType: string)
    ensures DoProcessTexture(texType) <==> texType in ParamNames
  {
    TableNames(texType);
    Lookup(texType).Some?
  }

  /** `is_diffuse_tex_type`: the ten diffuse names, and no other name. */
  predicate IsDiffuseTexType(texType: string)
    ensures IsDiffuseTexType(texType) <==> texType in NamesOf(Diffuse)
  {
    KindExactly(texType, Diffuse);
    Lookup(texType) == Some(Diffuse)
  }

  /** A name is found exactly when it is one of the table's names, compared
      case-sensitively. */
  lemma TableNames(texType: string)
    ensures Lookup(texType).Some? <==> texType in ParamNames
  {
    KindExactly(texType, Diffuse);
    KindExactly(texType, Normal);
    KindExactly(texType, SRO);
    KindExactly(texType, MRO);
    KindExactly(texType, MROH);
    if Lookup(texType).Some? {
      assert Lookup(texType) == Some(Lookup(texType).value);
    }
  }

  /** A name is read as a map of `kind` exactly when the table lists it under
      that kind. */
  lemma KindExactly(texType: string, kind: TexMapType)
    ensures Lookup(texType) == Some(kind) <==> texType in NamesOf(kind)
  {
  }

  /** The state kept per material: the bsdf handed in last (None before any
      texture) and whether the material is built in PBR mode. */
  datatype Slot<B> = Slot(bsdf: Option<B>, usePbr: bool)

  type StateBuffer<M, B> = map<M, Slot<B>>

  /** `process_material`. */
  function ProcessMaterial<M, B>(buf: StateBuffer<M, B>, mat: M, usePbr: bool): (r: StateBuffer<M, B>)
    ensures mat in r && r[mat] == Slot(None, usePbr)
    ensures forall m :: m in buf && m != mat ==> m in r && r[m] == buf[m]
    ensures r.Keys == buf.Keys + {mat}
  {
    buf[mat := Slot(None, usePbr)]
  }

  /** `handle_material_texture_pbr`: the bsdf slot is overwritten and the
      texture's kind wired. A name missing from the table fails the
      assertion in the handler, and a material without state raises
      KeyError. */
  function HandlePbr<M, B>(buf: StateBuffer<M, B>, mat: M, texType: string, bsdf: B): (r: (StateBuffer<M, B>, TexMapType))
    requires mat in buf && DoProcessTexture(texType)
    ensures r.0.Keys == buf.Keys && r.0[mat] == Slot(Some(bsdf), buf[mat].usePbr)
    ensures forall m :: m in buf && m != mat ==> r.0[m] == buf[m]
    ensures Lookup(texType) == Some(r.1)
  {
    (buf[mat := Slot(Some(bsdf), buf[mat].usePbr)], Lookup(texType).value)
  }

  /** `handle_material_texture_simple`: the bsdf slot is overwritten. */
  function HandleSimple<M, B>(buf: StateBuffer<M, B>, mat: M, bsdf: B): (r: StateBuffer<M, B>)
    requires mat in buf
    ensures r.Keys == buf.Keys && r[mat] == Slot(Some(bsdf), buf[mat].usePbr)
    ensures forall m :: m in buf && m != mat ==> r[m] == buf[m]
  {
    buf[mat := Slot(Some(bsdf), buf[mat].usePbr)]
  }

  /** `end_process_material`: defaults go to the recorded bsdf only in PBR
      mode, and the material's state is dropped. */
  function EndProcess<M, B>(buf: StateBuffer<M, B>, mat: M): (r: (StateBuffer<M, B>, Option<B>))
    requires mat in buf
    ensures r.0 == buf - {mat}
    ensures r.1.Some? <==> buf[mat].usePbr && buf[mat].bsdf.Some?
    ensures r.1.Some? ==> r.1 == buf[mat].bsdf
  {
    var slot := buf[mat];
    (buf - {mat}, if slot.usePbr && slot.bsdf.Some? then slot.bsdf else None)
  }
}
