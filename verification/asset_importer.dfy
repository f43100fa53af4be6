/** The decisions the asset importer takes around its Blender and file-system
    calls: operator status codes, material settings from base property
    overrides, which textures are wired, the paths derived from descriptors,
    how imported materials take over the mesh's slots, and the fallback that
    finds material descriptors next to an animated mesh.

    Game-profile callbacks and file-existence tests are function parameters;
    Blender data (materials) is an opaque type `M` with a name function. */
module AssetImporter {
  import opened Wrappers
  import opened Strings
  import opened Paths

  // ---------------------------------------------------------------------------
  // Operator messages

  datatype Status = Finished | Cancelled

  /** `_op_message`: the status code returned for a report of the given type;
      any other type raises NotImplementedError. */
  function OpMessage(msgType: string): (r: Option<Status>)
    ensures r == Some(Finished) <==> msgType == "INFO" || msgType == "WARNING"
    ensures r == Some(Cancelled) <==> msgType == "ERROR"
    ensures r.None? <==> msgType !in {"INFO", "WARNING", "ERROR"}
  {
    match msgType
    case "INFO" => Some(Finished)
    case "ERROR" => Some(Cancelled)
    case "WARNING" => Some(Finished)
    case _ => None
  }

  // ---------------------------------------------------------------------------
  // Material settings

  /** The overrides block of a material descriptor, each entry optional. */
  datatype Overrides = Overrides(blendMode: Option<string>, twoSided: Option<bool>, opacityMaskClipValue: Option<real>)

  datatype BlendMethod = Clip | Blend

  /** The blending modes that need extra shader nodes. */
  datatype SpecialBlendingMode = Add | Mod

  /** What the importer writes on a new material; None leaves Blender's value. */
  datatype MaterialSettings = MaterialSettings(
    blendMethod: Option<BlendMethod>,
    special: Option<SpecialBlendingMode>,
    backfaceCulling: Option<bool>,
    alphaThreshold: Option<real>,
    unknownBlendMode: bool)

  const Untouched := MaterialSettings(None, None, None, None, false)

  /** The five blend modes the importer knows. */
  const BlendModes: set<string> :=
    {"BLEND_Opaque (0)", "BLEND_Masked (1)", "BLEND_Translucent (2)", "BLEND_Additive (3)", "BLEND_Modulate (4)"}

  /** The BlendMode dispatch; an unknown mode only warns. Culling and the alpha
      threshold are never touched, and a mode outside the five known ones
      changes nothing but the warning. */
  function ApplyBlendMode(s: MaterialSettings, mode: string): (r: MaterialSettings)
    ensures r.backfaceCulling == s.backfaceCulling && r.alphaThreshold == s.alphaThreshold
    ensures r.unknownBlendMode <==> s.unknownBlendMode || mode !in BlendModes
    ensures mode !in BlendModes ==> r.blendMethod == s.blendMethod && r.special == s.special
    ensures r.special != s.special ==> mode in {"BLEND_Additive (3)", "BLEND_Modulate (4)"}
  {
    match mode
    case "BLEND_Opaque (0)" => s
    case "BLEND_Masked (1)" => s.(blendMethod := Some(Clip))
    case "BLEND_Translucent (2)" => s.(blendMethod := Some(Blend))
    case "BLEND_Additive (3)" => s.(special := Some(Add), blendMethod := Some(Blend))
    case "BLEND_Modulate (4)" => s.(special := Some(Mod), blendMethod := Some(Blend))
    case _ => s.(unknownBlendMode := true)
  }

  /** The settings `_import_material_to_library` writes: only in PBR mode, from
      the overrides block when there is one, and otherwise only backface
      culling when that option is on. */
  function Settings(loadPbr: bool, importBackfaceCulling: bool, overrides: Option<Overrides>): (r: MaterialSettings)
    ensures !loadPbr ==> r == Untouched
    ensures r.backfaceCulling.Some? <==>
              loadPbr && importBackfaceCulling && (overrides.None? || overrides.value.twoSided.Some?)
    ensures r.backfaceCulling.Some? ==>
              r.backfaceCulling.value == (overrides.None? || !overrides.value.twoSided.value)
    ensures r.alphaThreshold == (if loadPbr && overrides.Some? then overrides.value.opacityMaskClipValue else None)
    ensures (r.blendMethod.Some? || r.special.Some? || r.unknownBlendMode) ==>
              loadPbr && overrides.Some? && overrides.value.blendMode.Some?
  {
    if !loadPbr then Untouched
    else match overrides
      case None =>
        Untouched.(backfaceCulling := if importBackfaceCulling then Some(true) else None)
      case Some(o) =>
        var blended := if o.blendMode.Some? then ApplyBlendMode(Untouched, o.blendMode.value) else Untouched;
        blended.(
          backfaceCulling := if importBackfaceCulling && o.twoSided.Some? then Some(!o.twoSided.value) else None,
          alphaThreshold := o.opacityMaskClipValue)
  }

  // ---------------------------------------------------------------------------
  // Textures

  /** The library path of a texture: the descriptor's path without its
      extension, normalised, one leading separator dropped, with the chosen
      texture format appended. */
  function TexturePath(texPathAndName: string, textureFormat: string): (r: string)
    ensures var (stem, ext) := SplitExt(texPathAndName);
            stem + ext == texPathAndName && IsExtension(ext)
            && r == LibraryPath(stem) + textureFormat
  {
    LibraryPath(SplitExt(texPathAndName).0) + textureFormat
  }

  /** What happens to one (type, path) entry of the descriptor's texture
      parameters. */
  datatype TextureOutcome =
    | Unrecognised
    | NotDiffuse
    | Missing(texPath: string)
    | Wired(texPath: string)

  /** One iteration of the texture loop. `doProcess` and `isDiffuse` are the
      game profile's callbacks; `available` says whether the texture is in the
      library or in the export directory. */
  function TextureDecision(texType: string, texPathAndName: string, loadPbr: bool, textureFormat: string,
                           doProcess: string -> bool, isDiffuse: string -> bool,
                           available: string -> bool): (r: TextureOutcome)
    ensures r == Unrecognised <==> !doProcess(texType)
    ensures r == NotDiffuse <==> doProcess(texType) && !loadPbr && !isDiffuse(texType)
    ensures r.Wired? <==> doProcess(texType) && (loadPbr || isDiffuse(texType))
                           && available(TexturePath(texPathAndName, textureFormat))
    ensures (r.Wired? || r.Missing?) ==> r.texPath == TexturePath(texPathAndName, textureFormat)
  {
    if !doProcess(texType) then Unrecognised
    else if !loadPbr && !isDiffuse(texType) then NotDiffuse
    else
      var texPath := TexturePath(texPathAndName, textureFormat);
      if available(texPath) then Wired(texPath) else Missing(texPath)
  }

  /** The profile's callbacks and the options the texture loop consults. */
  datatype TextureEnv = TextureEnv(loadPbr: bool, textureFormat: string,
                                   doProcess: string -> bool, isDiffuse: string -> bool,
                                   available: string -> bool)

  function Decide(env: TextureEnv, info: (string, string)): TextureOutcome
  {
    TextureDecision(info.0, info.1, env.loadPbr, env.textureFormat, env.doProcess, env.isDiffuse, env.available)
  }

  /** The types of the entries the profile does not recognise. */
  function UnrecognisedTypes(infos: seq<(string, string)>, doProcess: string -> bool): set<string>
  {
    set i | 0 <= i < |infos| && !doProcess(infos[i].0) :: infos[i].0
  }

  lemma UnrecognisedCons(infos: seq<(string, string)>, doProcess: string -> bool)
    requires |infos| > 0
    ensures UnrecognisedTypes(infos, doProcess)
            == (if doProcess(infos[0].0) then {} else {infos[0].0}) + UnrecognisedTypes(infos[1..], doProcess)
  {
    var tail := infos[1..];
    forall t | t in UnrecognisedTypes(tail, doProcess) ensures t in UnrecognisedTypes(infos, doProcess) {
      var j :| 0 <= j < |tail| && !doProcess(tail[j].0) && tail[j].0 == t;
      assert infos[j + 1] == tail[j];
    }
    forall t | t in UnrecognisedTypes(infos, doProcess)
      ensures t in (if doProcess(infos[0].0) then {} else {infos[0].0}) + UnrecognisedTypes(tail, doProcess)
    {
      var i :| 0 <= i < |infos| && !doProcess(infos[i].0) && infos[i].0 == t;
      if i > 0 {
        assert tail[i - 1] == infos[i];
      }
    }
  }

  /** The decision for each entry, in order. */
  function Decisions(infos: seq<(string, string)>, env: TextureEnv): (ds: seq<TextureOutcome>)
    ensures |ds| == |infos| && forall i :: 0 <= i < |infos| ==> ds[i] == Decide(env, infos[i])
  {
    seq(|infos|, i requires 0 <= i < |infos| => Decide(env, infos[i]))
  }

  /** Every kept texture comes from an entry decided `Wired`... */
  predicate KeptSound(infos: seq<(string, string)>, ds: seq<TextureOutcome>, kept: seq<(string, string)>)
  {
    |ds| == |infos|
    && forall k :: 0 <= k < |kept| ==>
         exists i :: 0 <= i < |infos| && infos[i].0 == kept[k].0 && ds[i] == Wired(kept[k].1)
  }

  /** ... and every entry decided `Wired` is kept. */
  predicate KeptComplete(infos: seq<(string, string)>, ds: seq<TextureOutcome>, kept: seq<(string, string)>)
  {
    |ds| == |infos|
    && forall i :: 0 <= i < |infos| ==> ds[i].Wired? ==> (infos[i].0, ds[i].texPath) in kept
  }

  /** The number of entries decided `Wired`. */
  function CountWired(ds: seq<TextureOutcome>): nat
  {
    if |ds| == 0 then 0 else (if ds[0].Wired? then 1 else 0) + CountWired(ds[1..])
  }

  /** `kept` lists exactly the entries decided `Wired`, in entry order: `idx[k]`
      is the entry `kept[k]` comes from, the indices strictly increase, and
      there are as many as there are wired entries, so none is left out. */
  predicate KeptInOrder(infos: seq<(string, string)>, ds: seq<TextureOutcome>, kept: seq<(string, string)>,
                        idx: seq<int>)
  {
    && |ds| == |infos| && |idx| == |kept|
    && (forall k :: 0 <= k < |idx| ==>
          0 <= idx[k] < |infos| && ds[idx[k]].Wired? && kept[k] == (infos[idx[k]].0, ds[idx[k]].texPath))
    && (forall k, l :: 0 <= k < l < |idx| ==> idx[k] < idx[l])
    && |kept| == CountWired(ds)
  }

  /** The entry's own texture, if wired, followed by those kept from the rest. */
  function KeptStep(info: (string, string), d: TextureOutcome, rest: seq<(string, string)>): seq<(string, string)>
  {
    if d.Wired? then [(info.0, d.texPath)] + rest else rest
  }

  lemma KeptSoundCons(infos: seq<(string, string)>, ds: seq<TextureOutcome>, rest: seq<(string, string)>)
    requires |infos| == |ds| > 0 && KeptSound(infos[1..], ds[1..], rest)
    ensures KeptSound(infos, ds, KeptStep(infos[0], ds[0], rest))
  {
    var tail, dtail := infos[1..], ds[1..];
    var kept := KeptStep(infos[0], ds[0], rest);
    forall k | 0 <= k < |kept|
      ensures exists i :: 0 <= i < |infos| && infos[i].0 == kept[k].0 && ds[i] == Wired(kept[k].1)
    {
      if ds[0].Wired? && k == 0 {
        assert infos[0].0 == kept[0].0 && ds[0] == Wired(kept[0].1);
      } else {
        var k' := if ds[0].Wired? then k - 1 else k;
        assert kept[k] == rest[k'];
        var j :| 0 <= j < |tail| && tail[j].0 == rest[k'].0 && dtail[j] == Wired(rest[k'].1);
        assert infos[j + 1] == tail[j] && ds[j + 1] == dtail[j];
      }
    }
  }

  lemma KeptCompleteCons(infos: seq<(string, string)>, ds: seq<TextureOutcome>, rest: seq<(string, string)>)
    requires |infos| == |ds| > 0 && KeptComplete(infos[1..], ds[1..], rest)
    ensures KeptComplete(infos, ds, KeptStep(infos[0], ds[0], rest))
  {
    var tail, dtail := infos[1..], ds[1..];
    var kept := KeptStep(infos[0], ds[0], rest);
    forall i | 0 <= i < |infos| && ds[i].Wired?
      ensures (infos[i].0, ds[i].texPath) in kept
    {
      if i > 0 {
        assert infos[i] == tail[i - 1] && ds[i] == dtail[i - 1];
      }
    }
  }

  /** The texture loop over the descriptor's entries, in order: the textures
      wired (type and library path) and the types recorded as unrecognised. */
  function FilterTextures(infos: seq<(string, string)>, loadPbr: bool, textureFormat: string,
                          doProcess: string -> bool, isDiffuse: string -> bool,
                          available: string -> bool): (r: (seq<(string, string)>, set<string>))
    ensures r.1 == UnrecognisedTypes(infos, doProcess)
    ensures var ds := Decisions(infos, TextureEnv(loadPbr, textureFormat, doProcess, isDiffuse, available));
            KeptSound(infos, ds, r.0) && KeptComplete(infos, ds, r.0)
  {
    if |infos| == 0 then ([], {})
    else
      var env := TextureEnv(loadPbr, textureFormat, doProcess, isDiffuse, available);
      var ds := Decisions(infos, env);
      var rest := FilterTextures(infos[1..], loadPbr, textureFormat, doProcess, isDiffuse, available);
      var unknown := if doProcess(infos[0].0) then rest.1 else {infos[0].0} + rest.1;
      assert ds[1..] == Decisions(infos[1..], env);
      KeptSoundCons(infos, ds, rest.0);
      KeptCompleteCons(infos, ds, rest.0);
      UnrecognisedCons(infos, doProcess);
      (KeptStep(infos[0], ds[0], rest.0), unknown)
  }

  // ---------------------------------------------------------------------------
  // Material descriptors

  /** The descriptor file's double extension, ".props.txt". */
  const PropsTxt := ".props.txt"

  /** A mesh's material descriptor "path.Name" split at its last extension:
      the descriptor file's path (normalised, one leading separator dropped,
      ".props.txt" appended) and the material name without the dot. */
  function DescriptorOf(matDescPath: string): (r: (string, string))
    ensures SplitExt(matDescPath).0 + SplitExt(matDescPath).1 == matDescPath
    ensures r.0 == LibraryPath(SplitExt(matDescPath).0) + PropsTxt
    ensures SplitExt(matDescPath).1 == "" ==> r.1 == ""
    ensures SplitExt(matDescPath).1 != "" ==> "." + r.1 == SplitExt(matDescPath).1
  {
    var split := SplitExt(matDescPath);
    var name := if split.1 == "" then "" else DropDot(split.1);
    (LibraryPath(split.0) + PropsTxt, name)
  }

  /** An extension without its leading dot. */
  function DropDot(ext: string): (r: string)
    requires IsExtension(ext) && ext != ""
    ensures "." + r == ext
  {
    assert ext == [ext[0]] + ext[1..];
    ext[1..]
  }

  /** The material's local path without ".props.txt", as used for its catalog
      and its library file: two extensions removed. */
  function MaterialStem(materialPathLocal: string): string
  {
    SplitExt(SplitExt(materialPathLocal).0).0
  }

  // ---------------------------------------------------------------------------
  // Material slots

  /** `obj.data.materials.find(name)`: the first slot holding a material of
      that name. */
  function FindName<M>(slots: seq<M>, name: string, nameOf: M -> string): (r: Option<nat>)
    ensures r.Some? ==> r.value < |slots| && nameOf(slots[r.value]) == name
                        && forall i :: 0 <= i < r.value ==> nameOf(slots[i]) != name
    ensures r.None? ==> forall i :: 0 <= i < |slots| ==> nameOf(slots[i]) != name
  {
    if |slots| == 0 then None
    else if nameOf(slots[0]) == name then Some(0)
    else match FindName(slots[1..], name, nameOf)
      case None => None
      case Some(k) => Some(k + 1)
  }

  /** One imported material takes the first slot of its descriptor's name, or
      is appended when no slot has that name. */
  function PlaceMaterial<M>(slots: seq<M>, mat: M, matName: string, nameOf: M -> string): (r: seq<M>)
    ensures FindName(slots, matName, nameOf).Some? ==>
              var i := FindName(slots, matName, nameOf).value;
              |r| == |slots| && r[i] == mat && forall j :: 0 <= j < |slots| && j != i ==> r[j] == slots[j]
    ensures FindName(slots, matName, nameOf).None? ==> r == slots + [mat]
  {
    match FindName(slots, matName, nameOf)
    case Some(i) => slots[i := mat]
    case None => slots + [mat]
  }

  /** The replacement loop over the imported materials, in order. */
  function PlaceAll<M>(slots: seq<M>, news: seq<(M, string)>, nameOf: M -> string): (r: seq<M>)
    ensures |slots| <= |r| <= |slots| + |news|
    decreases |news|
  {
    if |news| == 0 then slots
    else PlaceAll(PlaceMaterial(slots, news[0].0, news[0].1, nameOf), news[1..], nameOf)
  }

  // ---------------------------------------------------------------------------
  // Descriptors found next to an animated mesh

  /** `r` lists first occurrences of `names`, in the order they occur: `idx[k]`
      is where `r[k]` first appears, and the indices strictly increase. */
  predicate FirstOccurrences(names: seq<string>, r: seq<string>, idx: seq<int>)
  {
    && |idx| == |r|
    && (forall k :: 0 <= k < |idx| ==>
          0 <= idx[k] < |names| && r[k] == names[idx[k]]
          && forall j :: 0 <= j < idx[k] ==> names[j] != r[k])
    && (forall k, l :: 0 <= k < l < |idx| ==> idx[k] < idx[l])
  }

  /** The slot names as dictionary keys: first occurrences, in order. */
  function Dedup(names: seq<string>): (r: seq<string>)
    ensures forall i, j :: 0 <= i < j < |r| ==> r[i] != r[j]
    ensures forall n :: n in r <==> n in names
  {
    if |names| == 0 then []
    else
      var rest := Dedup(names[..|names| - 1]);
      var last := names[|names| - 1];
      assert forall n :: n in names <==> n in names[..|names| - 1] || n == last by {
        assert names == names[..|names| - 1] + [last];
      }
      if last in rest then rest else rest + [last]
  }

  /** A file found under the Materials directory, as a path relative to the
      export directory: its name with both extensions removed, and the
      descriptor "path.Name" built from it. */
  function FoundDescriptor(rel: string): (string, string)
  {
    var fileAbs := SplitExt(SplitExt(rel).0).0;
    var name := Basename(fileAbs);
    (name, fileAbs + "." + name)
  }

  predicate IsPropsTxt(file: string)
  {
    |file| >= |PropsTxt| && file[|file| - |PropsTxt|..] == PropsTxt
  }

  /** The walk over the found files: descriptors assigned to slot names (a
      later file of the same name wins) and the names with no slot, which
      are only warned about. */
  function Collect(files: seq<string>, slotNames: set<string>): (r: (map<string, string>, seq<string>))
    ensures r.0.Keys <= slotNames
    ensures forall n :: n in r.0 ==>
              exists f :: f in files && IsPropsTxt(f) && FoundDescriptor(f) == (n, r.0[n])
    ensures forall f :: f in files && IsPropsTxt(f) && FoundDescriptor(f).0 in slotNames ==>
              FoundDescriptor(f).0 in r.0
    ensures forall n :: n in r.1 ==> n !in slotNames
    decreases |files|
  {
    if |files| == 0 then (map[], [])
    else
      var last := files[|files| - 1];
      var prev := Collect(files[..|files| - 1], slotNames);
      assert forall f :: f in files <==> f in files[..|files| - 1] || f == last by {
        assert files == files[..|files| - 1] + [last];
      }
      if !IsPropsTxt(last) then prev
      else
        var found := FoundDescriptor(last);
        if found.0 !in slotNames then (prev.0, prev.1 + [found.0])
        else (prev.0[found.0 := found.1], prev.1)
  }

  /** The values of `keys` in `m`, in order. */
  function Values(keys: seq<string>, m: map<string, string>): (r: seq<string>)
    requires forall k :: k in keys ==> k in m
    ensures |r| == |keys| && forall i :: 0 <= i < |keys| ==> r[i] == m[keys[i]]
  {
    if |keys| == 0 then [] else [m[keys[0]]] + Values(keys[1..], m)
  }

  datatype MaterialCountMismatch = MaterialCountMismatch

  /** The slot names as a set. */
  function NameSet(names: seq<string>): (r: set<string>)
    ensures forall n :: n in r <==> n in names
  {
    set n | n in names
  }

  /** The Materials-directory fallback over the files found there: one
      descriptor per distinct slot name, in slot order, plus the names found
      with no slot; an error when some slot gets no descriptor. */
  function Fallback(slotNames: seq<string>, files: seq<string>): (r: Result<(seq<string>, seq<string>), MaterialCountMismatch>)
    ensures r.Err? <==> exists k :: k in slotNames && k !in Collect(files, NameSet(slotNames)).0
    ensures r.Ok? ==> r.value.0 == Values(Dedup(slotNames), Collect(files, NameSet(slotNames)).0)
  {
    var keys := Dedup(slotNames);
    var found := Collect(files, NameSet(slotNames));
    if exists k :: k in slotNames && k !in found.0 then Err(MaterialCountMismatch)
    else Ok((Values(keys, found.0), found.1))
  }

  /** The descriptor list the importer goes on with. Listed descriptors are
      used as they are; an animated mesh with none falls back to the
      Materials directory (None when there is no such directory), where every
      slot must get a descriptor or the import fails with FileNotFoundError. */
  function MaterialDescriptors(animated: bool, listed: seq<string>, slotNames: seq<string>,
                               materialsDir: Option<seq<string>>): (r: Result<(seq<string>, seq<string>), MaterialCountMismatch>)
    ensures !(animated && |listed| == 0) ==> r == Ok((listed, []))
    ensures animated && |listed| == 0 && materialsDir.None? ==> r == Ok(([], []))
    ensures animated && |listed| == 0 && materialsDir.Some? ==> r == Fallback(slotNames, materialsDir.value)
  {
    if !(animated && |listed| == 0) then Ok((listed, []))
    else match materialsDir
      case None => Ok(([], []))
      case Some(files) => Fallback(slotNames, files)
  }
}
