/** Properties of the asset importer's decisions: the blend-mode table, which
    textures survive the non-PBR filter, the inverse relation between the
    descriptor paths the importer builds and the ones it reads, and how
    imported materials settle into the mesh's slots. */
module AssetImporterProperties {
  import opened Wrappers
  import opened Strings
  import opened Paths
  import opened AssetImporter
  import HogwartsProfile
  import TextureTypes

  // ---------------------------------------------------------------------------
  // Blend modes

  /** The five known modes, with no other override present. */
  lemma KnownBlendModes(culling: bool)
    ensures var o := (m: string) => Some(Overrides(Some(m), None, None));
            Settings(true, culling, o("BLEND_Opaque (0)")) == Untouched
            && Settings(true, culling, o("BLEND_Masked (1)")) == Untouched.(blendMethod := Some(Clip))
            && Settings(true, culling, o("BLEND_Translucent (2)")) == Untouched.(blendMethod := Some(Blend))
            && Settings(true, culling, o("BLEND_Additive (3)")) == Untouched.(blendMethod := Some(Blend), special := Some(Add))
            && Settings(true, culling, o("BLEND_Modulate (4)")) == Untouched.(blendMethod := Some(Blend), special := Some(Mod))
  {
  }

  /** Any other mode is only reported: blending is left alone. */
  lemma UnknownBlendModeWarns(culling: bool, mode: string, twoSided: Option<bool>, clip: Option<real>)
    requires mode !in BlendModes
    ensures var r := Settings(true, culling, Some(Overrides(Some(mode), twoSided, clip)));
            r.unknownBlendMode && r.blendMethod.None? && r.special.None?
  {
  }

  /** Applying a blend mode twice is applying it once. */
  lemma BlendModeIdempotent(s: MaterialSettings, mode: string)
    ensures ApplyBlendMode(ApplyBlendMode(s, mode), mode) == ApplyBlendMode(s, mode)
  {
  }

  /** A two-sided material never has backface culling turned on. */
  lemma TwoSidedNeverCulled(culling: bool, mode: Option<string>, clip: Option<real>)
    ensures Settings(true, culling, Some(Overrides(mode, Some(true), clip))).backfaceCulling != Some(true)
  {
  }

  // ---------------------------------------------------------------------------
  // Textures

  /** Without PBR only diffuse textures are wired, whatever the profile. */
  lemma {:induction false} NonPbrWiresDiffuseOnly(infos: seq<(string, string)>, textureFormat: string,
                                                  doProcess: string -> bool, isDiffuse: string -> bool,
                                                  available: string -> bool)
    ensures var r := FilterTextures(infos, false, textureFormat, doProcess, isDiffuse, available);
            forall k :: 0 <= k < |r.0| ==> isDiffuse(r.0[k].0) && doProcess(r.0[k].0)
  {
    var r := FilterTextures(infos, false, textureFormat, doProcess, isDiffuse, available);
    forall k | 0 <= k < |r.0| ensures isDiffuse(r.0[k].0) && doProcess(r.0[k].0) {
      var i :| 0 <= i < |infos| && infos[i].0 == r.0[k].0
               && TextureDecision(infos[i].0, infos[i].1, false, textureFormat, doProcess, isDiffuse, available)
                  == Wired(r.0[k].1);
    }
  }

  /** Every wired texture's path is the library path built from its entry. */
  lemma {:induction false} WiredPaths(infos: seq<(string, string)>, loadPbr: bool, textureFormat: string,
                                      doProcess: string -> bool, isDiffuse: string -> bool,
                                      available: string -> bool)
    ensures var r := FilterTextures(infos, loadPbr, textureFormat, doProcess, isDiffuse, available);
            forall k :: 0 <= k < |r.0| ==>
              available(r.0[k].1)
              && exists i :: 0 <= i < |infos| && infos[i].0 == r.0[k].0
                             && r.0[k].1 == TexturePath(infos[i].1, textureFormat)
  {
    var r := FilterTextures(infos, loadPbr, textureFormat, doProcess, isDiffuse, available);
    forall k | 0 <= k < |r.0|
      ensures available(r.0[k].1)
      ensures exists i :: 0 <= i < |infos| && infos[i].0 == r.0[k].0
                          && r.0[k].1 == TexturePath(infos[i].1, textureFormat)
    {
      var i :| 0 <= i < |infos| && infos[i].0 == r.0[k].0
               && TextureDecision(infos[i].0, infos[i].1, loadPbr, textureFormat, doProcess, isDiffuse, available)
                  == Wired(r.0[k].1);
    }
  }

  /** The textures are wired in the order of the descriptor's entries, each
      wired entry once: the order decides which of two textures of one kind a
      profile wires. */
  lemma {:induction false} FilterTexturesInOrder(infos: seq<(string, string)>, loadPbr: bool, textureFormat: string,
                                                 doProcess: string -> bool, isDiffuse: string -> bool,
                                                 available: string -> bool)
    ensures var ds := Decisions(infos, TextureEnv(loadPbr, textureFormat, doProcess, isDiffuse, available));
            exists idx :: KeptInOrder(infos, ds, FilterTextures(infos, loadPbr, textureFormat, doProcess, isDiffuse, available).0, idx)
    decreases |infos|
  {
    var env := TextureEnv(loadPbr, textureFormat, doProcess, isDiffuse, available);
    var ds := Decisions(infos, env);
    var kept := FilterTextures(infos, loadPbr, textureFormat, doProcess, isDiffuse, available).0;
    if |infos| == 0 {
      assert KeptInOrder(infos, ds, kept, []);
    } else {
      FilterTexturesInOrder(infos[1..], loadPbr, textureFormat, doProcess, isDiffuse, available);
      var rest := FilterTextures(infos[1..], loadPbr, textureFormat, doProcess, isDiffuse, available).0;
      assert ds[1..] == Decisions(infos[1..], env);
      var idx' :| KeptInOrder(infos[1..], ds[1..], rest, idx');
      assert kept == KeptStep(infos[0], ds[0], rest);
      var idx := KeptCons(infos, ds, rest, idx');
      assert KeptInOrder(infos, ds, kept, idx);
    }
  }

  /** The indices of the entries kept from the tail, shifted past the head,
      behind the head's own index when it is wired. */
  lemma KeptCons(infos: seq<(string, string)>, ds: seq<TextureOutcome>, rest: seq<(string, string)>, idx': seq<int>)
    returns (idx: seq<int>)
    requires |infos| == |ds| > 0 && KeptInOrder(infos[1..], ds[1..], rest, idx')
    ensures KeptInOrder(infos, ds, KeptStep(infos[0], ds[0], rest), idx)
  {
    var shifted := KeptShift(infos, ds, rest, idx');
    if ds[0].Wired? {
      idx := [0] + shifted;
      var kept := [(infos[0].0, ds[0].texPath)] + rest;
      assert KeptStep(infos[0], ds[0], rest) == kept;
      forall k | 0 <= k < |idx|
        ensures 0 <= idx[k] < |infos| && ds[idx[k]].Wired? && kept[k] == (infos[idx[k]].0, ds[idx[k]].texPath)
      {
        if k > 0 { assert idx[k] == shifted[k - 1] && kept[k] == rest[k - 1]; }
      }
    } else {
      idx := shifted;
    }
  }

  /** The tail's indices shifted by one describe the tail's kept list against
      the whole descriptor. */
  lemma KeptShift(infos: seq<(string, string)>, ds: seq<TextureOutcome>, rest: seq<(string, string)>, idx': seq<int>)
    returns (shifted: seq<int>)
    requires |infos| == |ds| > 0 && KeptInOrder(infos[1..], ds[1..], rest, idx')
    ensures |shifted| == |rest|
    ensures forall k :: 0 <= k < |shifted| ==>
              1 <= shifted[k] < |infos| && ds[shifted[k]].Wired? && rest[k] == (infos[shifted[k]].0, ds[shifted[k]].texPath)
    ensures forall k, l :: 0 <= k < l < |shifted| ==> shifted[k] < shifted[l]
  {
    shifted := seq(|idx'|, k requires 0 <= k < |idx'| => idx'[k] + 1);
    var tail, dtail := infos[1..], ds[1..];
    forall k | 0 <= k < |shifted|
      ensures 1 <= shifted[k] < |infos| && ds[shifted[k]].Wired? && rest[k] == (infos[shifted[k]].0, ds[shifted[k]].texPath)
    {
      assert infos[shifted[k]] == tail[idx'[k]] && ds[shifted[k]] == dtail[idx'[k]];
    }
  }

  /** With the Hogwarts Legacy profile and no PBR, only the diffuse entries of
      its table reach a material. */
  lemma HogwartsNonPbr(infos: seq<(string, string)>, textureFormat: string, available: string -> bool)
    ensures var r := FilterTextures(infos, false, textureFormat,
                                    HogwartsProfile.DoProcessTexture, HogwartsProfile.IsDiffuseTexType, available);
            forall k :: 0 <= k < |r.0| ==> HogwartsProfile.Lookup(r.0[k].0) == Some(TextureTypes.Diffuse)
  {
    NonPbrWiresDiffuseOnly(infos, textureFormat, HogwartsProfile.DoProcessTexture,
                           HogwartsProfile.IsDiffuseTexType, available);
  }

  // ---------------------------------------------------------------------------
  // Descriptor paths

  /** Two plain extensions come off again with two `SplitExt` steps. */
  lemma DoubleExtension(q: string, n1: string, n2: string)
    requires !AllDots(q[LastIndexOf(q, Sep) + 1..])
    requires |n1| >= 1 && Sep !in n1 && '.' !in n1
    requires Sep !in n2 && '.' !in n2
    ensures MaterialStem(q + ("." + n1 + "." + n2)) == q
  {
    var qp := q + "." + n1;
    DotsRegrouped(q, n1, n2);
    ExtendedHasStem(q, n1);
    SplitExtOfName(qp, n2);
    SplitExtOfName(q, n1);
    StemChain(q + ("." + n1 + "." + n2), qp + "." + n2, qp, q);
  }

  lemma DotsRegrouped(q: string, n1: string, n2: string)
    ensures q + ("." + n1 + "." + n2) == q + "." + n1 + "." + n2
  {
  }

  lemma StemChain(x: string, y: string, qp: string, q: string)
    requires x == y && SplitExt(y).0 == qp && SplitExt(qp).0 == q
    ensures MaterialStem(x) == q
  {
  }

  /** The texture path drops the descriptor's extension, whatever it is, from
      any path whose last component has a stem. */
  lemma TexturePathDropsExtension(q: string, n: string, textureFormat: string)
    requires Sep !in n && '.' !in n
    requires !AllDots(q[LastIndexOf(q, Sep) + 1..])
    ensures TexturePath(q + "." + n, textureFormat) == LibraryPath(q) + textureFormat
  {
    SplitExtOfName(q, n);
  }

  /** A descriptor file's name loses ".props.txt" when its stem is taken. */
  lemma MaterialStemOfDescriptor(q: string)
    requires !AllDots(q[LastIndexOf(q, Sep) + 1..])
    ensures MaterialStem(q + PropsTxt) == q
  {
    PlainExtensions();
    assert PropsTxt == "." + "props" + "." + "txt";
    DoubleExtension(q, "props", "txt");
  }

  /** "props" and "txt" are plain names. */
  lemma PlainExtensions()
    ensures |"props"| >= 1 && Sep !in "props" && '.' !in "props"
    ensures Sep !in "txt" && '.' !in "txt"
  {
  }

  /** The descriptor built for a file found under the Materials directory
      reads back as that file (as a library path) and its name, whenever the
      name has no dot. */
  lemma FoundDescriptorReadsBack(rel: string)
    requires var name := FoundDescriptor(rel).0; name != "" && '.' !in name
    ensures DescriptorOf(FoundDescriptor(rel).1) == (LibraryPath(MaterialStem(rel)) + PropsTxt, FoundDescriptor(rel).0)
  {
    var fileAbs := MaterialStem(rel);
    var name := Basename(fileAbs);
    var sepIndex := LastIndexOf(fileAbs, Sep);
    assert name == fileAbs[sepIndex + 1..];
    assert name[0] != '.';
    SplitExtOfName(fileAbs, name);
  }

  // ---------------------------------------------------------------------------
  // Material slots

  /** A slot whose name no imported material carries keeps its material. */
  lemma {:induction false} PlaceAllKeepsOthers<M>(slots: seq<M>, news: seq<(M, string)>, nameOf: M -> string, i: nat)
    requires i < |slots|
    requires forall j :: 0 <= j < |news| ==> news[j].1 != nameOf(slots[i])
    ensures i < |PlaceAll(slots, news, nameOf)| && PlaceAll(slots, news, nameOf)[i] == slots[i]
    decreases |news|
  {
    if |news| > 0 {
      var s1 := PlaceMaterial(slots, news[0].0, news[0].1, nameOf);
      assert s1[i] == slots[i];
      PlaceAllKeepsOthers(s1, news[1..], nameOf, i);
    }
  }

  /** Imported materials with distinct names, each named after its
      descriptor, all end up on the mesh. */
  lemma {:induction false} PlaceAllHoldsNews<M>(slots: seq<M>, news: seq<(M, string)>, nameOf: M -> string)
    requires forall j :: 0 <= j < |news| ==> nameOf(news[j].0) == news[j].1
    requires forall j, k :: 0 <= j < k < |news| ==> news[j].1 != news[k].1
    ensures forall j :: 0 <= j < |news| ==> news[j].0 in PlaceAll(slots, news, nameOf)
    decreases |news|
  {
    if |news| > 0 {
      var s1 := PlaceMaterial(slots, news[0].0, news[0].1, nameOf);
      var rest := news[1..];
      PlaceAllHoldsNews(s1, rest, nameOf);
      var i: nat := match FindName(slots, news[0].1, nameOf) case Some(k) => k case None => |slots|;
      assert s1[i] == news[0].0;
      PlaceAllKeepsOthers(s1, rest, nameOf, i);
      forall j | 0 <= j < |news| ensures news[j].0 in PlaceAll(slots, news, nameOf) {
        if j > 0 {
          assert news[j] == rest[j - 1];
        }
      }
    }
  }

  // ---------------------------------------------------------------------------
  // The Materials-directory fallback

  /** The slot names are keyed in the order they first occur. */
  lemma {:induction false} DedupFirstOccurrences(names: seq<string>)
    ensures exists idx :: FirstOccurrences(names, Dedup(names), idx)
    decreases |names|
  {
    if |names| == 0 {
      assert FirstOccurrences(names, Dedup(names), []);
    } else {
      var init := names[..|names| - 1];
      var last := names[|names| - 1];
      var rest := Dedup(init);
      assert Dedup(names) == if last in rest then rest else rest + [last];
      DedupFirstOccurrences(init);
      var idx' :| FirstOccurrences(init, rest, idx');
      var idx := FirstOccurrencesExtend(names, init, last, rest, idx');
    }
  }

  /** Appending a name keeps the earlier first occurrences and, when the name
      is new, adds it as the last one. */
  lemma FirstOccurrencesExtend(names: seq<string>, init: seq<string>, last: string, rest: seq<string>, idx': seq<int>)
    returns (idx: seq<int>)
    requires names == init + [last]
    requires FirstOccurrences(init, rest, idx')
    requires forall n :: n in rest <==> n in init
    ensures FirstOccurrences(names, if last in rest then rest else rest + [last], idx)
  {
    assert forall j :: 0 <= j < |init| ==> names[j] == init[j];
    if last in rest {
      idx := idx';
    } else {
      idx := idx' + [|init|];
      assert forall j :: 0 <= j < |init| ==> init[j] != last;
      var r := rest + [last];
      forall k | 0 <= k < |idx|
        ensures 0 <= idx[k] < |names| && r[k] == names[idx[k]]
                && forall j :: 0 <= j < idx[k] ==> names[j] != r[k]
      {
        if k < |idx'| { assert idx[k] == idx'[k] && r[k] == rest[k]; }
      }
    }
  }

  /** No descriptor file under the Materials directory is named `n`. */
  predicate Unmatched(n: string, files: seq<string>)
  {
    forall f :: f in files && IsPropsTxt(f) ==> FoundDescriptor(f).0 != n
  }

  /** The fallback fails exactly when some slot name has no descriptor file. */
  lemma FallbackFailsIff(slotNames: seq<string>, files: seq<string>)
    ensures MaterialDescriptors(true, [], slotNames, Some(files)).Err?
            <==> exists n :: n in slotNames && Unmatched(n, files)
  {
    var found := Collect(files, NameSet(slotNames)).0;
    var keys := Dedup(slotNames);
    if exists n :: n in slotNames && Unmatched(n, files) {
      var n :| n in slotNames && Unmatched(n, files);
      assert n in keys && n !in found;
    } else {
      forall k | k in keys ensures k in found {
        assert !Unmatched(k, files);
      }
    }
  }

  /** On success there is one descriptor per distinct slot name, in slot
      order, each built from a found file of that name. */
  lemma FallbackDescriptors(slotNames: seq<string>, files: seq<string>)
    requires MaterialDescriptors(true, [], slotNames, Some(files)).Ok?
    ensures var descs := MaterialDescriptors(true, [], slotNames, Some(files)).value.0;
            var keys := Dedup(slotNames);
            |descs| == |keys|
            && forall i :: 0 <= i < |keys| ==>
                 exists f :: f in files && IsPropsTxt(f) && FoundDescriptor(f) == (keys[i], descs[i])
  {
    var names := NameSet(slotNames);
    var found := Collect(files, names).0;
    var keys := Dedup(slotNames);
    var descs := Values(keys, found);
    forall i | 0 <= i < |keys|
      ensures exists f :: f in files && IsPropsTxt(f) && FoundDescriptor(f) == (keys[i], descs[i])
    {
      FoundHasFile(files, names, keys[i]);
    }
  }

  lemma FoundHasFile(files: seq<string>, slotNames: set<string>, n: string)
    requires n in Collect(files, slotNames).0
    ensures exists f :: f in files && IsPropsTxt(f) && FoundDescriptor(f) == (n, Collect(files, slotNames).0[n])
  {
  }
}
