/** Properties of the map import: what the classification chain promises, how
    records are skipped, and the light-skip defect of the loop as written. */
module MapProperties {
  import opened Wrappers
  import opened Strings
  import opened Json
  import opened Paths
  import opened Geometry
  import opened MapImporter

  /** Only the text before the first '.' matters for the asset path: any suffix
      after it, one dot or several, is dropped, and so is a missing suffix. */
  lemma AssetPathIgnoresSuffix(stem: string, suffix: string)
    requires '.' !in stem
    ensures AssetPath(stem + "." + suffix) == AssetPath(stem)
  {
    var p := stem + "." + suffix;
    assert p[|stem|] == '.';
    var r := SplitObjectPath(p);
    assert '.' in p;
    assert forall k :: 0 <= k < |stem| ==> p[k] == stem[k];
    assert r == p[..|stem|] == stem;
  }

  /** A record that passed the checks but is hidden (`bVisible` false) is still
      invalid: it places nothing and the resolver is never asked for it. */
  lemma {:induction false} InvisibleIsSkipped<H>(e: JValue, resolve: string -> Option<H>, toEuler: Quat -> Vec3)
    requires RecordOk(e) && MeshTypeOf(Get(e, "Type")).Some? && FirstStop(e).None?
    requires Present(PropsOf(e), "bVisible") && !Truthy(Get(PropsOf(e), "bVisible"))
    ensures Invalid(ClassifyStaticMesh(e, MeshTypeOf(Get(e, "Type")).value, toEuler))
    ensures RecordStep(e, resolve, toEuler) == Step([], [])
  {
    var m := ClassifyStaticMesh(e, MeshTypeOf(Get(e, "Type")).value, toEuler);
    assert m.flags.(noPerInstanceData := false) == AdvisoryFlags(PropsOf(e));
    assert m.flags.invisible;
  }

  /** The same holds for a component created by the user construction script. */
  lemma {:induction false} ConstructionScriptIsSkipped<H>(e: JValue, resolve: string -> Option<H>, toEuler: Quat -> Vec3)
    requires RecordOk(e) && MeshTypeOf(Get(e, "Type")).Some? && FirstStop(e).None?
    requires Get(PropsOf(e), "CreationMethod") == JStr("EComponentCreationMethod::UserConstructionScript")
    ensures Invalid(ClassifyStaticMesh(e, MeshTypeOf(Get(e, "Type")).value, toEuler))
    ensures RecordStep(e, resolve, toEuler) == Step([], [])
  {
    var m := ClassifyStaticMesh(e, MeshTypeOf(Get(e, "Type")).value, toEuler);
    assert m.flags.(noPerInstanceData := false) == AdvisoryFlags(PropsOf(e));
    assert m.flags.badCreationMethod;
  }

  /** A mesh record stopped by any of the five checks (a basic shape among
      them) never reaches the resolver and places nothing. */
  lemma {:induction false} StoppedMeshNeverResolved<H>(e: JValue, resolve: string -> Option<H>, toEuler: Quat -> Vec3)
    requires RecordOk(e) && MeshTypeOf(Get(e, "Type")).Some? && FirstStop(e).Some?
    ensures RecordStep(e, resolve, toEuler) == Step([], [])
  {
    var m := ClassifyStaticMesh(e, MeshTypeOf(Get(e, "Type")).value, toEuler);
    match FirstStop(e).value
    case NoEntity => assert m.flags.noEntity;
    case NoMesh => assert m.flags.noMesh;
    case NoPath => assert m.flags.noPath;
    case BaseShape => assert m.flags.baseShape;
    case NotRendered => assert m.flags.notRendered;
  }

  /** A record without a truthy `Type`, or with a type that is neither a mesh
      nor a light component, contributes nothing. */
  lemma UnrecognisedTypeIgnored<H>(e: JValue, resolve: string -> Option<H>, toEuler: Quat -> Vec3)
    requires RecordOk(e)
    requires !Truthy(Get(e, "Type")) || (MeshTypeOf(Get(e, "Type")).None? && LightTypeOf(Get(e, "Type")).None?)
    ensures RecordStep(e, resolve, toEuler) == Step([], [])
  {
  }

  /** A valid mesh asks the resolver exactly once, for its asset path; a miss
      places nothing, a hit places one object per instance (or one object). */
  lemma {:induction false} ValidMeshStep<H>(e: JValue, resolve: string -> Option<H>, toEuler: Quat -> Vec3)
    requires RecordOk(e) && MeshTypeOf(Get(e, "Type")).Some?
    requires !Invalid(ClassifyStaticMesh(e, MeshTypeOf(Get(e, "Type")).value, toEuler))
    ensures var m := ClassifyStaticMesh(e, MeshTypeOf(Get(e, "Type")).value, toEuler);
            var s := RecordStep(e, resolve, toEuler);
            && s.lookups == [m.assetPath]
            && (resolve(m.assetPath).None? ==> s.links == [])
            && (resolve(m.assetPath).Some? ==>
                  |s.links| == (if m.isInstanced then |m.instanceTransforms| else 1)
                  && forall i :: 0 <= i < |s.links| ==> s.links[i].target == ImportCollection)
  {
    var m := ClassifyStaticMesh(e, MeshTypeOf(Get(e, "Type")).value, toEuler);
    assert m.transform.Some?;
    MeshRecordStep(e, resolve, toEuler);
    MeshStepShape(m, resolve);
  }

  lemma MeshRecordStep<H>(e: JValue, resolve: string -> Option<H>, toEuler: Quat -> Vec3)
    requires RecordOk(e) && MeshTypeOf(Get(e, "Type")).Some?
    ensures RecordStep(e, resolve, toEuler) == MeshStep(ClassifyStaticMesh(e, MeshTypeOf(Get(e, "Type")).value, toEuler), resolve)
  {
  }

  lemma MeshStepShape<H>(m: StaticMesh, resolve: string -> Option<H>)
    requires !Invalid(m) && m.transform.Some?
    ensures var s := MeshStep(m, resolve);
            && s.lookups == [m.assetPath]
            && (resolve(m.assetPath).None? ==> s.links == [])
            && (resolve(m.assetPath).Some? ==>
                  |s.links| == (if m.isInstanced then |m.instanceTransforms| else 1)
                  && forall i :: 0 <= i < |s.links| ==> s.links[i].target == ImportCollection)
  {
  }

  /** With the `PerInstanceSMData` array absent an instanced component is
      invalid. With an empty array it is invalid only through the visibility or
      creation-method flags, and it places no object either way. */
  lemma {:induction false} PerInstanceDataPresence(e: JValue, ty: MeshType, toEuler: Quat -> Vec3)
    requires MeshRecordOk(e, ty) && ty != StaticMeshComponent && FirstStop(e).None?
    ensures var m := ClassifyStaticMesh(e, ty, toEuler);
            && (!Present(e, "PerInstanceSMData") ==> m.flags.noPerInstanceData && Invalid(m))
            && (Get(e, "PerInstanceSMData") == JArr([]) ==>
                  && !m.flags.noPerInstanceData
                  && (Invalid(m) <==> m.flags.invisible || m.flags.badCreationMethod)
                  && m.instanceTransforms == []
                  && forall h: int :: LinkObjectInstance(m, h) == [])
  {
    var m := ClassifyStaticMesh(e, ty, toEuler);
    if Get(e, "PerInstanceSMData") == JArr([]) {
      assert Present(e, "PerInstanceSMData");
      assert InstanceTransforms([], toEuler) == [];
      assert m.transform.Some?;
    }
  }

  /** An instance is placed at base @ instance: the entity's own transform
      applied after the instance's. */
  lemma CompositionOrder<H>(m: StaticMesh, data: H, i: nat)
    requires !Invalid(m) && m.isInstanced && m.transform.Some? && i < |m.instanceTransforms|
    ensures LinkObjectInstance(m, data)[i].world == Product(Matrix4x4(m.transform.value), Matrix4x4(m.instanceTransforms[i]))
  {
  }

  /** Bands 0 to 2 (965 K up to 1902 K) have no blue component. */
  lemma NoBlueInLowBands(t: real)
    requires 965.0 <= t < 1902.0
    ensures TempToColor(t).b == 0.0
  {
    assert Band(t) <= 2;
  }

  /** Between the last band start and 12000 K the band-5 polynomials apply;
      saturation starts only at 12000 K. */
  lemma TopBandBelowSaturation(t: real)
    requires 6365.0 <= t < 12000.0
    ensures TempToColor(t) == Rgb(RationalRow(TableR[5], t), RationalRow(TableG[5], t), CubicRow(TableB[5], t))
  {
  }

  /** Lights keep the engine's roll and pitch and negate only the yaw, and
      convert to radians when the object is made. */
  lemma {:induction false} LightRotation<H>(e: JValue)
    requires LightRecordOk(e) && LightTypeOf(Get(e, "Type")).Some? && Truthy(PropsOf(e))
    requires Present(PropsOf(e), "RelativeRotation")
    ensures var r := Get(PropsOf(e), "RelativeRotation");
            var objs := ImportLight<H>(ClassifyLight(e));
            && objs.Some? && |objs.value| == 2
            && objs.value[0].obj.rotation == Vec3(Radians(Num(r, "Roll")), Radians(Num(r, "Pitch")), Radians(-Num(r, "Yaw")))
  {
    assert Truthy(Get(e, "Type"));
  }

  // ---------------------------------------------------------------------------
  // The light-skip diagnostic

  /** The loop as written. The skip diagnostic for an invalid light formats
      `static_mesh.entity_name`, a variable bound only by an earlier mesh-type
      record; without one the loop raises (None here). */
  function ImportAllAsWritten<H>(records: seq<JValue>, resolve: string -> Option<H>, toEuler: Quat -> Vec3, meshSeen: bool): Option<Step<H>>
    requires AllOk(records)
  {
    if |records| == 0 then Some(Step([], []))
    else
      var e := records[0];
      var t := Get(e, "Type");
      var isMesh := Truthy(t) && MeshTypeOf(t).Some?;
      var isLight := Truthy(t) && MeshTypeOf(t).None? && LightTypeOf(t).Some?;
      if isLight && LightInvalid(ClassifyLight(e)) && !meshSeen then None
      else
        var first := RecordStep(e, resolve, toEuler);
        match ImportAllAsWritten(records[1..], resolve, toEuler, meshSeen || isMesh)
        case None => None
        case Some(rest) => Some(Step(first.links + rest.links, first.lookups + rest.lookups))
  }

  /** When the loop as written does not raise, it agrees with the model's loop. */
  lemma {:induction false} AsWrittenAgrees<H>(records: seq<JValue>, resolve: string -> Option<H>, toEuler: Quat -> Vec3, meshSeen: bool)
    requires AllOk(records)
    requires ImportAllAsWritten(records, resolve, toEuler, meshSeen).Some?
    ensures ImportAllAsWritten(records, resolve, toEuler, meshSeen).value == ImportAll(records, resolve, toEuler)
    decreases |records|
  {
    if |records| > 0 {
      var t := Get(records[0], "Type");
      AsWrittenAgrees(records[1..], resolve, toEuler, meshSeen || (Truthy(t) && MeshTypeOf(t).Some?));
    }
  }

  /** Once a mesh-type record has been seen the loop as written never raises. */
  lemma {:induction false} AsWrittenAfterMesh<H>(records: seq<JValue>, resolve: string -> Option<H>, toEuler: Quat -> Vec3)
    requires AllOk(records)
    ensures ImportAllAsWritten(records, resolve, toEuler, true) == Some(ImportAll(records, resolve, toEuler))
    decreases |records|
  {
    if |records| > 0 {
      AsWrittenAfterMesh(records[1..], resolve, toEuler);
    }
  }

  /** A point light without properties as the first record: the loop as
      written raises, the model skips the record. */
  lemma LightSkipRaises<H>(resolve: string -> Option<H>, toEuler: Quat -> Vec3)
    ensures var e := JObj(map["Type" := JStr("PointLightComponent")]);
            && AllOk([e])
            && ImportAllAsWritten([e], resolve, toEuler, false).None?
            && ImportAll([e], resolve, toEuler) == Step([], [])
  {
    var e := JObj(map["Type" := JStr("PointLightComponent")]);
    assert Get(e, "Type") == JStr("PointLightComponent");
    assert PropsOf(e) == JNull;
    assert LightRecordOk(e);
    assert RecordOk(e);
    assert [e][1..] == [];
    assert ClassifyLight(e).noEntity;
  }
}
