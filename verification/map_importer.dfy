/** Interpretation of a map export: each JSON record is classified as a static
    mesh (plain or instanced) or a light, checked for validity, converted to the
    authoring tool's coordinates, and turned into placed scene objects.

    The asset resolver (load the mesh for an asset path, or fail) and the
    quaternion-to-Euler conversion are parameters. Scene objects are values:
    `Link(target, obj)` records that `obj` was linked into `target`. */
module MapImporter {
  import opened Wrappers
  import opened Strings
  import opened Json
  import opened Paths
  import opened Geometry

  // ---------------------------------------------------------------------------
  // Object paths

  /** The text before the first '.', or the whole path when it has none.
      Export paths end in ".<name>_<n>"; a path with several dots keeps only
      its first segment. */
  function SplitObjectPath(p: string): (r: string)
    ensures '.' !in r
    ensures StartsWith(p, r)
    ensures '.' in p ==> |r| < |p| && p[|r|] == '.'
    ensures '.' !in p ==> r == p
  {
    var parts := Split(p, '.');
    if |parts| > 1 then
      SplitFirstPiece(p, '.');
      parts[0]
    else
      assert Count(p, '.') == 0;
      CountZero(p, '.');
      p
  }

  /** The asset file an object path refers to: the library path whose last
      component is the object's package name with ".uasset" appended. */
  function AssetPath(objectPath: string): (r: string)
    ensures EndsWith(r, Basename(SplitObjectPath(objectPath)) + ".uasset")
  {
    var x := SplitObjectPath(objectPath);
    assert ".uasset"[1] != '.';
    NormPathKeepsName(x, ".uasset");
    StripKeepsEnding(NormPath(x + ".uasset"), Basename(x) + ".uasset");
    LibraryPath(x + ".uasset")
  }

  // ---------------------------------------------------------------------------
  // Entity kinds

  datatype MeshType =
    | StaticMeshComponent
    | InstancedStaticMeshComponent
    | HierarchicalInstancedStaticMeshComponent

  datatype LightType = SpotLightComponent | PointLightComponent

  function MeshTypeOf(t: JValue): (r: Option<MeshType>)
    ensures r.Some? ==> t.JStr? && |t.s| > 0
  {
    if t == JStr("StaticMeshComponent") then Some(StaticMeshComponent)
    else if t == JStr("InstancedStaticMeshComponent") then Some(InstancedStaticMeshComponent)
    else if t == JStr("HierarchicalInstancedStaticMeshComponent") then Some(HierarchicalInstancedStaticMeshComponent)
    else None
  }

  function LightTypeOf(t: JValue): (r: Option<LightType>)
    ensures r.Some? ==> t.JStr? && |t.s| > 0
  {
    if t == JStr("SpotLightComponent") then Some(SpotLightComponent)
    else if t == JStr("PointLightComponent") then Some(PointLightComponent)
    else None
  }

  // ---------------------------------------------------------------------------
  // Record shapes the source reads without failing

  /** A location block: `X`, `Y` and `Z` are read without defaults. */
  predicate LocationOk(v: JValue)
  {
    HasNum(v, "X") && HasNum(v, "Y") && HasNum(v, "Z")
  }

  predicate RotatorOk(v: JValue)
  {
    HasNum(v, "Roll") && HasNum(v, "Pitch") && HasNum(v, "Yaw")
  }

  /** A scale block: each axis is read with default 1. */
  predicate ScaleOk(v: JValue)
  {
    NumOrAbsent(v, "X") && NumOrAbsent(v, "Y") && NumOrAbsent(v, "Z")
  }

  predicate QuatOk(v: JValue)
  {
    HasNum(v, "W") && HasNum(v, "X") && HasNum(v, "Y") && HasNum(v, "Z")
  }

  function LocationOf(v: JValue): Vec3
    requires LocationOk(v)
  {
    ConvertLocation(Vec3(Num(v, "X"), Num(v, "Y"), Num(v, "Z")))
  }

  function ScaleOf(v: JValue): Vec3
    requires ScaleOk(v)
  {
    Vec3(NumOr(v, "X", 1.0), NumOr(v, "Y", 1.0), NumOr(v, "Z", 1.0))
  }

  /** The relative location, rotation and scale blocks of a component. */
  predicate BlocksOk(props: JValue)
  {
    && props.JObj?
    && (Present(props, "RelativeLocation") ==> LocationOk(Get(props, "RelativeLocation")))
    && (Present(props, "RelativeRotation") ==> RotatorOk(Get(props, "RelativeRotation")))
    && (Present(props, "RelativeScale3D") ==> ScaleOk(Get(props, "RelativeScale3D")))
  }

  /** One element of `PerInstanceSMData`. */
  predicate InstanceOk(inst: JValue)
  {
    && inst.JObj?
    && (Present(inst, "TransformData") ==>
          var td := Get(inst, "TransformData");
          && td.JObj?
          && (Present(td, "Translation") ==> LocationOk(Get(td, "Translation")))
          && (Present(td, "Rotation") ==> QuatOk(Get(td, "Rotation")))
          && (Present(td, "Scale3D") ==> ScaleOk(Get(td, "Scale3D"))))
  }

  // ---------------------------------------------------------------------------
  // Static meshes

  /** The record's `Properties`, or None (JNull). */
  function PropsOf(e: JValue): JValue
    requires e.JObj?
  {
    Get(e, "Properties")
  }

  /** The five checks that stop classification at the first failure, in order. */
  datatype StopReason = NoEntity | NoMesh | NoPath | BaseShape | NotRendered

  /** The first failing check for a mesh record, if any. */
  function FirstStop(e: JValue): Option<StopReason>
    requires e.JObj?
  {
    var props := PropsOf(e);
    if !Truthy(props) then Some(NoEntity)
    else if !props.JObj? || !Truthy(Get(props, "StaticMesh")) then Some(NoMesh)
    else
      var sm := Get(props, "StaticMesh");
      if !sm.JObj? || !Truthy(Get(sm, "ObjectPath")) then Some(NoPath)
      else if !Get(sm, "ObjectPath").JStr? || Contains(Get(sm, "ObjectPath").s, "BasicShapes") then Some(BaseShape)
      else if Present(props, "bRenderInMainPass") && !Truthy(Get(props, "bRenderInMainPass")) then Some(NotRendered)
      else None
  }

  /** The object path of a record that passed the five checks. */
  function ObjectPathOf(e: JValue): string
    requires e.JObj? && FirstStop(e).None?
  {
    Get(Get(PropsOf(e), "StaticMesh"), "ObjectPath").s
  }

  /** A mesh record the source classifies without raising: dictionaries where
      `.get` is called, a string object path, and numeric transform fields in
      every block that is read. */
  predicate MeshRecordOk(e: JValue, ty: MeshType)
  {
    && e.JObj?
    && var props := PropsOf(e);
    && (Truthy(props) ==> props.JObj?)
    && (props.JObj? && Truthy(props) && Truthy(Get(props, "StaticMesh")) ==>
          var sm := Get(props, "StaticMesh");
          && sm.JObj?
          && (Truthy(Get(sm, "ObjectPath")) ==> Get(sm, "ObjectPath").JStr?))
    && (FirstStop(e).None? ==>
          if ty == StaticMeshComponent then BlocksOk(props)
          else
            Present(e, "PerInstanceSMData") ==>
              && BlocksOk(props)
              && Get(e, "PerInstanceSMData").JArr?
              && forall i :: 0 <= i < |Get(e, "PerInstanceSMData").items| ==>
                   InstanceOk(Get(e, "PerInstanceSMData").items[i]))
  }

  /** The reasons a mesh entity is refused. */
  datatype MeshFlags = MeshFlags(
    noEntity: bool,
    noMesh: bool,
    noPath: bool,
    noPerInstanceData: bool,
    baseShape: bool,
    notRendered: bool,
    invisible: bool,
    badCreationMethod: bool)

  const NoFlags := MeshFlags(false, false, false, false, false, false, false, false)

  function StopFlags(r: StopReason): MeshFlags
  {
    match r
    case NoEntity => NoFlags.(noEntity := true)
    case NoMesh => NoFlags.(noMesh := true)
    case NoPath => NoFlags.(noPath := true)
    case BaseShape => NoFlags.(baseShape := true)
    case NotRendered => NoFlags.(notRendered := true)
  }

  /** A classified mesh component. `transform` is None when classification
      stopped before the transform was computed. */
  datatype StaticMesh = StaticMesh(
    entityName: JValue,
    assetPath: string,
    transform: Option<Transform>,
    instanceTransforms: seq<Transform>,
    isInstanced: bool,
    flags: MeshFlags)

  /** The `invalid` property: any of the eight flags, the two advisory ones
      (invisible, bad creation method) included. */
  predicate Invalid(m: StaticMesh)
  {
    var f := m.flags;
    f.noPath || f.noEntity || f.baseShape || f.noMesh || f.noPerInstanceData
      || f.notRendered || f.invisible || f.badCreationMethod
  }

  /** The base transform from a component's relative location, rotation and
      scale, each block overriding the identity default. */
  function BaseTransform(props: JValue): (t: Transform)
    requires BlocksOk(props)
    ensures !Present(props, "RelativeLocation") ==> t.pos == Zero
    ensures !Present(props, "RelativeRotation") ==> t.rotEuler == Zero
    ensures !Present(props, "RelativeScale3D") ==> t.scale == One
    ensures Present(props, "RelativeLocation") ==>
              var l := Get(props, "RelativeLocation");
              t.pos.x * 100.0 == Num(l, "X") && t.pos.y * -100.0 == Num(l, "Y") && t.pos.z * 100.0 == Num(l, "Z")
    ensures Present(props, "RelativeRotation") ==>
              var r := Get(props, "RelativeRotation");
              t.rotEuler == Vec3(Radians(Num(r, "Roll")), -Radians(Num(r, "Pitch")), -Radians(Num(r, "Yaw")))
  {
    var pos := if Present(props, "RelativeLocation") then LocationOf(Get(props, "RelativeLocation")) else Zero;
    var rot :=
      if Present(props, "RelativeRotation") then
        var r := Get(props, "RelativeRotation");
        ConvertRotator(Num(r, "Roll"), Num(r, "Pitch"), Num(r, "Yaw"))
      else Zero;
    var scale := if Present(props, "RelativeScale3D") then ScaleOf(Get(props, "RelativeScale3D")) else One;
    Transform(pos, rot, scale)
  }

  /** One element of `PerInstanceSMData` as a transform; identity without
      `TransformData`. */
  function InstanceTransformOf(inst: JValue, toEuler: Quat -> Vec3): (t: Transform)
    requires InstanceOk(inst)
    ensures !Present(inst, "TransformData") ==> t == Identity
    ensures Present(inst, "TransformData") && Present(Get(inst, "TransformData"), "Rotation") ==>
              var q := Get(Get(inst, "TransformData"), "Rotation");
              var e := toEuler(Quat(Num(q, "W"), Num(q, "X"), Num(q, "Y"), Num(q, "Z")));
              t.rotEuler == Vec3(-e.x, e.y, -e.z)
  {
    if !Present(inst, "TransformData") then Identity
    else
      var td := Get(inst, "TransformData");
      var pos := if Present(td, "Translation") then LocationOf(Get(td, "Translation")) else Zero;
      var rot :=
        if Present(td, "Rotation") then
          var q := Get(td, "Rotation");
          ConvertQuat(toEuler, Quat(Num(q, "W"), Num(q, "X"), Num(q, "Y"), Num(q, "Z")))
        else Zero;
      var scale := if Present(td, "Scale3D") then ScaleOf(Get(td, "Scale3D")) else One;
      Transform(pos, rot, scale)
  }

  function InstanceTransforms(items: seq<JValue>, toEuler: Quat -> Vec3): (ts: seq<Transform>)
    requires forall i :: 0 <= i < |items| ==> InstanceOk(items[i])
    ensures |ts| == |items|
    ensures forall i :: 0 <= i < |items| ==> ts[i] == InstanceTransformOf(items[i], toEuler)
  {
    seq(|items|, i requires 0 <= i < |items| => InstanceTransformOf(items[i], toEuler))
  }

  /** The advisory flags: recorded, but they do not stop classification. */
  function AdvisoryFlags(props: JValue): (f: MeshFlags)
    requires props.JObj?
    ensures f.invisible <==> Present(props, "bVisible") && !Truthy(Get(props, "bVisible"))
    ensures f.badCreationMethod <==>
              Get(props, "CreationMethod") == JStr("EComponentCreationMethod::UserConstructionScript")
    ensures !f.noEntity && !f.noMesh && !f.noPath && !f.baseShape && !f.notRendered && !f.noPerInstanceData
  {
    var invisible := Present(props, "bVisible") && !Truthy(Get(props, "bVisible"));
    var badCreation :=
      Present(props, "CreationMethod")
      && Get(props, "CreationMethod") == JStr("EComponentCreationMethod::UserConstructionScript");
    NoFlags.(invisible := invisible, badCreationMethod := badCreation)
  }

  /** Classification of a record that passed the five checks: the asset path,
      the advisory flags, and the transforms for the component type. */
  function ClassifyPassed(e: JValue, ty: MeshType, toEuler: Quat -> Vec3, name: JValue): (m: StaticMesh)
    requires MeshRecordOk(e, ty) && FirstStop(e).None?
    ensures m.entityName == name
    ensures m.assetPath == AssetPath(ObjectPathOf(e))
    ensures m.flags.(noPerInstanceData := false) == AdvisoryFlags(PropsOf(e))
    ensures m.isInstanced <==> ty != StaticMeshComponent
    ensures m.flags.noPerInstanceData <==> ty != StaticMeshComponent && !Present(e, "PerInstanceSMData")
    ensures m.transform.Some? <==> !m.flags.noPerInstanceData
    ensures m.transform.Some? ==> m.transform.value == BaseTransform(PropsOf(e))
    ensures ty == StaticMeshComponent || !Present(e, "PerInstanceSMData") ==> m.instanceTransforms == []
    ensures ty != StaticMeshComponent && Present(e, "PerInstanceSMData") ==>
              m.instanceTransforms == InstanceTransforms(Get(e, "PerInstanceSMData").items, toEuler)
  {
    var props := PropsOf(e);
    var flags := AdvisoryFlags(props);
    var path := AssetPath(ObjectPathOf(e));
    if ty == StaticMeshComponent then
      StaticMesh(name, path, Some(BaseTransform(props)), [], false, flags)
    else if !Present(e, "PerInstanceSMData") then
      StaticMesh(name, path, None, [], true, flags.(noPerInstanceData := true))
    else
      var items := Get(e, "PerInstanceSMData").items;
      StaticMesh(name, path, Some(BaseTransform(props)), InstanceTransforms(items, toEuler), true, flags)
  }

  /** `StaticMesh.__init__`: classify one mesh record of the given type. The
      checks run in order and the first failure stops classification with that
      one flag set and no asset path. */
  function ClassifyStaticMesh(e: JValue, ty: MeshType, toEuler: Quat -> Vec3): (m: StaticMesh)
    requires MeshRecordOk(e, ty)
    ensures m.entityName == (if "Outer" in e.fields then e.fields["Outer"] else JStr("Error"))
    ensures FirstStop(e).Some? ==>
              m.flags == StopFlags(FirstStop(e).value) && m.assetPath == ""
              && m.transform.None? && m.instanceTransforms == [] && !m.isInstanced
    ensures FirstStop(e).None? ==> m == ClassifyPassed(e, ty, toEuler, m.entityName)
  {
    var name := if "Outer" in e.fields then e.fields["Outer"] else JStr("Error");
    match FirstStop(e)
    case Some(r) => StaticMesh(name, "", None, [], false, StopFlags(r))
    case None => ClassifyPassed(e, ty, toEuler, name)
  }

  // ---------------------------------------------------------------------------
  // Scene objects

  /** What the importer creates. A mesh object shares the resolved mesh `data`
      and has a world matrix; a light object carries its own settings, with the
      rotation already in radians. */
  datatype SceneObject<H> =
    | MeshObject(data: H, world: Matrix)
    | LightObject(name: JValue, kind: LightType, location: Vec3, rotation: Vec3, scale: Vec3, color: Vec3)

  /** The import's own collection, or the scene's root collection. */
  datatype Target = ImportCollection | SceneRoot

  datatype Link<H> = Link(target: Target, obj: SceneObject<H>)

  /** `link_object_instance`: the objects placed for a mesh entity whose mesh
      resolved to `data`, all linked into the import collection. */
  function LinkObjectInstance<H>(m: StaticMesh, data: H): (objs: seq<SceneObject<H>>)
    requires !Invalid(m) ==> m.transform.Some?
    ensures Invalid(m) ==> objs == []
    ensures !Invalid(m) && !m.isInstanced ==>
              objs == [MeshObject(data, Matrix4x4(m.transform.value))]
    ensures !Invalid(m) && m.isInstanced ==>
              && |objs| == |m.instanceTransforms|
              && forall i :: 0 <= i < |objs| ==>
                   objs[i] == MeshObject(data, Product(Matrix4x4(m.transform.value), Matrix4x4(m.instanceTransforms[i])))
  {
    if Invalid(m) then []
    else if m.isInstanced then
      var base := m.transform.value;
      seq(|m.instanceTransforms|, i requires 0 <= i < |m.instanceTransforms| =>
        MeshObject(data, Product(Matrix4x4(base), Matrix4x4(m.instanceTransforms[i]))))
    else
      [MeshObject(data, Matrix4x4(m.transform.value))]
  }

  // ---------------------------------------------------------------------------
  // Light colour

  datatype Rgb = Rgb(r: real, g: real, b: real)

  /** Colour above the table's range. */
  const HotColor := Rgb(0.826270103, 0.994478524, 1.56626022)
  /** Colour below the table's range. */
  const ColdColor := Rgb(4.70366907, 0.0, 0.0)

  /** Lower bounds of bands 1..5; band 0 starts at 965 K. */
  const BandStarts: seq<real> := [1167.0, 1449.0, 1902.0, 3315.0, 6365.0]

  const TableR: seq<seq<real>> := [
      [2524.32244, -0.00106185848, 3.11067539],
      [3377.63626, -0.000434581697, 1.64843306],
      [4106.71449, -0.0000861949938, 0.641423749],
      [4668.498, 0.0000285655028, 0.129075375],
      [4601.2477, 0.0000289727618, 0.148001316],
      [3787.65709, 0.00000936026367, 0.398995841]]

  const TableG: seq<seq<real>> := [
      [-750.343014, 0.000315679613, 0.473464526],
      [-1004.02363, 0.000129189794, 0.908181524],
      [-1220.75471, 0.0000256245413, 1.20753416],
      [-1425.46105, -0.0000401730887, 1.44002695],
      [-1181.34453, -0.0000218913373, 1.30656109],
      [-500.279505, -0.0000045974539, 1.09090465]]

  const TableB: seq<seq<real>> := [
      [0.0, 0.0, 0.0, 0.0],
      [0.0, 0.0, 0.0, 0.0],
      [0.0, 0.0, 0.0, 0.0],
      [-0.0000000000202524603, 0.00000017943586, -0.000260561875, -0.0141761141],
      [-0.000000000000222463426, -0.0000000155078698, 0.00038167516, -0.730646033],
      [0.000000000000672595954, -0.0000000273059993, 0.000424068546, -0.752204323]]

  /** The band a temperature falls in: the number of band starts at or below it. */
  function Band(t: real): (i: nat)
    ensures i <= 5
    ensures forall k :: 0 <= k < 5 ==> (k < i <==> BandStarts[k] <= t)
  {
    if t >= 6365.0 then 5
    else if t >= 3315.0 then 4
    else if t >= 1902.0 then 3
    else if t >= 1449.0 then 2
    else if t >= 1167.0 then 1
    else 0
  }

  /** R and G: c0/T + c1*T + c2. */
  function RationalRow(c: seq<real>, t: real): real
    requires |c| == 3 && t != 0.0
  {
    c[0] * (1.0 / t) + c[1] * t + c[2]
  }

  /** B: ((b0*T + b1)*T + b2)*T + b3. */
  function CubicRow(c: seq<real>, t: real): real
    requires |c| == 4
  {
    ((c[0] * t + c[1]) * t + c[2]) * t + c[3]
  }

  /** `temp_to_color`: Kelvin to lamp colour. */
  function TempToColor(t: real): (c: Rgb)
    ensures t >= 12000.0 ==> c == HotColor
    ensures t < 965.0 ==> c == ColdColor
    ensures 965.0 <= t < 12000.0 ==>
              c == Rgb(RationalRow(TableR[Band(t)], t), RationalRow(TableG[Band(t)], t), CubicRow(TableB[Band(t)], t))
  {
    if t >= 12000.0 then HotColor
    else if t < 965.0 then ColdColor
    else
      var i := Band(t);
      Rgb(RationalRow(TableR[i], t), RationalRow(TableG[i], t), CubicRow(TableB[i], t))
  }

  // ---------------------------------------------------------------------------
  // Lights

  /** A classified light. `typ` is the record's `Type`; `rot` stays in degrees. */
  datatype GameLight = GameLight(
    entityName: JValue,
    typ: JValue,
    pos: Vec3,
    rot: Vec3,
    scale: Vec3,
    color: Rgb,
    noEntity: bool)

  const White := Rgb(1.0, 1.0, 1.0)

  /** A light record the source reads without raising. Location and scale
      are read only when truthy, rotation and temperature when not None. */
  predicate LightRecordOk(e: JValue)
  {
    && e.JObj?
    && var props := PropsOf(e);
    && (Truthy(Get(e, "Type")) && Truthy(props) ==>
          && props.JObj?
          && (Truthy(Get(props, "RelativeLocation")) ==> LocationOk(Get(props, "RelativeLocation")))
          && (Present(props, "RelativeRotation") ==> RotatorOk(Get(props, "RelativeRotation")))
          && (Truthy(Get(props, "RelativeScale3D")) ==> ScaleOk(Get(props, "RelativeScale3D")))
          && (Present(props, "Temperature") ==> HasNum(props, "Temperature")))
  }

  /** `GameLight.__init__`. */
  function ClassifyLight(e: JValue): (l: GameLight)
    requires LightRecordOk(e)
    ensures l.noEntity <==> !Truthy(Get(e, "Type")) || !Truthy(PropsOf(e))
    ensures l.typ == Get(e, "Type")
    ensures l.noEntity ==> l.pos == Zero && l.rot == Zero && l.scale == One && l.color == White
    ensures !l.noEntity ==>
              var props := PropsOf(e);
              && (Truthy(Get(props, "RelativeLocation")) ==> l.pos == LocationOf(Get(props, "RelativeLocation")))
              && (!Truthy(Get(props, "RelativeLocation")) ==> l.pos == Zero)
              && (Present(props, "RelativeRotation") ==>
                    var r := Get(props, "RelativeRotation");
                    l.rot == Vec3(Num(r, "Roll"), Num(r, "Pitch"), -Num(r, "Yaw")))
              && (!Present(props, "RelativeRotation") ==> l.rot == Zero)
              && (Present(props, "Temperature") ==> l.color == TempToColor(Num(props, "Temperature")))
              && (!Present(props, "Temperature") ==> l.color == White)
  {
    var name := if "Outer" in e.fields then e.fields["Outer"] else JStr("Error");
    var typ := Get(e, "Type");
    var props := PropsOf(e);
    if !Truthy(typ) || !Truthy(props) then GameLight(name, typ, Zero, Zero, One, White, true)
    else
      var pos := if Truthy(Get(props, "RelativeLocation")) then LocationOf(Get(props, "RelativeLocation")) else Zero;
      var rot :=
        if Present(props, "RelativeRotation") then
          var r := Get(props, "RelativeRotation");
          Vec3(Num(r, "Roll"), Num(r, "Pitch"), Num(r, "Yaw") * -1.0)
        else Zero;
      var scale := if Truthy(Get(props, "RelativeScale3D")) then ScaleOf(Get(props, "RelativeScale3D")) else One;
      var color := if Present(props, "Temperature") then TempToColor(Num(props, "Temperature")) else White;
      GameLight(name, typ, pos, rot, scale, color, false)
  }

  /** `GameLight.invalid`. */
  predicate LightInvalid(l: GameLight)
  {
    l.noEntity
  }

  /** `import_light`: None (the call returns False) for an entity without
      type or properties; otherwise the one light object, linked into the
      import collection and into the scene's root collection. */
  function ImportLight<H>(l: GameLight): (r: Option<seq<Link<H>>>)
    requires !l.noEntity ==> LightTypeOf(l.typ).Some?
    ensures r.None? <==> l.noEntity
    ensures r.Some? ==>
              var o := LightObject(l.entityName, LightTypeOf(l.typ).value, l.pos,
                                   Vec3(Radians(l.rot.x), Radians(l.rot.y), Radians(l.rot.z)), l.scale,
                                   Vec3(l.color.r, l.color.g, l.color.b));
              r.value == [Link(ImportCollection, o), Link(SceneRoot, o)]
  {
    if l.noEntity then None
    else
      var o := LightObject(l.entityName, LightTypeOf(l.typ).value, l.pos,
                           Vec3(Radians(l.rot.x), Radians(l.rot.y), Radians(l.rot.z)), l.scale,
                           Vec3(l.color.r, l.color.g, l.color.b));
      Some([Link(ImportCollection, o), Link(SceneRoot, o)])
  }

  // ---------------------------------------------------------------------------
  // The import loop

  /** A record of the exported array, in a shape the loop processes without raising. */
  predicate RecordOk(e: JValue)
  {
    && e.JObj?
    && (MeshTypeOf(Get(e, "Type")).Some? ==> MeshRecordOk(e, MeshTypeOf(Get(e, "Type")).value))
    && (LightTypeOf(Get(e, "Type")).Some? ==> LightRecordOk(e))
  }

  /** Every record of the array is in a shape the loop processes. */
  predicate AllOk(records: seq<JValue>)
  {
    |records| == 0 || (RecordOk(records[0]) && AllOk(records[1..]))
  }

  /** What one record contributes: the links made and the asset paths the
      resolver was asked for. */
  datatype Step<H> = Step(links: seq<Link<H>>, lookups: seq<string>)

  function MeshLinks<H>(objs: seq<SceneObject<H>>): (ls: seq<Link<H>>)
    ensures |ls| == |objs|
    ensures forall i :: 0 <= i < |objs| ==> ls[i] == Link(ImportCollection, objs[i])
  {
    seq(|objs|, i requires 0 <= i < |objs| => Link(ImportCollection, objs[i]))
  }

  /** The contribution of a mesh record, given its classification: nothing
      when invalid, otherwise one lookup and the objects placed on a hit. */
  function MeshStep<H>(m: StaticMesh, resolve: string -> Option<H>): Step<H>
    requires !Invalid(m) ==> m.transform.Some?
  {
    if Invalid(m) then Step([], [])
    else
      match resolve(m.assetPath)
      case None => Step([], [m.assetPath])
      case Some(h) => Step(MeshLinks(LinkObjectInstance(m, h)), [m.assetPath])
  }

  /** One iteration of the loop in `_import_map`. */
  function RecordStep<H>(e: JValue, resolve: string -> Option<H>, toEuler: Quat -> Vec3): (r: Step<H>)
    requires RecordOk(e)
    ensures |r.lookups| <= 1
    ensures r.lookups != [] ==>
              Truthy(Get(e, "Type")) && MeshTypeOf(Get(e, "Type")).Some? && FirstStop(e).None?
              && r.lookups == [AssetPath(ObjectPathOf(e))]
    ensures !Truthy(Get(e, "Type")) ==> r == Step([], [])
  {
    var t := Get(e, "Type");
    if !Truthy(t) then Step([], [])
    else if MeshTypeOf(t).Some? then MeshStep(ClassifyStaticMesh(e, MeshTypeOf(t).value, toEuler), resolve)
    else if LightTypeOf(t).Some? then
      var l := ClassifyLight(e);
      if LightInvalid(l) then Step([], [])
      else Step(ImportLight(l).value, [])
    else Step([], [])
  }

  /** The whole loop as a fold: every record's contribution, in order. */
  function ImportAll<H>(records: seq<JValue>, resolve: string -> Option<H>, toEuler: Quat -> Vec3): (r: Step<H>)
    requires AllOk(records)
    ensures |r.lookups| <= |records|
  {
    if |records| == 0 then Step([], [])
    else
      var first := RecordStep(records[0], resolve, toEuler);
      var rest := ImportAll(records[1..], resolve, toEuler);
      Step(first.links + rest.links, first.lookups + rest.lookups)
  }

  /** The map file as the import finds it. */
  datatype MapFile = Missing | Unparsable | Parsed(records: seq<JValue>)

  datatype ImportOutcome<H> =
    | Returned(ok: bool, links: seq<Link<H>>, lookups: seq<string>)
    | DecodeError

  /** `_import_map`: False when the map file does not exist; a decoding error
      propagates; otherwise every record is processed in order and the result
      is True whatever individual records did. */
  method ImportMap<H>(file: MapFile, resolve: string -> Option<H>, toEuler: Quat -> Vec3)
    returns (out: ImportOutcome<H>)
    requires file.Parsed? ==> AllOk(file.records)
    ensures file.Missing? ==> out == Returned(false, [], [])
    ensures file.Unparsable? ==> out == DecodeError
    ensures file.Parsed? ==>
              var all := ImportAll(file.records, resolve, toEuler);
              out == Returned(true, all.links, all.lookups)
  {
    match file
    case Missing => return Returned(false, [], []);
    case Unparsable => return DecodeError;
    case Parsed(records) =>
      var links: seq<Link<H>> := [];
      var lookups: seq<string> := [];
      var i := 0;
      while i < |records|
        invariant 0 <= i <= |records|
        invariant AllOk(records[..i])
        invariant links == ImportAll(records[..i], resolve, toEuler).links
        invariant lookups == ImportAll(records[..i], resolve, toEuler).lookups
      {
        ImportPrefixStep(records, i, resolve, toEuler);
        var s := RecordStep(records[i], resolve, toEuler);
        links := links + s.links;
        lookups := lookups + s.lookups;
        i := i + 1;
      }
      assert records[..|records|] == records;
      return Returned(true, links, lookups);
  }

  /** The fold over a concatenation is the concatenation of the folds: no
      record's outcome depends on another's. */
  lemma {:induction false} ImportAllAppend<H>(a: seq<JValue>, b: seq<JValue>, resolve: string -> Option<H>, toEuler: Quat -> Vec3)
    requires AllOk(a) && AllOk(b)
    ensures AllOk(a + b)
    ensures ImportAll(a + b, resolve, toEuler).links == ImportAll(a, resolve, toEuler).links + ImportAll(b, resolve, toEuler).links
    ensures ImportAll(a + b, resolve, toEuler).lookups == ImportAll(a, resolve, toEuler).lookups + ImportAll(b, resolve, toEuler).lookups
    decreases |a|
  {
    if |a| == 0 {
      assert a + b == b;
    } else {
      var ab := a + b;
      assert ab[0] == a[0] && ab[1..] == a[1..] + b;
      ImportAllAppend(a[1..], b, resolve, toEuler);
      var x := RecordStep(a[0], resolve, toEuler);
      var ra := ImportAll(a[1..], resolve, toEuler);
      var rb := ImportAll(b, resolve, toEuler);
      ImportAllCons(ab, resolve, toEuler);
      ImportAllCons(a, resolve, toEuler);
      ConcatAssoc(x.links, ra.links, rb.links);
      ConcatAssoc(x.lookups, ra.lookups, rb.lookups);
    }
  }

  lemma ImportAllCons<H>(records: seq<JValue>, resolve: string -> Option<H>, toEuler: Quat -> Vec3)
    requires |records| > 0 && AllOk(records)
    ensures RecordOk(records[0]) && AllOk(records[1..])
    ensures var x := RecordStep(records[0], resolve, toEuler);
            var rest := ImportAll(records[1..], resolve, toEuler);
            ImportAll(records, resolve, toEuler) == Step(x.links + rest.links, x.lookups + rest.lookups)
  {
  }

  lemma {:induction false} AllOkPrefix(records: seq<JValue>, i: nat)
    requires AllOk(records) && i < |records|
    ensures AllOk(records[..i]) && RecordOk(records[i])
    decreases i
  {
    if i > 0 {
      AllOkPrefix(records[1..], i - 1);
      assert records[1..][..i - 1] == records[..i][1..];
      assert records[1..][i - 1] == records[i];
    } else {
      assert records[..0] == [];
    }
  }

  /** One more record processed extends the prefix's links and lookups by
      that record's. */
  lemma ImportPrefixStep<H>(records: seq<JValue>, i: nat, resolve: string -> Option<H>, toEuler: Quat -> Vec3)
    requires AllOk(records) && i < |records|
    ensures AllOk(records[..i]) && AllOk(records[..i + 1]) && RecordOk(records[i])
    ensures ImportAll(records[..i + 1], resolve, toEuler).links
            == ImportAll(records[..i], resolve, toEuler).links + RecordStep(records[i], resolve, toEuler).links
    ensures ImportAll(records[..i + 1], resolve, toEuler).lookups
            == ImportAll(records[..i], resolve, toEuler).lookups + RecordStep(records[i], resolve, toEuler).lookups
  {
    AllOkPrefix(records, i);
    ImportAllSnoc(records[..i], records[i], resolve, toEuler);
    TakeOneMore(records, i);
  }

  lemma TakeOneMore<T>(s: seq<T>, i: nat)
    requires i < |s|
    ensures s[..i + 1] == s[..i] + [s[i]]
  {
  }

  lemma ImportAllSnoc<H>(a: seq<JValue>, e: JValue, resolve: string -> Option<H>, toEuler: Quat -> Vec3)
    requires AllOk(a) && RecordOk(e)
    ensures AllOk(a + [e])
    ensures ImportAll(a + [e], resolve, toEuler).links == ImportAll(a, resolve, toEuler).links + RecordStep(e, resolve, toEuler).links
    ensures ImportAll(a + [e], resolve, toEuler).lookups == ImportAll(a, resolve, toEuler).lookups + RecordStep(e, resolve, toEuler).lookups
  {
    ImportAllSingle(e, resolve, toEuler);
    ImportAllAppend(a, [e], resolve, toEuler);
  }

  lemma ImportAllSingle<H>(e: JValue, resolve: string -> Option<H>, toEuler: Quat -> Vec3)
    requires RecordOk(e)
    ensures AllOk([e])
    ensures ImportAll([e], resolve, toEuler).links == RecordStep(e, resolve, toEuler).links
    ensures ImportAll([e], resolve, toEuler).lookups == RecordStep(e, resolve, toEuler).lookups
  {
    assert [e][1..] == [];
    var x := RecordStep(e, resolve, toEuler);
    assert x.links + [] == x.links && x.lookups + [] == x.lookups;
  }
}
