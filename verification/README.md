# umodel_tools in Dafny

A model of the Blender add-on umodel_tools. The add-on imports Unreal Engine maps exported by FModel (a JSON array of placed components). It also imports the meshes, materials and textures those maps reference, which UModel exports, into a Blender asset library.

The model covers the decisions the add-on takes around its Blender and file-system calls:

- **Map import** (`MapImporter`, `MapProperties`). Each record of the map is classified as a static mesh, an instanced static mesh or a light, and checked by the chain of validity flags. Engine coordinates are converted to Blender's: centimetres become metres, the Y axis is flipped, rotators become radians, and quaternions become Euler angles with X and Z negated. Instances are placed at `base @ instance`. A colour temperature becomes an RGB colour through the six-band table. The import loop is written both as a fold and as the loop method `ImportMap`.
- **Asset catalog database** (`AssetDb`, `AssetDbProperties`). The text file `blender_assets.cats.txt` is parsed line by line into an insertion-ordered map from uid to paths. It can be saved again and looked up or extended by `uid_for_entry`.
- **Asset importer fragments** (`AssetImporter`, `AssetImporterProperties`). These cover:
  - operator status codes;
  - material settings from the descriptor's base property overrides;
  - the texture loop's filter;
  - texture and descriptor paths;
  - how imported materials take over the mesh's slots;
  - the Materials-directory fallback for animated meshes.
- **Game profiles** (`GenericProfile`, `HogwartsProfile` and their properties).
  - The generic profile guesses a texture's purpose from its name suffix. It wires each map kind at most once per material.
  - The Hogwarts Legacy profile looks texture parameter names up in a fixed table.
  - Both keep per-material state between `process_material` and `end_process_material`.
- **Profile calls** (`ProfileCalls`). The importer calls the profile's callbacks partly by keyword. These calls are bound to each profile's parameter names as Python binds them, and the model records which call of a new material's sequence raises TypeError first.
- **Preferences** (`Preferences`, `PreferencesProperties`). These are the profile list and its Up/Down/Remove/Add actions.
- **Helpers** (`Utils`, `UtilsProperties`). These are mesh and path comparison, the dictionary-backed context wrapper, and the linked-library search.
- **Python library semantics** (`Strings`, `Paths`, `Geometry`, `Json`). These model the parts of `str.split`, `str.lower`, `posixpath.splitext`, `posixpath.normpath`, `math.radians` and JSON values the add-on relies on.

Blender objects and data-blocks appear in two forms:

- Type parameters, for materials, shader nodes and data-blocks.
- Values. For example, `Link(target, obj)` records that `obj` was linked into `target`.

The asset resolver, the quaternion-to-Euler conversion, `os.path.realpath`, the file system's case rule, file existence and fresh uids are all parameters.

Behaviour of the code worth noting:

- The `invalid` property of a static mesh includes the `invisible` and `bad_creation_method` flags. Such meshes are skipped, not imported with an advisory.
- A light's yaw is negated. Its roll and pitch are kept.
- A light is linked into the import collection and also into the scene's root collection.
- `_import_map` returns False only when the map file does not exist. A JSON decoding error propagates.
- Records whose fields have the wrong JSON type make the code raise rather than fall back to defaults. The model states the record shapes the code accepts as preconditions (`RecordOk`).

## Model

| member | source | states |
|---|---|---|
| MapImporter.SplitObjectPath | umodel_tools/map_importer.py:15-26 | the result holds no '.', is a prefix of the object path and stops exactly at its first '.'; a path without '.' is returned whole |
| MapProperties.AssetPathIgnoresSuffix | umodel_tools/map_importer.py:104-107 | the asset path of `stem.suffix` equals that of `stem`, for any suffix, however many dots it has |
| MapImporter.AssetPath | umodel_tools/map_importer.py:104-107 | the asset path ends with the base name of the object path's first dot-segment followed by ".uasset": normalisation never loses the file name |
| MapImporter.ClassifyStaticMesh | umodel_tools/map_importer.py:72-95 | the entity name is `Outer` or "Error"; the first failing check of the five sets exactly its own flag and leaves no asset path, transform or instances; a record passing all five is classified in full |
| MapImporter.ClassifyPassed | umodel_tools/map_importer.py:97-163 | asset path built from the object path; advisory flags from `bVisible` and `CreationMethod`; instanced exactly for the two instanced types; `no_per_instance_data` exactly when an instanced record lacks `PerInstanceSMData`; a base transform exactly when that flag is clear; one instance transform per array element |
| MapImporter.BaseTransform | umodel_tools/map_importer.py:111-124 | absent blocks keep the identity parts; the location is centimetres to metres with Y negated; the rotation is radians with pitch and yaw negated |
| MapImporter.InstanceTransformOf | umodel_tools/map_importer.py:148-163 | an element without `TransformData` is the identity; a quaternion rotation becomes the library's Euler triple with X and Z negated |
| MapImporter.InstanceTransforms | umodel_tools/map_importer.py:148-163 | one transform per element of `PerInstanceSMData`, in array order |
| MapImporter.AdvisoryFlags | umodel_tools/map_importer.py:97-102 | invisible exactly when `bVisible` is present and falsy; bad creation method exactly for the user-construction-script value; no other flag |
| MapImporter.LinkObjectInstance | umodel_tools/map_importer.py:170-198 | an invalid mesh places nothing; a plain mesh places one object at its transform; an instanced mesh places one object per instance, at base @ instance, sharing the resolved mesh |
| MapProperties.CompositionOrder | umodel_tools/map_importer.py:180-182 | an instance is placed at base @ instance: the entity's own transform applied after the instance's |
| MapProperties.PerInstanceDataPresence | umodel_tools/map_importer.py:126-131 | an absent per-instance array makes the mesh invalid; an empty one does not set `no_per_instance_data`, so the mesh is invalid only if hidden or made by a construction script, and it places no object |
| MapProperties.InvisibleIsSkipped | umodel_tools/map_importer.py:97-98 | a hidden mesh is invalid and contributes no link and no resolver lookup |
| MapProperties.ConstructionScriptIsSkipped | umodel_tools/map_importer.py:100-102 | a mesh made by the user construction script is invalid and contributes nothing |
| MapProperties.StoppedMeshNeverResolved | umodel_tools/map_importer.py:399-402 | a mesh stopped by any of the five checks, a basic shape among them, never reaches the resolver |
| MapProperties.UnrecognisedTypeIgnored | umodel_tools/map_importer.py:390-420 | a record with a falsy `Type`, or a type that is neither a mesh nor a light component, contributes nothing |
| MapProperties.ValidMeshStep | umodel_tools/map_importer.py:404-417 | a valid mesh asks the resolver exactly once, for its asset path; a miss places nothing; a hit places one object per instance (or one), all into the import collection |
| MapImporter.RecordStep | umodel_tools/map_importer.py:390-426 | one record asks the resolver at most once, and only a truthy mesh type passing the five checks does, for the asset path of its object path; a falsy type contributes nothing |
| MapImporter.ImportAll | umodel_tools/map_importer.py:385-428 | the loop asks the resolver at most once per record |
| Geometry.ConvertLocation | umodel_tools/map_importer.py:114 | each metre coordinate times 100 (times -100 for Y) gives back the engine coordinate |
| MapImporter.Band | umodel_tools/map_importer.py:257-269 | the band index counts the band starts at or below the temperature |
| MapImporter.TempToColor | umodel_tools/map_importer.py:246-278 | at or above 12000 K the hot colour; below 965 K the cold colour; otherwise the band's rational R and G rows and cubic B row |
| MapProperties.NoBlueInLowBands | umodel_tools/map_importer.py:236-239 | from 965 K up to 1902 K the blue component is zero |
| MapProperties.TopBandBelowSaturation | umodel_tools/map_importer.py:252-259 | from 6365 K up to 12000 K the band-5 rows apply |
| MapImporter.ClassifyLight | umodel_tools/map_importer.py:284-317 | no entity exactly when `Type` or `Properties` is falsy; location only from a truthy block; rotation kept in degrees with only the yaw negated; colour from the temperature when present, white otherwise |
| MapProperties.LightRotation | umodel_tools/map_importer.py:302-305 | the light object's rotation is radians of (roll, pitch, -yaw) |
| MapImporter.ImportLight | umodel_tools/map_importer.py:319-342 | nothing exactly when the light has no entity; otherwise the one light object, linked into the import collection and into the scene's root collection |
| MapImporter.ImportMap | umodel_tools/map_importer.py:354-433 | a missing file gives False and nothing; an unparsable one raises; otherwise True, with every record's links and resolver lookups in record order |
| MapImporter.ImportAllAppend | umodel_tools/map_importer.py:385-428 | importing a concatenation gives the concatenated links and lookups: no record's outcome depends on another's |
| MapProperties.AsWrittenAgrees | umodel_tools/map_importer.py:385-428 | whenever the loop as written does not raise, it yields what the model's loop yields |
| MapProperties.AsWrittenAfterMesh | umodel_tools/map_importer.py:396-426 | once a mesh-type record has been seen, the loop as written never raises |
| MapProperties.LightSkipRaises | umodel_tools/map_importer.py:420-426 | a point light without properties as the first record makes the loop as written raise, while the model skips it |
| AssetDb.Put | umodel_tools/asset_db.py:47 | uids stay distinct; the uid set gains the entry's uid; a new uid is appended, a known one overwritten where it stands |
| AssetDb.ParseLine | umodel_tools/asset_db.py:41-51 | skipped exactly for empty, comment and bare-newline lines; a catalog line exactly when the line has two ':' (checked before the version prefix, so "VERSION a:b:c" is a catalog), its three fields joining back with ':' to the line; a version line has another number of ':' and is "VERSION " and its text; an error exactly when none of these applies |
| AssetDb.ParseLines | umodel_tools/asset_db.py:39-51 | a successful read keeps the uids distinct |
| AssetDb.OpenDb | umodel_tools/asset_db.py:25-51 | without a file: an empty database at version 1, and a new file holding "VERSION 1"; with a file, nothing is written |
| AssetDb.IndexOfPath | umodel_tools/asset_db.py:62-64 | the first catalog whose full path is the directory, or none has it |
| AssetDb.UidForEntry | umodel_tools/asset_db.py:53-72 | backslashes read as slashes; a known directory returns its uid and leaves the database alone; an unknown one adds the new uid with the dashed simple path |
| AssetDbProperties.UidForEntrySeparators | umodel_tools/asset_db.py:59 | a directory and its slash-normalised form get the same answer |
| AssetDbProperties.UidForEntryIdempotent | umodel_tools/asset_db.py:59-72 | asking again for the same directory returns the same uid and changes nothing |
| AssetDbProperties.UidForEntryAppends | umodel_tools/asset_db.py:66-72 | an unknown directory with an unused uid appends exactly one catalog at the end |
| AssetDbProperties.LinesConcat | umodel_tools/asset_db.py:40 | the lines `readlines` yields concatenate back to the text |
| AssetDbProperties.LinesAppend | umodel_tools/asset_db.py:40 | the lines of a newline-terminated text followed by more text are the lines of each part |
| AssetDbProperties.ParseLinesAppend | umodel_tools/asset_db.py:40-51 | parsing two blocks of lines is parsing the first, then the second from its result |
| AssetDbProperties.VersionLineParses | umodel_tools/asset_db.py:48-49 | "VERSION t" is a version line with text t when t has no ':' or ' ' |
| AssetDbProperties.EntryLineParses | umodel_tools/asset_db.py:45-47 | a saved catalog line parses back as that catalog, its last field with the line's newline |
| AssetDbProperties.EntriesReadBackFresh | umodel_tools/asset_db.py:83-84 | the saved catalog lines read into an empty catalog list give the catalogs back, in order, each with its newline made explicit |
| AssetDbProperties.SaveOpenRoundTrip | umodel_tools/asset_db.py:74-84 | opening the text a clean database is saved as gives the database back, with each line-ending value's newline made explicit |
| AssetDbProperties.SaveOpenStable | umodel_tools/asset_db.py:74-84 | after one save and open, saving and opening gives the same database again |
| AssetDbProperties.NormalisedClean | umodel_tools/asset_db.py:81-84 | the database after a save and open is still clean |
| AssetDbProperties.NormalisedIdempotent | umodel_tools/asset_db.py:81-84 | making the newlines explicit twice is making them explicit once |
| AssetDbProperties.BareVersionReadsBack | umodel_tools/asset_db.py:48-49 | a version line without a newline reads back with its text as written |
| AssetDbProperties.CreatedFileReadsBack | umodel_tools/asset_db.py:32-35 | the file created where none existed reads back as an empty database at version "1" |
| AssetDbProperties.BadLineFailsOpen | umodel_tools/asset_db.py:50-51 | a first line that is neither a comment, a catalog nor a version line makes opening raise NotImplementedError |
| AssetDb.SaveDb | umodel_tools/asset_db.py:74-84 | the text written is the version line followed by one "uid:full:simple" line per catalog, in catalog order |
| AssetImporter.OpMessage | umodel_tools/asset_importer.py:49-66 | INFO and WARNING finish, ERROR cancels, any other type raises |
| AssetImporter.Settings | umodel_tools/asset_importer.py:183-214 | nothing is set outside PBR mode; backface culling is set exactly when the option is on and there are no overrides (culling on) or a TwoSided value (culling off for two-sided); the alpha threshold is the override's; blend settings come only from a BlendMode override |
| AssetImporterProperties.KnownBlendModes | umodel_tools/asset_importer.py:189-202 | the five known blend modes give their blend methods and special modes |
| AssetImporterProperties.UnknownBlendModeWarns | umodel_tools/asset_importer.py:203-205 | any other blend mode only warns and leaves blending alone |
| AssetImporterProperties.TwoSidedNeverCulled | umodel_tools/asset_importer.py:207-208 | a two-sided material never gets backface culling turned on |
| AssetImporter.ApplyBlendMode | umodel_tools/asset_importer.py:189-205 | culling and the alpha threshold are never touched; the unknown-mode warning is raised exactly for a mode outside the five known ones, which changes no blending; only Additive and Modulate set a special mode |
| AssetImporterProperties.BlendModeIdempotent | umodel_tools/asset_importer.py:189-205 | applying a blend mode twice is applying it once |
| AssetImporter.TexturePath | umodel_tools/asset_importer.py:259-267 | the descriptor path splits into stem and extension; the texture path is the library path of the stem followed by the texture format |
| AssetImporterProperties.TexturePathDropsExtension | umodel_tools/asset_importer.py:259-267 | for `q.n` with a dot-free, separator-free `n` and a last component of `q` that has a stem, the texture path is the library path of `q` followed by the texture format |
| AssetImporter.TextureDecision | umodel_tools/asset_importer.py:248-284 | unrecognised exactly when the profile refuses the type; skipped exactly when not diffuse outside PBR mode; wired exactly when processed and the texture is available; wired and missing textures carry the texture path |
| AssetImporter.FilterTextures | umodel_tools/asset_importer.py:248-284 | the unrecognised set is exactly the refused types; every kept texture comes from an entry decided Wired, and every such entry is kept |
| AssetImporterProperties.FilterTexturesInOrder | umodel_tools/asset_importer.py:248-284 | the kept textures are the wired entries in entry order: a strictly increasing index per kept texture, into an entry decided Wired with that texture, and as many as there are wired entries |
| AssetImporterProperties.NonPbrWiresDiffuseOnly | umodel_tools/asset_importer.py:255-257 | outside PBR mode only processed diffuse textures are wired |
| AssetImporterProperties.WiredPaths | umodel_tools/asset_importer.py:259-279 | every wired texture is available at the library path built from its own entry |
| AssetImporterProperties.HogwartsNonPbr | umodel_tools/asset_importer.py:251-257 | with the Hogwarts Legacy profile outside PBR mode, the texture filter wires only names its table reads as diffuse; as written the profile's calls raise TypeError before the filter runs (see Findings), so this is the intended behaviour |
| AssetImporter.DescriptorOf | umodel_tools/asset_importer.py:443-453 | the descriptor splits at its last extension; the file path is the library path of the stem plus ".props.txt"; the name is the extension without its dot |
| AssetImporter.DropDot | umodel_tools/asset_importer.py:444 | a dot followed by the result is the extension |
| AssetImporterProperties.MaterialStemOfDescriptor | umodel_tools/asset_importer.py:166 | removing two extensions from `q.props.txt` gives back `q` |
| AssetImporterProperties.DoubleExtension | umodel_tools/asset_importer.py:166 | any two plain extensions come off again with two splits |
| AssetImporterProperties.FoundDescriptorReadsBack | umodel_tools/asset_importer.py:408-416 | for a found file whose material name is non-empty and has no dot, the descriptor built for it reads back as that file's library path and its name |
| AssetImporter.FindName | umodel_tools/asset_importer.py:483-484 | the first slot holding a material of the name, or no slot has it |
| AssetImporter.PlaceMaterial | umodel_tools/asset_importer.py:482-486 | the material replaces the first slot of its name and nothing else, or is appended when there is none |
| AssetImporter.PlaceAll | umodel_tools/asset_importer.py:482-486 | the slot list only grows, by at most one slot per imported material |
| AssetImporterProperties.PlaceAllKeepsOthers | umodel_tools/asset_importer.py:482-486 | a slot whose name no imported material carries keeps its material |
| AssetImporterProperties.PlaceAllHoldsNews | umodel_tools/asset_importer.py:482-486 | imported materials with distinct descriptor names, each material named as its descriptor, all end up on the mesh |
| AssetImporter.Dedup | umodel_tools/asset_importer.py:399 | the slot names as dictionary keys: distinct, and exactly the names present |
| AssetImporterProperties.DedupFirstOccurrences | umodel_tools/asset_importer.py:399 | the keys are the first occurrences of the slot names, in the order they occur |
| Paths.Basename | umodel_tools/asset_importer.py:409 | the base name is the suffix of the path after its last separator: it holds no separator, and when shorter than the path a separator precedes it |
| AssetImporter.Collect | umodel_tools/asset_importer.py:403-416 | only slot names get descriptors; each descriptor comes from a found ".props.txt" file of that name; every such file of a slot name gives its name a descriptor; names without a slot are only reported |
| AssetImporter.Values | umodel_tools/asset_importer.py:436 | the descriptors of the keys, in key order |
| AssetImporter.NameSet | umodel_tools/asset_importer.py:399 | exactly the slot names |
| AssetImporter.Fallback | umodel_tools/asset_importer.py:399-436 | fails exactly when some slot name got no descriptor; otherwise one descriptor per distinct slot name, in slot order |
| AssetImporter.MaterialDescriptors | umodel_tools/asset_importer.py:398-436 | listed descriptors are kept; an animated mesh with none and no Materials directory keeps none; with the directory, the fallback decides |
| AssetImporterProperties.FallbackFailsIff | umodel_tools/asset_importer.py:418-434 | the fallback fails exactly when some slot name has no descriptor file |
| AssetImporterProperties.FallbackDescriptors | umodel_tools/asset_importer.py:416-436 | on success, one descriptor per distinct slot name, in slot order, each built from a found file of that name |
| GenericProfile.LastSegment | umodel_tools/game_profiles/generic.py:156 | the last piece of the split holds no '_' |
| GenericProfile.ShortNameToTexType | umodel_tools/game_profiles/generic.py:151-156 | a kind exactly when the lowered last segment is in the suffix table, and then the table's kind |
| GenericProfile.DoProcessTexture | umodel_tools/game_profiles/generic.py:53-54 | the type string is ignored; a texture is processed exactly when its lowered last suffix is one of the seven known ones |
| GenericProfile.IsDiffuseTexType | umodel_tools/game_profiles/generic.py:57-58 | the type string is ignored; a texture is diffuse exactly when its lowered last suffix is "d" |
| GenericProperties.SuffixDecides | umodel_tools/game_profiles/generic.py:156 | only the text after the last '_' decides the kind |
| GenericProperties.CaseInsensitive | umodel_tools/game_profiles/generic.py:156 | the kind ignores the case of ASCII letters |
| GenericProperties.KindBySuffix | umodel_tools/game_profiles/generic.py:27-35 | which suffixes give which kind, and that no other suffix is recognised |
| GenericProperties.KindOfSuffix | umodel_tools/game_profiles/generic.py:151-156 | the kind of `prefix_suffix` is the table's entry for the lowered suffix |
| GenericProperties.DiffuseIsProcessed | umodel_tools/game_profiles/generic.py:53-58 | a diffuse texture is always processed |
| GenericProperties.DiffuseExample | umodel_tools/game_profiles/generic.py:28 | any name ending in "_D" is diffuse |
| GenericProperties.SrohExample | umodel_tools/game_profiles/generic.py:34 | any name ending in "_SROH" is an MROH map |
| GenericProperties.WordSuffixExample | umodel_tools/game_profiles/generic.py:27-35 | a name ending in "_Normal" is not recognised |
| GenericProfile.ProcessMaterial | umodel_tools/game_profiles/generic.py:49-50 | the material gets a fresh context and every other context is kept |
| GenericProfile.PbrStep | umodel_tools/game_profiles/generic.py:70-80 | the bsdf is recorded; the kind joins the linked set; a kind is wired exactly when it is real and not yet linked |
| GenericProfile.HandlePbr | umodel_tools/game_profiles/generic.py:61-80 | only the material's own context changes, by one PBR step |
| GenericProfile.HandleSimple | umodel_tools/game_profiles/generic.py:123-128 | only the material's bsdf changes |
| GenericProfile.EndProcess | umodel_tools/game_profiles/generic.py:135-146 | the context is dropped; defaults go to the recorded bsdf exactly in PBR mode with one recorded |
| GenericProfile.Handle | umodel_tools/game_profiles/generic.py:61-128 | one handler call: other materials untouched, the flag kept, the bsdf recorded, the kind wired exactly when a PBR call names a kind not yet linked |
| GenericProfile.RunCalls | umodel_tools/game_profiles/generic.py:61-128 | a sequence of handler calls keeps other materials and the PBR flag and leaves the last bsdf handed in |
| GenericProperties.WiredOnce | umodel_tools/game_profiles/generic.py:75-80 | over any calls, each kind is wired at most once, exactly when a PBR call names it and it was not linked before, and the linked set only grows |
| GenericProperties.Lifecycle | umodel_tools/game_profiles/generic.py:135-146 | creating a context, making calls and ending leaves the buffer without the material; defaults go to the last bsdf, in PBR mode only |
| HogwartsProfile.TableNames | umodel_tools/game_profiles/hogwarts_legacy.py:27-81 | the lookup finds a name exactly when it is one of the table's 47 names, compared case-sensitively |
| HogwartsProfile.KindExactly | umodel_tools/game_profiles/hogwarts_legacy.py:27-81 | the lookup gives a kind exactly for the names the table lists under that kind |
| HogwartsProfile.DoProcessTexture | umodel_tools/game_profiles/hogwarts_legacy.py:91-92 | a texture is processed exactly when its parameter name is in the table |
| HogwartsProfile.IsDiffuseTexType | umodel_tools/game_profiles/hogwarts_legacy.py:95-96 | a texture is diffuse exactly when its parameter name is one of the ten diffuse names |
| HogwartsProperties.DiffuseIsProcessed | umodel_tools/game_profiles/hogwarts_legacy.py:91-96 | a diffuse texture is always processed |
| HogwartsProperties.IrregularEntries | umodel_tools/game_profiles/hogwarts_legacy.py:38-72 | the irregular entries are read as written |
| HogwartsProperties.CaseSensitive | umodel_tools/game_profiles/hogwarts_legacy.py:70-71 | the lookup is exact and case-sensitive |
| HogwartsProfile.ProcessMaterial | umodel_tools/game_profiles/hogwarts_legacy.py:87-88 | the material gets no bsdf and its PBR flag; other materials are kept |
| HogwartsProfile.HandlePbr | umodel_tools/game_profiles/hogwarts_legacy.py:99-111 | the bsdf is overwritten, the flag kept, other materials untouched; the wired kind is the table's |
| HogwartsProfile.HandleSimple | umodel_tools/game_profiles/hogwarts_legacy.py:153-158 | the bsdf is overwritten, the flag kept, other materials untouched |
| HogwartsProfile.EndProcess | umodel_tools/game_profiles/hogwarts_legacy.py:165-176 | the state is dropped; defaults go to the recorded bsdf exactly in PBR mode with one recorded |
| HogwartsProperties.RunCalls | umodel_tools/game_profiles/hogwarts_legacy.py:99-158 | a sequence of handler calls keeps the material set and other materials |
| HogwartsProperties.CallsKeepFlag | umodel_tools/game_profiles/hogwarts_legacy.py:107-158 | handler calls keep the PBR flag and leave the last bsdf handed in |
| HogwartsProperties.Lifecycle | umodel_tools/game_profiles/hogwarts_legacy.py:87-176 | a whole material leaves the buffer without it; defaults go to the last bsdf, in PBR mode only. This is the callbacks' own behaviour; the importer's keyword calls do not reach it as written (see Findings) |
| ProfileCalls.Bind | umodel_tools/asset_importer.py:179 | a call binds exactly when its positional arguments fit and its keywords name the remaining parameters; as in CPython, a keyword naming no parameter still open is reported first, surplus positional arguments only when every keyword is fine (so only with no keywords), and a missing argument when the keywords name some but not all of the remaining parameters |
| ProfileCalls.EntryCalls | umodel_tools/asset_importer.py:248-310 | one texture entry calls `do_process_texture` first; `is_diffuse_tex_type` exactly outside PBR mode for a processed entry; the handler of the current mode exactly for a wired entry |
| ProfileCalls.LoopCalls | umodel_tools/asset_importer.py:248-310 | the texture loop calls a handler exactly when some entry is wired, and starts with `do_process_texture` when there is an entry |
| ProfileCalls.LoopHandlers | umodel_tools/asset_importer.py:297-310 | the texture loop only calls the handler of the current mode |
| ProfileCalls.MaterialCalls | umodel_tools/asset_importer.py:179-312 | a new material's calls start with `process_material`, end with `end_process_material`, call the first texture's `do_process_texture` second, and call a handler of the current mode only, exactly when some entry is wired |
| ProfileCalls.FirstRaise | umodel_tools/asset_importer.py:179-312 | the first call of a sequence that fails to bind, all calls before it binding; none exactly when every call binds |
| ProfileCalls.HogwartsRaisesFirst | umodel_tools/game_profiles/hogwarts_legacy.py:87 | as written, `process_material(mat=..., desc_ast=..., use_pbr=...)` meets a parameter named `_` and raises on the unexpected keyword, as `handle_material_texture_simple` would; every new material raises at its first profile call |
| ProfileCalls.HogwartsNamedBinds | umodel_tools/game_profiles/hogwarts_legacy.py:87-165 | with those two parameters named `desc_ast` and `tex_type`, every call of every new material binds, in either mode |
| ProfileCalls.GenericRaisesAtTexture | umodel_tools/game_profiles/generic.py:53 | the generic `do_process_texture` misses its short-name argument, so a material with a texture entry raises at its first texture |
| Preferences.Swap | umodel_tools/preferences.py:88-94 | the profiles at the two positions trade places and every other profile stays where it was |
| Preferences.ActiveProfile | umodel_tools/preferences.py:143-147 | a profile exactly when the index is in range, and then the profile at the index |
| Preferences.Invoke | umodel_tools/preferences.py:79-106 | without a profile at the index only Add acts; Add appends "New Profile" and selects it |
| PreferencesProperties.InvokeKeepsSelection | umodel_tools/preferences.py:83-104 | every action keeps the index on a profile, or at 0 on an empty list |
| PreferencesProperties.MoveKeepsActiveProfile | umodel_tools/preferences.py:88-94 | Up and Down keep the same profile active |
| PreferencesProperties.DownMoves | umodel_tools/preferences.py:88-90 | Down moves the active profile one place later when there is room, otherwise nothing changes |
| PreferencesProperties.UpMoves | umodel_tools/preferences.py:92-94 | Up moves the active profile one place earlier unless it is first |
| PreferencesProperties.UpThenDown | umodel_tools/preferences.py:88-94 | Up then Down restores the list and the selection |
| PreferencesProperties.DownThenUp | umodel_tools/preferences.py:88-94 | Down then Up restores the list and the selection |
| PreferencesProperties.MovePermutes | umodel_tools/preferences.py:88-94 | Up and Down only reorder the profiles |
| PreferencesProperties.RemoveDropsActive | umodel_tools/preferences.py:96-99 | Remove drops exactly the active profile, keeps the others in order and selects the one before it (or stays at 0) |
| UtilsProperties.MeshEquivalence | umodel_tools/utils.py:65-76 | mesh comparison is reflexive, symmetric and transitive |
| UtilsProperties.MeshCountsOnly | umodel_tools/utils.py:73-76 | any two meshes compare equal exactly when their vertex, polygon, loop and edge counts agree, whatever their geometry |
| Utils.CompareMeshes | umodel_tools/utils.py:65-76 | equal exactly when the vertex, polygon, loop and edge counts agree |
| UtilsProperties.PathEquivalence | umodel_tools/utils.py:79-89 | path comparison is an equivalence in either file-system mode |
| UtilsProperties.ExactImpliesInsensitive | umodel_tools/utils.py:89 | paths equal under exact comparison are equal ignoring case |
| UtilsProperties.CaseDecides | umodel_tools/utils.py:89 | names differing only in case are the same file only on a case-insensitive file system |
| Utils.ComparePaths | umodel_tools/utils.py:79-89 | paths that resolve alike are the same file in either mode; paths judged the same resolve to strings of one length |
| Utils.Get | umodel_tools/utils.py:27-37 | a read by item, or by attribute of a name the class does not itself provide: `_ctx` is the dictionary itself; another name is its member, and a missing member raises KeyError |
| Utils.SetCtx | umodel_tools/utils.py:39-48 | assigning `_ctx` replaces the wrapped dictionary |
| Utils.Set | umodel_tools/utils.py:39-51 | an assignment by item or by attribute: the member is added or replaced and every other member kept |
| UtilsProperties.ContextReadsBack | umodel_tools/utils.py:27-51 | a member once assigned reads back as the value assigned |
| UtilsProperties.ContextOthersUnchanged | umodel_tools/utils.py:39-51 | assigning one member leaves every other read as it was |
| UtilsProperties.ContextMissingRaises | umodel_tools/utils.py:31-37 | a member never assigned raises KeyError |
| UtilsProperties.ContextSelf | umodel_tools/utils.py:27-29 | `_ctx` reads the dictionary with the assigned member in it |
| Utils.FirstOfType | umodel_tools/utils.py:105-107 | a result exactly when some user is of the type, and then the first such user |
| Utils.UsersSearch | umodel_tools/utils.py:105-107 | the inner loop returns the first user of the type |
| Utils.LinkedLibrariesSearch | umodel_tools/utils.py:95-109 | the loop gives the recursive search's answer, always of the requested type |
| UtilsProperties.SearchSound | umodel_tools/utils.py:103-109 | a result comes from a library whose path matches; there is none exactly when no matching library holds a data-block of the type |
| UtilsProperties.SearchFirstMatch | umodel_tools/utils.py:103-109 | the answer is from the first matching library that holds a data-block of the type, past matching ones that hold none |
| Strings.Split | umodel_tools/map_importer.py:19 | one more piece than separators, none holding the separator |
| Strings.JoinSplit | umodel_tools/asset_db.py:45-46 | the split fields joined again give the line back |
| Strings.SplitJoin | umodel_tools/asset_db.py:84 | fields without the separator, joined and split, come back as they were |
| Strings.Lower | umodel_tools/game_profiles/generic.py:156 | each character lowered, length kept |
| Strings.ReplaceChar | umodel_tools/asset_db.py:59 | each occurrence replaced, every other character kept |
| Paths.SplitExt | umodel_tools/asset_importer.py:443 | stem and extension concatenate to the path; the extension is empty or a dot and a dot-free, separator-free name; a non-empty one leaves the last component a stem |
| Paths.NormPathIdempotent | umodel_tools/asset_importer.py:447 | normalising a normalised path changes nothing |
| Paths.NormPath | umodel_tools/asset_importer.py:447 | the result is never empty and keeps exactly the leading separators POSIX keeps: two for exactly two, one for one or three or more, none for none |
| Paths.NormPathKeepsName | umodel_tools/asset_importer.py:447 | a path ending in a name that is not all dots keeps that name last after normalisation |
| Paths.LibraryPath | umodel_tools/asset_importer.py:447-451 | the importer's path never starts with two separators, and starts with one exactly when the path starts with exactly two |
| Paths.StripLeadingSep | umodel_tools/asset_importer.py:450-451 | one leading separator is removed, a path without one is kept |

## Left out

- Blender itself: object, mesh, material, image and library creation, linking, writing and removal. Shader-node wiring (asset_importer.py:216-243 and each profile's node links) is reported only as the map kind wired. It is not modelled node by node.
- `_load_asset` and `_import_asset_to_library` (asset_importer.py:68-112, 319-513). These are file checks, `pskimport` and library loading. The map import sees them through the resolver parameter. Their pure fragments are modelled: material settings, slot placement and the descriptor fallback.
- `_import_image_to_library` (asset_importer.py:114-140): a file copy and Blender calls. Its catalog lookup is `UidForEntry`.
- umodel_tools/props_txt_parser.py is not part of this model. Texture infos, base property overrides and descriptor lists are inputs.
- umodel_tools/game_profiles/__init__.py (handler discovery) is not part of this model. The generic profile is not among the supported games, so it is never loaded. Its callbacks take the short texture name as a second argument, which the importer does not pass (asset_importer.py:251), so its calls fail to bind (`ProfileCalls.GenericRaisesAtTexture`). `GenericProfile` gives that name explicitly and describes the callbacks themselves.
- File I/O in the asset database: directory creation, the backup copy, and the universal-newline translation of Python's text mode, which reads "\r\n" and "\r" as "\n". Opening takes the file's text; saving returns the text.
- `uuid.uuid1`: a fresh uid is a parameter of `UidForEntry`.
- AssetDb.Version: the in-memory version is the integer 1 of a new database or the text read from the file. No arithmetic is done on it.
- Floating point: coordinates, angles and colours are exact reals. `Radians` multiplies by a decimal pi, not the double nearest to it.
- Quaternion to Euler conversion and the 4x4 matrix algebra: the conversion is a parameter. Matrices are terms built from transforms and products.
- `os.path`: POSIX semantics only. `os.path.realpath` and the case-sensitivity probe in utils.py:13-17 are parameters.
- AssetImporterProperties.FoundDescriptorReadsBack: stated only for material names without a dot. The descriptor `rel.name` is split again at its last dot (asset_importer.py:443-444), so a name such as "Mat.001", as Blender gives duplicated materials, reads back as "001" with the path `rel.Mat`.
- AssetImporterProperties.PlaceAllHoldsNews: stated only when every material is named as its descriptor. A material that failed to load is a placeholder named `<name>_Placeholder` (asset_importer.py:475), so a later material whose descriptor name is that placeholder's name can take its slot, and the placeholder is then no longer on the mesh.
- Utils.Get: attribute reads of names the wrapper class itself provides, such as `__dict__`, `__class__` or its methods, are answered by Python's ordinary attribute lookup and never reach `__getattr__` (utils.py:27). The model covers the other names, which are the ones the add-on reads.
- Strings.Lower: ASCII letters only. Python's full Unicode lowering is not modelled.
- Preferences.Prefs: the active index is a natural number. Blender's negative indexing of collections is not modelled.
- Utils.SetCtx: only a dictionary can be assigned to `_ctx`. Assigning another kind of value is not modelled.
- `copy_object`, `verbose_print`, `std_out_err_redirect_tqdm`, `tqdm` progress output, printing and the deferred `_library_reload` timer: side effects with no decision in them.
- MapImporter.ImportAll: its own contract bounds only the number of resolver lookups. What it links and asks for, record by record, is stated by ImportAllAppend, RecordStep and the step lemmas.
- MapImporter.ImportMap: records that the code would crash on are excluded by the `AllOk` precondition rather than modelled as an exception. Examples are a location block without `X` and a `Properties` value that is not a dictionary. The resolver is assumed not to raise. With the Hogwarts Legacy profile, resolving a mesh whose material is not yet in the library raises TypeError (see Findings). Neither the `except OSError` around the material import (asset_importer.py:474) nor the `except (RuntimeError, FileNotFoundError)` in `_load_asset` (asset_importer.py:110) catches it, so it leaves the map import.
- MapImporter.ClassifyStaticMesh: the same applies to mesh records through `MeshRecordOk`.
- HogwartsProfile.HandlePbr: requires a name the table knows, which the handler asserts (hogwarts_legacy.py:111).
- AssetDbProperties.SaveOpenRoundTrip: stated only for clean databases. In a clean database no field holds ':' or a newline before its end, and the version text holds no ':' or ' '. Other databases do not read back, because the file format cannot represent them.
- AssetDb.ParseLines: its own contract states only that uids stay distinct. What it reads is stated by the round-trip and read-back lemmas.
- Operators, panels, preview generation and the UI draw code: outside the importer's decisions.

## Findings

| source | as written | input that shows it | evidently intended | confidence | as-written member | corrected member |
|---|---|---|---|---|---|---|
| umodel_tools/map_importer.py:423-426 | the skip diagnostic for an invalid light formats `static_mesh.entity_name`, a variable bound only by an earlier mesh record; with no such record the loop raises UnboundLocalError and the import aborts | a map whose first typed record is `{"Type": "PointLightComponent"}` with no `Properties` | the invalid light is skipped with a diagnostic naming the light, and the import continues | not executed | MapProperties.LightSkipRaises | MapImporter.ImportMap |
| umodel_tools/asset_importer.py:179 | the importer calls `process_material(mat=..., desc_ast=..., use_pbr=...)` and `handle_material_texture_simple(mat=..., tex_type=..., ...)` by keyword, but the Hogwarts Legacy profile names those second parameters `_` (game_profiles/hogwarts_legacy.py:87 and 153-154); the first call of every new material raises TypeError | importing any mesh whose material is not yet in the asset library, with the Hogwarts Legacy profile selected | the profile receives the material's descriptor and texture type and the material is built; the profile behaviour `HogwartsProperties.Lifecycle` and `AssetImporterProperties.HogwartsNonPbr` state | not executed | ProfileCalls.HogwartsRaisesFirst | ProfileCalls.HogwartsNamedBinds |
