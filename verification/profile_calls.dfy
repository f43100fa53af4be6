/** How the importer's calls reach a game profile's callbacks.

    Python binds a call's positional arguments to the leading parameters and
    each keyword argument to the parameter of that name. A call that passes
    too many positional arguments, names a parameter that does not exist,
    fills one twice or leaves one unfilled raises TypeError before the
    callback runs. None of the profile callbacks has default values, so a
    call binds exactly when its keywords name the parameters after the
    positional ones.

    `_import_material_to_library` makes its calls in a fixed pattern: one
    `process_material` by keyword, then for each texture entry
    `do_process_texture` and, outside PBR mode, `is_diffuse_tex_type`
    positionally, one texture handler by keyword for an entry that is wired,
    and finally `end_process_material` positionally. */
module ProfileCalls {
  import opened Wrappers
  import opened AssetImporter

  // ---------------------------------------------------------------------------
  // Binding a call

  /** The names in a parameter list. */
  function Names(params: seq<string>): set<string>
  {
    set x | x in params
  }

  /** Python refuses a function whose parameters repeat a name. */
  predicate Distinct(params: seq<string>)
  {
    forall i, j | 0 <= i < j < |params| :: params[i] != params[j]
  }

  /** The ways a call fails to bind. `BadKeyword` is a keyword that names no
      parameter or one a positional argument already filled; CPython reports
      whichever such keyword comes first in the call, an order a set of
      keywords does not keep. */
  datatype TypeError = BadKeyword | TooManyPositional | MissingArgument

  /** A call: `positional` leading arguments, then keyword arguments. */
  datatype Call = Call(positional: nat, keywords: set<string>)

  /** The parameter names before and after position `n` split the whole
      list, and a list without repeats puts no name on both sides. */
  lemma NamesSplit(params: seq<string>, n: nat)
    requires n <= |params|
    ensures Names(params) == Names(params[..n]) + Names(params[n..])
    ensures Distinct(params) ==> Names(params[..n]) * Names(params[n..]) == {}
  {
    assert params == params[..n] + params[n..];
    if Distinct(params) {
      forall x | x in Names(params[..n])
        ensures x !in Names(params[n..])
      {
        var i :| 0 <= i < n && params[..n][i] == x;
        forall j | 0 <= j < |params| - n
          ensures params[n..][j] != x
        {
          assert params[n..][j] == params[n + j];
        }
      }
    }
  }

  /** The number of parameters the positional arguments fill. */
  function Filled(params: seq<string>, call: Call): (n: nat)
    ensures n <= |params| && n <= call.positional
    ensures n == call.positional || n == |params|
  {
    if call.positional <= |params| then call.positional else |params|
  }

  /** Binding `call` to `params` in CPython's order: positional arguments
      fill the leading parameters, then each keyword must name a parameter
      still open, then surplus positional arguments are refused, then every
      parameter must have been filled. The result is the error raised, or
      None when every parameter receives exactly one argument. */
  function Bind(params: seq<string>, call: Call): (r: Option<TypeError>)
    requires Distinct(params)
    ensures r.None? <==> call.positional <= |params| && call.keywords == Names(params[call.positional..])
    ensures r == Some(BadKeyword) <==> !(call.keywords <= Names(params[Filled(params, call)..]))
    ensures r == Some(TooManyPositional) <==> call.positional > |params| && call.keywords == {}
    ensures r == Some(MissingArgument) <==>
              call.positional <= |params| && call.keywords < Names(params[call.positional..])
  {
    var n := Filled(params, call);
    NamesSplit(params, n);
    if !(call.keywords <= Names(params)) || call.keywords * Names(params[..n]) != {} then
      assert !(call.keywords <= Names(params[n..]));
      Some(BadKeyword)
    else
      assert call.keywords <= Names(params[n..]) by {
        forall x | x in call.keywords
          ensures x in Names(params[n..])
        {
          assert x !in call.keywords * Names(params[..n]);
        }
      }
      if call.positional > |params| then
        assert params[n..] == [];
        Some(TooManyPositional)
      else if !(Names(params[call.positional..]) <= call.keywords) then Some(MissingArgument)
      else None
  }

  /** Keyword errors are found before surplus positional arguments: a call
      `f(x, y, b=z)` of `def f(a)` fails on `b`, and `f(x, y, a=z)` on the
      second value for `a`. */
  lemma KeywordsCheckedFirst()
    ensures Bind(["a"], Call(2, {"b"})) == Some(BadKeyword)
    ensures Bind(["a"], Call(2, {"a"})) == Some(BadKeyword)
    ensures Bind(["a"], Call(2, {})) == Some(TooManyPositional)
  {
    assert ["a"][1..] == [];
  }

  // ---------------------------------------------------------------------------
  // The profile callbacks and the importer's calls

  /** The callbacks a game profile module provides. */
  datatype Callback =
    | ProcessMaterial
    | DoProcessTexture
    | IsDiffuseTexType
    | HandlePbr
    | HandleSimple
    | EndProcess

  /** A game profile's callback signatures, as parameter-name lists. */
  datatype Profile = Profile(
    processMaterial: seq<string>,
    doProcessTexture: seq<string>,
    isDiffuseTexType: seq<string>,
    handlePbr: seq<string>,
    handleSimple: seq<string>,
    endProcess: seq<string>)
  {
    function ParamsOf(cb: Callback): seq<string>
    {
      match cb
      case ProcessMaterial => processMaterial
      case DoProcessTexture => doProcessTexture
      case IsDiffuseTexType => isDiffuseTexType
      case HandlePbr => handlePbr
      case HandleSimple => handleSimple
      case EndProcess => endProcess
    }

    /** Every signature is one Python accepts. */
    predicate Valid()
    {
      && Distinct(processMaterial) && Distinct(doProcessTexture) && Distinct(isDiffuseTexType)
      && Distinct(handlePbr) && Distinct(handleSimple) && Distinct(endProcess)
    }
  }

  /** How the importer calls each callback (asset_importer.py:179, 251, 256,
      298-310 and 312). */
  function CallOf(cb: Callback): Call
  {
    match cb
    case ProcessMaterial => Call(0, {"mat", "desc_ast", "use_pbr"})
    case DoProcessTexture => Call(1, {})
    case IsDiffuseTexType => Call(1, {})
    case HandlePbr => Call(0, {"mat", "tex_type", "img_node", "ao_mix_node", "bsdf_node", "out_node"})
    case HandleSimple => Call(0, {"mat", "tex_type", "img_node", "bsdf_node"})
    case EndProcess => Call(1, {})
  }

  /** The importer's call of `cb` binds to the profile's signature. */
  predicate Binds(p: Profile, cb: Callback)
    requires p.Valid()
  {
    Bind(p.ParamsOf(cb), CallOf(cb)).None?
  }

  /** The callbacks one texture entry makes the importer call, given what it
      decided for the entry. */
  function EntryCalls(loadPbr: bool, d: TextureOutcome): (r: seq<Callback>)
    ensures |r| >= 1 && r[0] == DoProcessTexture
    ensures (IsDiffuseTexType in r) <==> !loadPbr && !d.Unrecognised?
    ensures (HandlePbr in r) <==> loadPbr && d.Wired?
    ensures (HandleSimple in r) <==> !loadPbr && d.Wired?
    ensures ProcessMaterial !in r && EndProcess !in r
  {
    if d.Unrecognised? then [DoProcessTexture]
    else
      var checked := if loadPbr then [DoProcessTexture] else [DoProcessTexture, IsDiffuseTexType];
      if d.Wired? then checked + [if loadPbr then HandlePbr else HandleSimple] else checked
  }

  /** The callbacks of the texture loop, entry by entry. */
  function LoopCalls(loadPbr: bool, ds: seq<TextureOutcome>): (r: seq<Callback>)
    ensures |r| >= |ds|
    ensures ProcessMaterial !in r && EndProcess !in r
    ensures (HandlePbr in r || HandleSimple in r) <==> exists i :: 0 <= i < |ds| && ds[i].Wired?
    ensures |ds| > 0 ==> r[0] == DoProcessTexture
  {
    if ds == [] then []
    else
      var rest := LoopCalls(loadPbr, ds[1..]);
      assert forall i :: 1 <= i < |ds| ==> ds[i] == ds[1..][i - 1];
      EntryCalls(loadPbr, ds[0]) + rest
  }

  /** The callbacks one new material makes the importer call, in order. */
  function MaterialCalls(loadPbr: bool, ds: seq<TextureOutcome>): (r: seq<Callback>)
    ensures |r| >= 2 + |ds| && r[0] == ProcessMaterial && r[|r| - 1] == EndProcess
    ensures |ds| > 0 ==> r[1] == DoProcessTexture
    ensures HandlePbr in r ==> loadPbr
    ensures HandleSimple in r ==> !loadPbr
    ensures (HandlePbr in r || HandleSimple in r) <==> exists i :: 0 <= i < |ds| && ds[i].Wired?
  {
    var loop := LoopCalls(loadPbr, ds);
    assert HandlePbr in loop ==> loadPbr by {
      if HandlePbr in loop && !loadPbr { LoopHandlers(loadPbr, ds); }
    }
    assert HandleSimple in loop ==> !loadPbr by {
      if HandleSimple in loop && loadPbr { LoopHandlers(loadPbr, ds); }
    }
    [ProcessMaterial] + loop + [EndProcess]
  }

  /** Only the handler of the current mode appears in the texture loop. */
  lemma {:induction false} LoopHandlers(loadPbr: bool, ds: seq<TextureOutcome>)
    ensures loadPbr ==> HandleSimple !in LoopCalls(loadPbr, ds)
    ensures !loadPbr ==> HandlePbr !in LoopCalls(loadPbr, ds)
  {
    if ds != [] {
      LoopHandlers(loadPbr, ds[1..]);
    }
  }

  /** The position of the first call that raises TypeError, or None when
      every call binds. */
  function FirstRaise(p: Profile, calls: seq<Callback>): (r: Option<nat>)
    requires p.Valid()
    ensures r.None? <==> forall i :: 0 <= i < |calls| ==> Binds(p, calls[i])
    ensures r.Some? ==> r.value < |calls| && !Binds(p, calls[r.value])
                        && forall i :: 0 <= i < r.value ==> Binds(p, calls[i])
  {
    if calls == [] then None
    else if !Binds(p, calls[0]) then Some(0)
    else
      match FirstRaise(p, calls[1..])
      case None => None
      case Some(k) => Some(k + 1)
  }

  // ---------------------------------------------------------------------------
  // The two profiles

  /** The signatures of game_profiles/hogwarts_legacy.py: the material and
      the short name are taken as `_` in `process_material` and
      `handle_material_texture_simple`. */
  const Hogwarts := Profile(
    ["mat", "_", "use_pbr"],
    ["tex_type"],
    ["tex_type"],
    ["mat", "tex_type", "img_node", "ao_mix_node", "bsdf_node", "out_node"],
    ["mat", "_", "img_node", "bsdf_node"],
    ["mat"])

  /** The Hogwarts Legacy signatures with the two unused parameters named as
      the importer passes them. */
  const HogwartsNamed := Hogwarts.(processMaterial := ["mat", "desc_ast", "use_pbr"],
                                   handleSimple := ["mat", "tex_type", "img_node", "bsdf_node"])

  /** The signatures of game_profiles/generic.py, whose texture callbacks
      also take the short texture name. */
  const Generic := Profile(
    ["mat", "desc_ast", "use_pbr"],
    ["tex_type", "tex_short_name"],
    ["tex_type", "tex_short_name"],
    ["mat", "tex_type", "tex_short_name", "img_node", "ao_mix_node", "bsdf_node", "out_node"],
    ["mat", "tex_type", "tex_short_name", "img_node", "bsdf_node"],
    ["mat"])

  /** As written, the Hogwarts Legacy `process_material` has no parameter
      `desc_ast`, so the very first profile call of every new material
      raises TypeError, whatever the mode and the texture entries. The
      simple handler would raise the same way. */
  lemma HogwartsRaisesFirst(loadPbr: bool, ds: seq<TextureOutcome>)
    ensures Hogwarts.Valid()
    ensures Bind(Hogwarts.processMaterial, CallOf(ProcessMaterial)) == Some(BadKeyword)
    ensures Bind(Hogwarts.handleSimple, CallOf(HandleSimple)) == Some(BadKeyword)
    ensures FirstRaise(Hogwarts, MaterialCalls(loadPbr, ds)) == Some(0)
  {
    assert "desc_ast" !in Names(Hogwarts.processMaterial) by {
      assert "desc_ast"[0] != "mat"[0] && "desc_ast"[0] != "_"[0] && "desc_ast"[0] != "use_pbr"[0];
    }
    assert "tex_type" !in Names(Hogwarts.handleSimple) by {
      assert "tex_type"[0] != "mat"[0] && "tex_type"[0] != "_"[0];
      assert "tex_type"[0] != "img_node"[0] && "tex_type"[0] != "bsdf_node"[0];
    }
  }

  /** With the parameters named as the importer passes them, every call a
      new material makes binds, in either mode and for any texture entries:
      the profile behaviour the rest of the model describes. */
  lemma HogwartsNamedBinds(loadPbr: bool, ds: seq<TextureOutcome>)
    ensures HogwartsNamed.Valid()
    ensures FirstRaise(HogwartsNamed, MaterialCalls(loadPbr, ds)).None?
  {
    var p := HogwartsNamed;
    forall cb: Callback
      ensures Binds(p, cb)
    {
      NamesSplit(p.ParamsOf(cb), CallOf(cb).positional);
    }
  }

  /** The generic profile's signatures are ones Python accepts. */
  lemma GenericValid()
    ensures Generic.Valid()
  {
  }

  /** The generic profile's `do_process_texture` expects the short name as a
      second argument that the importer never passes, so a material with at
      least one texture entry raises at its first texture. */
  lemma GenericRaisesAtTexture(loadPbr: bool, ds: seq<TextureOutcome>)
    requires |ds| > 0
    ensures Generic.Valid()
    ensures Bind(Generic.doProcessTexture, CallOf(DoProcessTexture)) == Some(MissingArgument)
    ensures FirstRaise(Generic, MaterialCalls(loadPbr, ds)) == Some(1)
  {
    GenericValid();
    NamesSplit(Generic.processMaterial, 0);
    assert Generic.processMaterial[0..] == Generic.processMaterial;
    assert Binds(Generic, ProcessMaterial);
    assert Generic.doProcessTexture[1..] == ["tex_short_name"];
    assert "tex_short_name" in Names(Generic.doProcessTexture[1..]);
    assert !Binds(Generic, DoProcessTexture);
  }
}
