/** Properties of the Hogwarts Legacy texture table and material state. */
module HogwartsProperties {
  import opened Wrappers
  import opened TextureTypes
  import opened HogwartsProfile

  /** A diffuse texture is always one that is processed. */
  lemma DiffuseIsProcessed(texType: string)
    requires IsDiffuseTexType(texType)
    ensures DoProcessTexture(texType)
  {
  }

  /** The irregular entries are taken as written. */
  lemma IrregularEntries()
    ensures Lookup("MRO/SRO Map") == Some(SRO)
    ensures Lookup("MRO/SRO A") == Some(MRO)
    ensures Lookup("MRO A") == Some(MROH)
    ensures Lookup("MROA") == Some(MRO)
    ensures Lookup("MRO/SRO A Map") == Some(SRO)
    ensures Lookup("MRO Map A") == Some(MROH)
  {
  }

  /** The lookup is case-sensitive. */
  lemma CaseSensitive()
    ensures DoProcessTexture("Base color") && DoProcessTexture("Base Color")
    ensures !DoProcessTexture("diffuse")
  {
    assert Lookup("Base color").Some? && Lookup("Base Color").Some?;
    assert Lookup("diffuse").None?;
  }

  /** One handler call made while importing a material. */
  datatype Call<B> = PbrCall(texType: string, bsdf: B) | SimpleCall(bsdf: B)

  predicate Allowed<B>(calls: seq<Call<B>>)
  {
    forall i :: 0 <= i < |calls| && calls[i].PbrCall? ==> DoProcessTexture(calls[i].texType)
  }

  function RunCalls<M, B>(buf: StateBuffer<M, B>, mat: M, calls: seq<Call<B>>): (r: StateBuffer<M, B>)
    requires mat in buf && Allowed(calls)
    ensures r.Keys == buf.Keys
    ensures forall m :: m in buf && m != mat ==> r[m] == buf[m]
    decreases |calls|
  {
    if |calls| == 0 then buf
    else
      var buf' := match calls[0]
        case PbrCall(t, b) => HandlePbr(buf, mat, t, b).0
        case SimpleCall(b) => HandleSimple(buf, mat, b);
      assert Allowed(calls[1..]) by {
        forall i | 0 <= i < |calls[1..]| && calls[1..][i].PbrCall?
          ensures DoProcessTexture(calls[1..][i].texType)
        {
          assert calls[1..][i] == calls[i + 1];
        }
      }
      RunCalls(buf', mat, calls[1..])
  }

  /** Handler calls keep the PBR flag and leave the last bsdf handed in. */
  lemma {:induction false} CallsKeepFlag<M, B>(buf: StateBuffer<M, B>, mat: M, calls: seq<Call<B>>)
    requires mat in buf && Allowed(calls)
    ensures RunCalls(buf, mat, calls)[mat].usePbr == buf[mat].usePbr
    ensures RunCalls(buf, mat, calls)[mat].bsdf
            == if |calls| == 0 then buf[mat].bsdf else Some(calls[|calls| - 1].bsdf)
    decreases |calls|
  {
    if |calls| > 0 {
      var buf' := match calls[0]
        case PbrCall(t, b) => HandlePbr(buf, mat, t, b).0
        case SimpleCall(b) => HandleSimple(buf, mat, b);
      assert Allowed(calls[1..]) by {
        forall i | 0 <= i < |calls[1..]| && calls[1..][i].PbrCall?
          ensures DoProcessTexture(calls[1..][i].texType)
        {
          assert calls[1..][i] == calls[i + 1];
        }
      }
      CallsKeepFlag(buf', mat, calls[1..]);
      if |calls| > 1 {
        assert calls[1..][|calls[1..]| - 1] == calls[|calls| - 1];
      }
    }
  }

  /** A whole material: the buffer is left as it was without the material,
      and defaults go to the last bsdf handed in, in PBR mode only. */
  lemma Lifecycle<M, B>(buf: StateBuffer<M, B>, mat: M, usePbr: bool, calls: seq<Call<B>>)
    requires Allowed(calls)
    ensures EndProcess(RunCalls(ProcessMaterial(buf, mat, usePbr), mat, calls), mat)
            == (buf - {mat}, if usePbr && |calls| > 0 then Some(calls[|calls| - 1].bsdf) else None)
  {
    var start := ProcessMaterial(buf, mat, usePbr);
    CallsKeepFlag(start, mat, calls);
    var end := RunCalls(start, mat, calls);
    assert end - {mat} == buf - {mat};
  }
}
