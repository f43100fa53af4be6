/** Properties of the generic profile's texture classification and of its
    per-material context. */
module GenericProperties {
  import opened Wrappers
  import opened Strings
  import opened TextureTypes
  import opened GenericProfile

  lemma SplitLastAfter(a: string, b: string, c: char)
    ensures var whole := Split(a + [c] + b, c);
            var tail := Split(b, c);
            whole[|whole| - 1] == tail[|tail| - 1]
  {
    var s := a + [c] + b;
    assert s[|a|] == c && s[|a| + 1..] == b;
    SplitLastAt(s, |a|, c);
  }

  /** The last part of a split is the last part of what follows any separator. */
  lemma {:induction false} SplitLastAt(s: string, k: nat, c: char)
    requires k < |s| && s[k] == c
    ensures var whole, tail := Split(s, c), Split(s[k + 1..], c);
            whole[|whole| - 1] == tail[|tail| - 1]
    decreases k
  {
    if k > 0 {
      assert s[1..][k - 1..] == s[k..] && s[1..][k..] == s[k + 1..];
      SplitLastAt(s[1..], k - 1, c);
      HasSeparator(s[1..], c, k - 1);
    }
    SplitLastCons(s, c);
  }

  /** Dropping the first character keeps the last part when that character
      is the separator or when a separator follows it. */
  lemma SplitLastCons(s: string, c: char)
    requires |s| > 0 && (s[0] == c || Count(s[1..], c) >= 1)
    ensures var whole, rest := Split(s, c), Split(s[1..], c);
            whole[|whole| - 1] == rest[|rest| - 1]
  {
  }

  lemma {:induction false} HasSeparator(s: string, c: char, k: nat)
    requires k < |s| && s[k] == c
    ensures Count(s, c) >= 1
    decreases k
  {
    if k > 0 && s[0] != c {
      HasSeparator(s[1..], c, k - 1);
    }
  }

  lemma LowerAppend(a: string, b: string)
    ensures Lower(a + b) == Lower(a) + Lower(b)
  {
    assert forall i :: 0 <= i < |a + b| ==> Lower(a + b)[i] == (Lower(a) + Lower(b))[i];
  }

  lemma LowerIdempotent(s: string)
    ensures Lower(Lower(s)) == Lower(s)
  {
    assert forall i :: 0 <= i < |s| ==> LowerChar(LowerChar(s[i])) == LowerChar(s[i]);
  }

  /** Only the text after the last '_' decides the kind. */
  lemma SuffixDecides(prefix: string, suffix: string)
    requires '_' !in suffix
    ensures ShortNameToTexType(prefix + "_" + suffix) == ShortNameToTexType(suffix)
  {
    LowerAppend(prefix + "_", suffix);
    LowerAppend(prefix, "_");
    assert Lower("_") == "_";
    assert '_' !in Lower(suffix) by {
      assert forall i :: 0 <= i < |suffix| ==> Lower(suffix)[i] == LowerChar(suffix[i]);
    }
    SplitLastAfter(Lower(prefix), Lower(suffix), '_');
    SplitNoSep(Lower(suffix), '_');
    assert Lower(prefix + "_" + suffix) == Lower(prefix) + ['_'] + Lower(suffix);
  }

  /** The classification ignores the case of ASCII letters. */
  lemma CaseInsensitive(shortName: string)
    ensures ShortNameToTexType(Lower(shortName)) == ShortNameToTexType(shortName)
  {
    LowerIdempotent(shortName);
  }

  /** Which suffixes give which kind, and that no other suffix is recognised. */
  lemma KindBySuffix(shortName: string)
    ensures var s := LastSegment(Lower(shortName));
            && (ShortNameToTexType(shortName) == Some(Diffuse) <==> s == "d")
            && (ShortNameToTexType(shortName) == Some(Normal) <==> s == "n")
            && (ShortNameToTexType(shortName) == Some(MRO) <==> s == "mro" || s == "mroa")
            && (ShortNameToTexType(shortName) == Some(SRO) <==> s == "sro")
            && (ShortNameToTexType(shortName) == Some(MROH) <==> s == "mroh" || s == "sroh")
            && (ShortNameToTexType(shortName).None? <==> s !in {"d", "n", "mro", "mroa", "sro", "mroh", "sroh"})
  {
  }

  /** A diffuse texture is always one that is processed. */
  lemma DiffuseIsProcessed(texType: string, shortName: string)
    requires IsDiffuseTexType(texType, shortName)
    ensures DoProcessTexture(texType, shortName)
  {
  }

  /** The kind of "prefix_suffix" is the table's entry for the lowered suffix. */
  lemma KindOfSuffix(prefix: string, suffix: string, lowered: string)
    requires '_' !in suffix && Lower(suffix) == lowered
    ensures ShortNameToTexType(prefix + "_" + suffix) == (if lowered in SuffixMap then Some(SuffixMap[lowered]) else None)
  {
    SuffixDecides(prefix, suffix);
    assert '_' !in lowered by {
      assert forall i :: 0 <= i < |suffix| ==> lowered[i] == LowerChar(suffix[i]);
    }
    SplitNoSep(lowered, '_');
  }

  /** Any name ending in "_D" is a diffuse texture. */
  lemma DiffuseExample(prefix: string)
    ensures ShortNameToTexType(prefix + "_D") == Some(Diffuse)
  {
    assert prefix + "_" + "D" == prefix + "_D";
    assert Lower("D") == "d";
    KindOfSuffix(prefix, "D", "d");
  }

  /** Any name ending in "_SROH" is wired as an MROH map. */
  lemma SrohExample(prefix: string)
    ensures ShortNameToTexType(prefix + "_SROH") == Some(MROH)
  {
    assert prefix + "_" + "SROH" == prefix + "_SROH";
    assert Lower("SROH") == "sroh";
    KindOfSuffix(prefix, "SROH", "sroh");
  }

  lemma LowerNormal()
    ensures Lower("Normal") == "normal"
  {
    var l := Lower("Normal");
    assert l[0] == 'n' && l[1] == 'o' && l[2] == 'r' && l[3] == 'm' && l[4] == 'a' && l[5] == 'l';
  }

  /** A full word is not a suffix the table knows. */
  lemma WordSuffixExample(prefix: string)
    ensures ShortNameToTexType(prefix + "_Normal") == None
  {
    assert prefix + "_" + "Normal" == prefix + "_Normal";
    LowerNormal();
    KindOfSuffix(prefix, "Normal", "normal");
  }

  /** The kinds named by the Pbr calls in a sequence. */
  predicate Named<B>(calls: seq<Call<B>>, t: TexMapType)
  {
    exists i :: 0 <= i < |calls| && calls[i].PbrCall? && ShortNameToTexType(calls[i].shortName) == Some(t)
  }

  /** Over any sequence of handler calls, every kind is wired at most once; a
      kind is wired exactly when some Pbr call names it and it was not already
      linked; and the linked set only grows. */
  lemma {:induction false} WiredOnce<M, B>(buf: StateBuffer<M, B>, mat: M, calls: seq<Call<B>>)
    requires mat in buf
    ensures var (buf', wired) := RunCalls(buf, mat, calls);
            && (forall i, j :: 0 <= i < j < |wired| ==> wired[i] != wired[j])
            && buf[mat].linkedMaps <= buf'[mat].linkedMaps
            && (forall i :: 0 <= i < |wired| ==> Some(wired[i]) in buf'[mat].linkedMaps)
            && (forall t :: t in wired <==> Some(t) !in buf[mat].linkedMaps && Named(calls, t))
    decreases |calls|
  {
    if |calls| > 0 {
      var step := Handle(buf, mat, calls[0]);
      WiredOnce(step.0, mat, calls[1..]);
      var rest := RunCalls(step.0, mat, calls[1..]);
      var wired := (if step.1.Some? then [step.1.value] else []) + rest.1;
      assert RunCalls(buf, mat, calls) == (rest.0, wired);
      NamedCons(calls);
    }
  }

  /** A kind is named by a call sequence iff its first call or the rest names it. */
  lemma NamedCons<B>(calls: seq<Call<B>>)
    requires |calls| > 0
    ensures forall t :: Named(calls, t) <==>
              (calls[0].PbrCall? && ShortNameToTexType(calls[0].shortName) == Some(t)) || Named(calls[1..], t)
  {
    forall t ensures Named(calls, t) <==>
                     (calls[0].PbrCall? && ShortNameToTexType(calls[0].shortName) == Some(t)) || Named(calls[1..], t)
    {
      if Named(calls, t) {
        var i :| 0 <= i < |calls| && calls[i].PbrCall? && ShortNameToTexType(calls[i].shortName) == Some(t);
        if i > 0 {
          assert calls[1..][i - 1] == calls[i];
        }
      }
      if Named(calls[1..], t) {
        var i :| 0 <= i < |calls[1..]| && calls[1..][i].PbrCall? && ShortNameToTexType(calls[1..][i].shortName) == Some(t);
        assert calls[i + 1] == calls[1..][i];
      }
    }
  }

  /** A whole material: create the context, make the handler calls, end it.
      The buffer is left as it was without the material, and defaults go to
      the last bsdf handed in, in PBR mode only. */
  lemma Lifecycle<M, B>(buf: StateBuffer<M, B>, mat: M, usePbr: bool, calls: seq<Call<B>>)
    ensures var (buf', _) := RunCalls(ProcessMaterial(buf, mat, usePbr), mat, calls);
            EndProcess(buf', mat)
            == (buf - {mat}, if usePbr && |calls| > 0 then Some(calls[|calls| - 1].bsdf) else None)
  {
    var start := ProcessMaterial(buf, mat, usePbr);
    var (buf', _) := RunCalls(start, mat, calls);
    assert buf' - {mat} == buf - {mat};
  }
}
