/** Properties of the asset catalog database: how saved text reads back, and
    what `uid_for_entry` promises. */
module AssetDbProperties {
  import opened Wrappers
  import opened Strings
  import opened AssetDb

  // ---------------------------------------------------------------------------
  // Line splitting

  predicate EndsNl(s: string)
  {
    |s| > 0 && s[|s| - 1] == '\n'
  }

  /** Any newline in `s` is its last character. */
  predicate NlAtEndOnly(s: string)
  {
    forall i :: 0 <= i < |s| - 1 ==> s[i] != '\n'
  }

  /** The text of a field after it has been read back from a line. */
  function NormNl(s: string): (r: string)
    ensures EndsNl(r)
    ensures EndsNl(s) ==> r == s
    ensures !EndsNl(s) ==> r == s + "\n"
  {
    if EndsNl(s) then s else s + "\n"
  }

  lemma {:induction false} LinesConcat(text: string)
    ensures Concat(Lines(text)) == text
    decreases |text|
  {
    if |text| > 0 {
      var k := IndexOf(text, '\n');
      if k >= 0 {
        var first, rest := text[..k + 1], text[k + 1..];
        LinesConcat(rest);
        LinesSplitAt(text, k, first, rest);
        TakeDrop(text, k + 1);
        ConcatChain(Lines(text), Lines(rest), first, rest, text);
      } else {
        LastLine(text);
      }
    }
  }

  /** A non-empty text without a newline is a single line. */
  lemma LastLine(text: string)
    requires |text| > 0 && IndexOf(text, '\n') < 0
    ensures Lines(text) == [text] && Concat(Lines(text)) == text
  {
    ConcatCons(text, []);
    assert text + "" == text;
  }

  lemma ConcatChain(ls: seq<string>, restLines: seq<string>, first: string, rest: string, text: string)
    requires ls == [first] + restLines && Concat(restLines) == rest && first + rest == text
    ensures Concat(ls) == text
  {
    ConcatCons(first, restLines);
  }

  lemma ConcatCons(line: string, lines: seq<string>)
    ensures Concat([line] + lines) == line + Concat(lines)
  {
    assert ([line] + lines)[1..] == lines;
  }

  lemma TakeDrop<T>(s: seq<T>, i: nat)
    requires i <= |s|
    ensures s[..i] + s[i..] == s
  {
  }

  lemma {:induction false} LinesAppend(a: string, b: string)
    requires a == "" || EndsNl(a)
    ensures Lines(a + b) == Lines(a) + Lines(b)
    decreases |a|
  {
    if a == "" {
      assert a + b == b;
    } else {
      var k := IndexOf(a, '\n');
      NlFound(a, k);
      LinesAppend(a[k + 1..], b);
      LinesAppendStep(a, b, k);
    }
  }

  /** A text ending in a newline has one, and what follows its first one is
      empty or again ends in a newline. */
  lemma NlFound(a: string, k: int)
    requires EndsNl(a) && k == IndexOf(a, '\n')
    ensures 0 <= k < |a|
    ensures a[k + 1..] == "" || EndsNl(a[k + 1..])
  {
    assert a[|a| - 1] == '\n';
  }

  /** The first line of `a` is the first line of `a + b`. */
  lemma LinesAppendStep(a: string, b: string, k: int)
    requires k == IndexOf(a, '\n') && k >= 0
    requires Lines(a[k + 1..] + b) == Lines(a[k + 1..]) + Lines(b)
    ensures Lines(a + b) == Lines(a) + Lines(b)
  {
    IndexOfPrefix(a, b, '\n');
    SlicesOfAppend(a, b, k + 1);
    LinesSplitAt(a + b, k, a[..k + 1], a[k + 1..] + b);
    LinesSplitAt(a, k, a[..k + 1], a[k + 1..]);
    ConsChain(a[..k + 1], Lines(a), Lines(a + b), Lines(a[k + 1..]), Lines(a[k + 1..] + b), Lines(b));
  }

  lemma LinesSplitAt(text: string, k: int, first: string, rest: string)
    requires k == IndexOf(text, '\n') && k >= 0
    requires first == text[..k + 1] && rest == text[k + 1..]
    ensures Lines(text) == [first] + Lines(rest)
  {
  }

  /** `[x] + r + t`, regrouped. */
  lemma ConsChain<T>(x: T, la: seq<T>, lab: seq<T>, lrest: seq<T>, lrestb: seq<T>, lb: seq<T>)
    requires lab == [x] + lrestb && lrestb == lrest + lb && la == [x] + lrest
    ensures lab == la + lb
  {
  }

  lemma SlicesOfAppend<T>(a: seq<T>, b: seq<T>, i: nat)
    requires i <= |a|
    ensures (a + b)[..i] == a[..i] && (a + b)[i..] == a[i..] + b
  {
  }

  lemma {:induction false} IndexOfPrefix(a: string, b: string, c: char)
    requires IndexOf(a, c) >= 0
    ensures IndexOf(a + b, c) == IndexOf(a, c)
    decreases |a|
  {
    if a[0] != c {
      assert (a + b)[1..] == a[1..] + b;
      IndexOfPrefix(a[1..], b, c);
    }
  }

  lemma LinesOfLine(core: string)
    requires '\n' !in core
    ensures Lines(core + "\n") == [core + "\n"]
  {
    var t := core + "\n";
    assert IndexOf(t, '\n') == |core| by {
      assert t[|core|] == '\n';
      assert forall k :: 0 <= k < |core| ==> t[k] == core[k];
    }
    assert t[|core| + 1..] == "";
    assert t[..|core| + 1] == t;
  }

  /** A line whose last field may already end in a newline reads back as one
      line holding that field with exactly one newline, followed by a bare
      newline when there were two. */
  lemma FieldLines(prefix: string, last: string)
    requires '\n' !in prefix && NlAtEndOnly(last)
    ensures Lines(prefix + last + "\n")
            == [prefix + NormNl(last)] + (if EndsNl(last) then ["\n"] else [])
  {
    if EndsNl(last) {
      var core := prefix + last[..|last| - 1];
      assert '\n' !in core;
      assert prefix + last == core + "\n";
      LinesOfLine(core);
      LinesAppend(prefix + last, "\n");
      LinesOfLine("");
      assert "" + "\n" == "\n";
    } else {
      assert '\n' !in prefix + last;
      LinesOfLine(prefix + last);
      assert prefix + last + "\n" == prefix + NormNl(last);
    }
  }

  // ---------------------------------------------------------------------------
  // Parsing is a fold

  lemma {:induction false} ParseLinesAppend(db: Db, a: seq<string>, b: seq<string>)
    requires UniqueUids(db.catalogs)
    ensures ParseLines(db, a + b)
            == match ParseLines(db, a)
               case Err(e) => Err(e)
               case Ok(d) => ParseLines(d, b)
    decreases |a|
  {
    if |a| == 0 {
      assert a + b == b;
    } else {
      assert (a + b)[0] == a[0];
      assert (a + b)[1..] == a[1..] + b;
      match ParseLine(a[0])
      case Err(_) =>
      case Ok(k) => ParseLinesAppend(Apply(db, k), a[1..], b);
    }
  }

  // ---------------------------------------------------------------------------
  // Save, then open

  /** A catalog whose fields survive the line format: no field holds ':', the
      uid and full path hold no newline, the simple path at most a final one,
      and the line does not read as a comment. */
  predicate CleanEntry(e: Entry)
  {
    ':' !in e.uid && ':' !in e.fullPath && ':' !in e.simplePath
    && '\n' !in e.uid && '\n' !in e.fullPath && NlAtEndOnly(e.simplePath)
    && !StartsWith(e.uid, "#")
  }

  predicate CleanVersion(v: Version)
  {
    v.Parsed? ==> ':' !in v.text && ' ' !in v.text && NlAtEndOnly(v.text)
  }

  predicate AllClean(cats: seq<Entry>)
  {
    forall i :: 0 <= i < |cats| ==> CleanEntry(cats[i])
  }

  predicate CleanDb(db: Db)
  {
    CleanVersion(db.version) && AllClean(db.catalogs) && UniqueUids(db.catalogs)
  }

  function NormEntry(e: Entry): Entry
  {
    e.(simplePath := NormNl(e.simplePath))
  }

  function NormEntries(cats: seq<Entry>): (r: seq<Entry>)
    ensures |r| == |cats|
    ensures forall i :: 0 <= i < |cats| ==> r[i] == NormEntry(cats[i])
  {
    if |cats| == 0 then [] else [NormEntry(cats[0])] + NormEntries(cats[1..])
  }

  /** What a saved database reads back as: every value that ends a line gains
      the newline the reader does not strip. */
  function Normalised(db: Db): Db
  {
    Db(Parsed(NormNl(VersionText(db.version))), NormEntries(db.catalogs))
  }

  lemma JoinThree(a: string, b: string, c: string)
    ensures Join([a, b, c], ':') == a + ":" + b + ":" + c
  {
    assert Join([c], ':') == c;
    assert [b, c][1..] == [c];
    assert Join([b, c], ':') == b + [':'] + c;
    assert [a, b, c][1..] == [b, c];
    assert Join([a, b, c], ':') == a + [':'] + (b + [':'] + c);
  }

  lemma EntryLineParses(e: Entry)
    requires CleanEntry(e)
    ensures var line := e.uid + ":" + e.fullPath + ":" + NormNl(e.simplePath);
            ParseLine(line) == Ok(CatalogLine(NormEntry(e)))
  {
    var s := NormNl(e.simplePath);
    var line := e.uid + ":" + e.fullPath + ":" + s;
    assert ':' !in s;
    JoinThree(e.uid, e.fullPath, s);
    SplitJoin([e.uid, e.fullPath, s], ':');
    assert line != "\n" && line != "";
    assert !StartsWith(line, "#") by {
      if |e.uid| > 0 {
        assert line[0] == e.uid[0];
      } else {
        assert line[0] == ':';
      }
    }
  }

  /** The lines a saved catalog reads back as. */
  function EntryLineSeq(e: Entry): seq<string>
  {
    [e.uid + ":" + e.fullPath + ":" + NormNl(e.simplePath)]
    + (if EndsNl(e.simplePath) then ["\n"] else [])
  }

  function EntriesLineSeq(cats: seq<Entry>): seq<string>
  {
    if |cats| == 0 then [] else EntryLineSeq(cats[0]) + EntriesLineSeq(cats[1..])
  }

  lemma EntryLines(e: Entry)
    requires CleanEntry(e)
    ensures Lines(EntryText(e)) == EntryLineSeq(e)
  {
    var prefix := e.uid + ":" + e.fullPath + ":";
    assert '\n' !in prefix;
    assert EntryText(e) == prefix + e.simplePath + "\n";
    FieldLines(prefix, e.simplePath);
  }

  lemma {:induction false} EntriesLines(cats: seq<Entry>)
    requires AllClean(cats)
    ensures Lines(EntriesText(cats)) == EntriesLineSeq(cats)
    decreases |cats|
  {
    if |cats| > 0 {
      EntryLines(cats[0]);
      LinesAppend(EntryText(cats[0]), EntriesText(cats[1..]));
      assert AllClean(cats[1..]);
      EntriesLines(cats[1..]);
    }
  }

  lemma EntryReadsBack(db: Db, e: Entry)
    requires CleanEntry(e) && UniqueUids(db.catalogs) && e.uid !in Uids(db.catalogs)
    ensures UniqueUids(db.catalogs + [NormEntry(e)])
    ensures ParseLines(db, EntryLineSeq(e))
            == Ok(db.(catalogs := db.catalogs + [NormEntry(e)]))
  {
    assert db.catalogs + [NormEntry(e)] == Put(db.catalogs, NormEntry(e));
    EntryLineParses(e);
    var d := db.(catalogs := db.catalogs + [NormEntry(e)]);
    var ls := EntryLineSeq(e);
    if EndsNl(e.simplePath) {
      assert ParseLines(db, ls) == ParseLines(d, ["\n"]) by {
        assert ls[1..] == ["\n"];
      }
      assert ParseLine("\n") == Ok(Skip);
      assert |["\n"][1..]| == 0;
    } else {
      assert |ls[1..]| == 0;
    }
  }

  lemma {:induction false} EntriesReadBack(db: Db, rest: seq<Entry>)
    requires AllClean(rest) && UniqueUids(db.catalogs + rest)
    ensures UniqueUids(db.catalogs)
    ensures ParseLines(db, EntriesLineSeq(rest))
            == Ok(db.(catalogs := db.catalogs + NormEntries(rest)))
    decreases |rest|
  {
    PrefixUnique(db.catalogs, rest);
    if |rest| == 0 {
      assert db.catalogs + NormEntries(rest) == db.catalogs;
    } else {
      var e := rest[0];
      var d := db.(catalogs := db.catalogs + [NormEntry(e)]);
      assert UniqueUids(d.catalogs + rest[1..]) by {
        ShiftUnique(db.catalogs, rest);
      }
      assert ParseLines(db, EntriesLineSeq(rest)) == ParseLines(d, EntriesLineSeq(rest[1..])) by {
        NextUidIsNew(db.catalogs, rest);
        EntryReadsBack(db, e);
        ParseLinesAppend(db, EntryLineSeq(e), EntriesLineSeq(rest[1..]));
      }
      assert AllClean(rest[1..]);
      EntriesReadBack(d, rest[1..]);
      assert d.catalogs + NormEntries(rest[1..]) == db.catalogs + NormEntries(rest) by {
        assert NormEntries(rest) == [NormEntry(e)] + NormEntries(rest[1..]);
        ConcatAssoc(db.catalogs, [NormEntry(e)], NormEntries(rest[1..]));
      }
    }
  }

  lemma PrefixUnique(done: seq<Entry>, rest: seq<Entry>)
    requires UniqueUids(done + rest)
    ensures UniqueUids(done)
  {
    var all := done + rest;
    assert forall i :: 0 <= i < |done| ==> done[i] == all[i];
  }

  lemma NextUidIsNew(done: seq<Entry>, rest: seq<Entry>)
    requires |rest| > 0 && UniqueUids(done + rest)
    ensures rest[0].uid !in Uids(done)
  {
    var all := done + rest;
    forall i | 0 <= i < |done| ensures done[i].uid != rest[0].uid {
      assert all[i] == done[i] && all[|done|] == rest[0];
    }
  }

  /** Moving the next entry, normalised, from the pending part to the read
      part keeps the uids distinct. */
  lemma ShiftUnique(done: seq<Entry>, rest: seq<Entry>)
    requires |rest| > 0 && UniqueUids(done + rest)
    ensures UniqueUids(done + [NormEntry(rest[0])] + rest[1..])
  {
    var all := done + rest;
    var next := done + [NormEntry(rest[0])] + rest[1..];
    assert |next| == |all|;
    assert forall k :: 0 <= k < |all| ==> next[k].uid == all[k].uid;
  }

  lemma VersionLineParses(t: string)
    requires ':' !in t && ' ' !in t
    ensures ParseLine("VERSION " + t) == Ok(VersionLine(t))
  {
    var line := "VERSION " + t;
    assert ':' !in line;
    SplitNoSep(line, ':');
    assert line == "VERSION" + [' '] + t;
    SplitPrefix("VERSION", t, ' ');
    SplitNoSep(t, ' ');
    assert line[..1] == "V";
  }

  lemma VersionReadsBack(v: Version)
    requires CleanVersion(v)
    ensures ParseLines(EmptyDb, Lines("VERSION " + VersionText(v) + "\n"))
            == Ok(Db(Parsed(NormNl(VersionText(v))), []))
  {
    var t := VersionText(v);
    var t' := NormNl(t);
    assert ':' !in t && ' ' !in t && NlAtEndOnly(t);
    FieldLines("VERSION ", t);
    var line := "VERSION " + t';
    VersionLineParses(t');
    var d := Db(Parsed(t'), []);
    if EndsNl(t) {
      var ls := [line, "\n"];
      assert ls[1..] == ["\n"];
      assert ParseLine("\n") == Ok(Skip);
      assert |["\n"][1..]| == 0;
    } else {
      assert |[line][1..]| == 0;
    }
  }

  /** Saving a clean database and opening the saved file gives the database
      back, except that the version and every simple path gain the newline that
      ended their line if they did not already end in one. */
  lemma SaveOpenRoundTrip(db: Db)
    requires CleanDb(db)
    ensures OpenDb(Some(SaveDb(db))).0 == Ok(Normalised(db))
  {
    var header := "VERSION " + VersionText(db.version) + "\n";
    SavedLines(db);
    VersionReadsBack(db.version);
    ParseLinesAppend(EmptyDb, Lines(header), EntriesLineSeq(db.catalogs));
    EntriesReadBackFresh(Parsed(NormNl(VersionText(db.version))), db.catalogs);
  }

  /** The saved file's lines: the version line's, then each catalog's. */
  lemma SavedLines(db: Db)
    requires AllClean(db.catalogs)
    ensures Lines(SaveDb(db))
            == Lines("VERSION " + VersionText(db.version) + "\n") + EntriesLineSeq(db.catalogs)
  {
    var header := "VERSION " + VersionText(db.version) + "\n";
    LinesAppend(header, EntriesText(db.catalogs));
    EntriesLines(db.catalogs);
  }

  /** The catalog lines read into a database that has none yet. */
  lemma EntriesReadBackFresh(v: Version, cats: seq<Entry>)
    requires AllClean(cats) && UniqueUids(cats)
    ensures ParseLines(Db(v, []), EntriesLineSeq(cats)) == Ok(Db(v, NormEntries(cats)))
  {
    var d := Db(v, []);
    assert d.catalogs + cats == cats;
    EntriesReadBack(d, cats);
    assert d.catalogs + NormEntries(cats) == NormEntries(cats);
  }

  /** After one save and open the database is a fixed point: saving and opening
      again changes nothing. */
  lemma SaveOpenStable(db: Db)
    requires CleanDb(db)
    ensures CleanDb(Normalised(db))
    ensures OpenDb(Some(SaveDb(Normalised(db)))).0 == Ok(Normalised(db))
  {
    NormalisedClean(db);
    SaveOpenRoundTrip(Normalised(db));
    NormalisedIdempotent(db);
  }

  lemma NormalisedClean(db: Db)
    requires CleanDb(db)
    ensures CleanDb(Normalised(db))
  {
    var n := Normalised(db);
    forall i | 0 <= i < |n.catalogs| ensures CleanEntry(n.catalogs[i]) {
      NormEntryClean(db.catalogs[i]);
    }
    NormKeepsUids(db.catalogs);
    if db.version.Parsed? {
      NormNlClean(db.version.text);
    } else {
      NormNlClean("1");
    }
  }

  lemma NormKeepsUids(cats: seq<Entry>)
    requires UniqueUids(cats)
    ensures UniqueUids(NormEntries(cats))
  {
    assert forall i :: 0 <= i < |cats| ==> NormEntries(cats)[i].uid == cats[i].uid;
  }

  lemma NormEntryClean(e: Entry)
    requires CleanEntry(e)
    ensures CleanEntry(NormEntry(e))
  {
    NormNlClean(e.simplePath);
  }

  /** The added newline brings no ':' or ' ' and stays at the end. */
  lemma NormNlClean(s: string)
    requires NlAtEndOnly(s)
    ensures NlAtEndOnly(NormNl(s))
    ensures ':' !in s ==> ':' !in NormNl(s)
    ensures ' ' !in s ==> ' ' !in NormNl(s)
  {
  }

  lemma NormalisedIdempotent(db: Db)
    ensures Normalised(Normalised(db)) == Normalised(db)
  {
    var n := Normalised(db);
    assert NormEntries(n.catalogs) == n.catalogs;
  }

  /** A version line with no newline, as in a freshly created catalog file,
      reads back as that version with no newline, unlike one written by a
      save. */
  lemma BareVersionReadsBack(t: string)
    requires ':' !in t && ' ' !in t && '\n' !in t
    ensures OpenDb(Some("VERSION " + t)).0 == Ok(Db(Parsed(t), []))
  {
    var line := "VERSION " + t;
    assert '\n' !in line;
    assert IndexOf(line, '\n') == -1;
    assert Lines(line) == [line];
    VersionLineParses(t);
    var ls: seq<string> := [line];
    assert |ls[1..]| == 0;
    assert ParseLines(EmptyDb, ls) == ParseLines(Db(Parsed(t), []), ls[1..]);
  }

  /** Opening where there is no catalog file creates one holding "VERSION 1",
      which the next open reads as version "1". */
  lemma CreatedFileReadsBack()
    ensures OpenDb(None).1 == Some("VERSION " + "1")
    ensures OpenDb(Some("VERSION " + "1")).0 == Ok(Db(Parsed("1"), []))
  {
    assert "VERSION " + "1" == "VERSION 1";
    BareVersionReadsBack("1");
  }

  /** A line that is neither a comment, a catalog nor a version line makes the
      whole open fail. */
  lemma BadLineFailsOpen(text: string, line: string, rest: string)
    requires ParseLine(line).Err?
    requires line == "" || EndsNl(line)
    requires text == line + rest
    requires Lines(line) == [line]
    ensures OpenDb(Some(text)).0 == Err(NotImplementedError)
  {
    LinesAppend(line, rest);
    ParseLinesAppend(EmptyDb, [line], Lines(rest));
  }

  // ---------------------------------------------------------------------------
  // uid_for_entry

  lemma ReplaceIdempotent(s: string, a: char, b: char)
    requires a != b
    ensures ReplaceChar(ReplaceChar(s, a, b), a, b) == ReplaceChar(s, a, b)
  {
  }

  /** Backslashes and slashes are the same separator to `uid_for_entry`. */
  lemma UidForEntrySeparators(db: Db, dir: string, newUid: string)
    requires UniqueUids(db.catalogs)
    ensures UidForEntry(db, dir, newUid) == UidForEntry(db, ReplaceChar(dir, '\\', '/'), newUid)
  {
    ReplaceIdempotent(dir, '\\', '/');
  }

  /** Asking again for the same directory returns the same uid and changes
      nothing, whatever uid would be offered the second time. */
  lemma UidForEntryIdempotent(db: Db, dir: string, newUid: string, otherUid: string)
    requires UniqueUids(db.catalogs)
    ensures var (u, db') := UidForEntry(db, dir, newUid);
            UidForEntry(db', dir, otherUid) == (u, db')
  {
    var d := ReplaceChar(dir, '\\', '/');
    var (u, db') := UidForEntry(db, dir, newUid);
    if IndexOfPath(db.catalogs, d).None? {
      var e := Entry(newUid, d, ReplaceChar(d, '/', '-'));
      var cats := db.catalogs;
      if newUid in Uids(cats) {
        var k :| 0 <= k < |cats| && cats[k].uid == newUid;
        assert db'.catalogs[k] == e;
        assert forall i :: 0 <= i < |cats| && i != k ==> db'.catalogs[i].fullPath == cats[i].fullPath;
        assert IndexOfPath(db'.catalogs, d) == Some(k);
      } else {
        assert db'.catalogs == cats + [e];
        assert IndexOfPath(db'.catalogs, d) == Some(|cats|);
      }
    }
  }

  /** A directory not yet in the database, given a uid not yet in use, adds
      exactly one catalog at the end: the directory with '/' normalised, and
      its simple path with '/' turned into '-'. */
  lemma UidForEntryAppends(db: Db, dir: string, newUid: string)
    requires UniqueUids(db.catalogs) && newUid !in Uids(db.catalogs)
    requires forall i :: 0 <= i < |db.catalogs| ==> db.catalogs[i].fullPath != ReplaceChar(dir, '\\', '/')
    ensures var d := ReplaceChar(dir, '\\', '/');
            UidForEntry(db, dir, newUid)
            == (newUid, db.(catalogs := db.catalogs + [Entry(newUid, d, ReplaceChar(d, '/', '-'))]))
  {
  }
}
