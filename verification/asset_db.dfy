/** The asset catalog database: a text file with a `VERSION v` line and one
    `uid:full_path:simple_path` line per catalog, parsed line by line into an
    insertion-ordered map from uid to paths.

    File access is left to the caller: opening takes the file's text (or None
    when there is no file) and saving returns the text to write. Fresh uids come
    from the caller too. */
module AssetDb {
  import opened Wrappers
  import opened Strings

  datatype Entry = Entry(uid: string, fullPath: string, simplePath: string)

  /** The version as held in memory: the integer 1 of a new database, or the
      text after "VERSION " on a parsed line, newline included. */
  datatype Version = Initial | Parsed(text: string)

  /** The database. `catalogs` is in insertion order with distinct uids, as the
      keys of a Python dict. */
  datatype Db = Db(version: Version, catalogs: seq<Entry>)

  const EmptyDb := Db(Initial, [])

  predicate UniqueUids(cats: seq<Entry>)
  {
    forall i, j :: 0 <= i < j < |cats| ==> cats[i].uid != cats[j].uid
  }

  function Uids(cats: seq<Entry>): set<string>
  {
    set i | 0 <= i < |cats| :: cats[i].uid
  }

  /** Position of the entry with this uid. */
  function IndexOfUid(cats: seq<Entry>, uid: string): (r: Option<nat>)
    ensures r.Some? ==> r.value < |cats| && cats[r.value].uid == uid
    ensures r.None? ==> forall i :: 0 <= i < |cats| ==> cats[i].uid != uid
  {
    if |cats| == 0 then None
    else if cats[0].uid == uid then Some(0)
    else match IndexOfUid(cats[1..], uid)
      case None => None
      case Some(k) => Some(k + 1)
  }

  /** `catalogs[uid] = (full, simple)`: a new uid is appended, a known one is
      overwritten where it stands. */
  function Put(cats: seq<Entry>, e: Entry): (r: seq<Entry>)
    requires UniqueUids(cats)
    ensures UniqueUids(r)
    ensures Uids(r) == Uids(cats) + {e.uid}
    ensures e.uid !in Uids(cats) ==> r == cats + [e]
    ensures e.uid in Uids(cats) ==>
              |r| == |cats|
              && forall i :: 0 <= i < |cats| ==> r[i] == (if cats[i].uid == e.uid then e else cats[i])
  {
    match IndexOfUid(cats, e.uid)
    case None =>
      assert e.uid !in Uids(cats);
      var r := cats + [e];
      assert Uids(r) == Uids(cats) + {e.uid} by {
        assert forall i :: 0 <= i < |cats| ==> r[i] == cats[i];
        assert r[|cats|] == e;
      }
      r
    case Some(k) =>
      var r := cats[k := e];
      assert e.uid in Uids(cats);
      assert Uids(r) == Uids(cats) by {
        forall u | u in Uids(cats) ensures u in Uids(r) {
          var i :| 0 <= i < |cats| && cats[i].uid == u;
          assert r[i].uid == u;
        }
      }
      r
  }

  // ---------------------------------------------------------------------------
  // Reading

  /** Index of the first `c` in `s`, or -1. */
  function IndexOf(s: string, c: char): (r: int)
    ensures -1 <= r < |s|
    ensures r >= 0 ==> s[r] == c
    ensures forall k :: 0 <= k < |s| && (r < 0 || k < r) ==> s[k] != c
  {
    if |s| == 0 then -1
    else if s[0] == c then 0
    else
      var k := IndexOf(s[1..], c);
      if k < 0 then -1 else k + 1
  }

  /** `file.readlines()`: the text cut after every newline, the newlines kept. */
  function Lines(text: string): seq<string>
    decreases |text|
  {
    if |text| == 0 then []
    else
      var k := IndexOf(text, '\n');
      if k < 0 then [text] else [text[..k + 1]] + Lines(text[k + 1..])
  }

  function Concat(lines: seq<string>): string
  {
    if |lines| == 0 then "" else lines[0] + Concat(lines[1..])
  }

  /** What one line means. */
  datatype LineKind = Skip | CatalogLine(entry: Entry) | VersionLine(text: string)

  /** The exception a line the format does not allow raises. */
  datatype DbError = NotImplementedError

  /** One line of the file: comments and bare newlines are skipped; a line of
      exactly three ':'-separated fields is a catalog; a line of exactly two
      ' '-separated fields starting with VERSION sets the version. Nothing is
      stripped, so the last field keeps the line's newline. */
  function ParseLine(line: string): (r: Result<LineKind, DbError>)
    ensures r == Ok(Skip) <==> line == "" || StartsWith(line, "#") || line == "\n"
    ensures r.Ok? && r.value.CatalogLine? ==>
              Join([r.value.entry.uid, r.value.entry.fullPath, r.value.entry.simplePath], ':') == line
    ensures r.Ok? && r.value.VersionLine? ==> "VERSION " + r.value.text == line
    ensures r.Ok? && r.value.CatalogLine? ==> Count(line, ':') == 2
    ensures r.Ok? && r.value.VersionLine? ==> Count(line, ':') != 2
    ensures r.Err? <==> !(line == "" || StartsWith(line, "#") || line == "\n")
                        && Count(line, ':') != 2
                        && (Count(line, ' ') != 1 || Split(line, ' ')[0] != "VERSION")
  {
    if line == "" || StartsWith(line, "#") || line == "\n" then Ok(Skip)
    else
      var parts := Split(line, ':');
      if |parts| == 3 then
        JoinSplit(line, ':');
        assert parts == [parts[0], parts[1], parts[2]];
        Ok(CatalogLine(Entry(parts[0], parts[1], parts[2])))
      else
        var words := Split(line, ' ');
        if |words| == 2 && words[0] == "VERSION" then
          JoinSplit(line, ' ');
          Ok(VersionLine(words[1]))
        else Err(NotImplementedError)
  }

  function Apply(db: Db, k: LineKind): Db
    requires UniqueUids(db.catalogs)
  {
    match k
    case Skip => db
    case CatalogLine(e) => db.(catalogs := Put(db.catalogs, e))
    case VersionLine(t) => db.(version := Parsed(t))
  }

  /** The reading loop of `_open_db`: lines applied in order; the first bad
      line raises. */
  function ParseLines(db: Db, lines: seq<string>): (r: Result<Db, DbError>)
    requires UniqueUids(db.catalogs)
    ensures r.Ok? ==> UniqueUids(r.value.catalogs)
    decreases |lines|
  {
    if |lines| == 0 then Ok(db)
    else match ParseLine(lines[0])
      case Err(err) => Err(err)
      case Ok(k) => ParseLines(Apply(db, k), lines[1..])
  }

  /** `AssetDB(root)`: with no catalog file, a new file holding just
      "VERSION 1" (no newline) is written and the database is empty at
      version 1; otherwise the file's lines are parsed. */
  function OpenDb(file: Option<string>): (r: (Result<Db, DbError>, Option<string>))
    ensures file.None? ==> r == (Ok(EmptyDb), Some("VERSION 1"))
    ensures file.Some? ==> r.1.None?
  {
    match file
    case None => (Ok(EmptyDb), Some("VERSION 1"))
    case Some(text) => (ParseLines(EmptyDb, Lines(text)), None)
  }

  // ---------------------------------------------------------------------------
  // Writing

  function VersionText(v: Version): string
  {
    match v
    case Initial => "1"
    case Parsed(t) => t
  }

  function EntryText(e: Entry): string
  {
    e.uid + ":" + e.fullPath + ":" + e.simplePath + "\n"
  }

  /** One line of text per catalog entry, in catalog order. */
  function EntryTexts(cats: seq<Entry>): (r: seq<string>)
    ensures |r| == |cats|
    ensures forall i :: 0 <= i < |cats| ==> r[i] == EntryText(cats[i])
  {
    seq(|cats|, i requires 0 <= i < |cats| => EntryText(cats[i]))
  }

  function EntriesText(cats: seq<Entry>): (r: string)
    ensures r == Concat(EntryTexts(cats))
  {
    if |cats| == 0 then ""
    else
      assert EntryTexts(cats)[1..] == EntryTexts(cats[1..]);
      EntryText(cats[0]) + EntriesText(cats[1..])
  }

  /** `save_db`: the text written to the catalog file, a version line and then
      one "uid:full:simple" line per catalog entry, in catalog order. */
  function SaveDb(db: Db): (r: string)
    ensures r == "VERSION " + VersionText(db.version) + "\n" + Concat(EntryTexts(db.catalogs))
  {
    "VERSION " + VersionText(db.version) + "\n" + EntriesText(db.catalogs)
  }

  // ---------------------------------------------------------------------------
  // Lookup or insert

  /** Position of the first catalog whose full path is `dir`. */
  function IndexOfPath(cats: seq<Entry>, dir: string): (r: Option<nat>)
    ensures r.Some? ==> r.value < |cats| && cats[r.value].fullPath == dir
                        && forall i :: 0 <= i < r.value ==> cats[i].fullPath != dir
    ensures r.None? ==> forall i :: 0 <= i < |cats| ==> cats[i].fullPath != dir
  {
    if |cats| == 0 then None
    else if cats[0].fullPath == dir then Some(0)
    else match IndexOfPath(cats[1..], dir)
      case None => None
      case Some(k) => Some(k + 1)
  }

  /** `uid_for_entry`: the uid of the catalog for `dir` (backslashes read as
      slashes), creating it with the uid `newUid` when there is none. */
  function UidForEntry(db: Db, dir: string, newUid: string): (r: (string, Db))
    requires UniqueUids(db.catalogs)
    ensures UniqueUids(r.1.catalogs) && r.1.version == db.version
    ensures var d := ReplaceChar(dir, '\\', '/');
            match IndexOfPath(db.catalogs, d)
            case Some(i) => r == (db.catalogs[i].uid, db)
            case None => r.0 == newUid && r.1.catalogs == Put(db.catalogs, Entry(newUid, d, ReplaceChar(d, '/', '-')))
  {
    var d := ReplaceChar(dir, '\\', '/');
    match IndexOfPath(db.catalogs, d)
    case Some(i) => (db.catalogs[i].uid, db)
    case None => (newUid, db.(catalogs := Put(db.catalogs, Entry(newUid, d, ReplaceChar(d, '/', '-')))))
  }
}
