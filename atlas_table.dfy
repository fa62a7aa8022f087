/**
 * The parsed AtlasInfo table and the four lookups of `Helper` (helper.py).
 *
 * The Lua table maps a sheet identifier to a table of parts, and a part name
 * to the part's Lua array. Lua's `pairs` order is whatever the runtime yields,
 * so the model takes the table as a sequence in that order and "the first
 * match" means the match at the smallest position.
 */
module AtlasTable {
  import opened Wrappers
  import opened Paths

  /** One entry of a part's Lua array: AtlasInfo.lua writes numbers, booleans and strings. */
  datatype Field = Num(n: real) | Flag(b: bool) | Text(s: string)

  /**
   * A part's Lua array, written `{width, height, left, right, top, bottom, ...}`
   * in AtlasInfo.lua; entry `fields[k]` sits at Lua key `k + 1`.
   */
  datatype Record = Record(fields: seq<Field>)

  /** A normalised rectangle: fractions of the sheet's width (left, right) and height (top, bottom). */
  datatype Rect = Rect(left: real, right: real, top: real, bottom: real)

  datatype Part = Part(name: string, record: Record)

  /** The parts of one sheet, in the order the Lua runtime enumerates them. */
  type PartMap = seq<Part>

  datatype Sheet = Sheet(id: string, parts: PartMap)

  /** The whole table, sheet by sheet, in the order the Lua runtime enumerates them. */
  type Table = seq<Sheet>

  /** Raised by every lookup of a `Helper` whose Lua file did not evaluate (its table is `None`). */
  datatype HelperError = TableNotLoaded

  /** `coords[key]` through the Lua bridge: the entry at Lua key `key`, or nil. */
  function Get(r: Record, key: int): (f: Option<Field>)
    ensures f.Some? <==> 1 <= key <= |r.fields|
    ensures f.Some? ==> f.value == r.fields[key - 1]
  {
    if 1 <= key <= |r.fields| then Some(r.fields[key - 1]) else None
  }

  /**
   * The number that `coords[key] * width` computes with: a boolean counts as
   * 0 or 1, and nil makes the multiplication raise. A string is taken as
   * raising too, which holds for every string except a non-empty run of
   * digits: Python repeats such a string `width` times and `int(...)` parses
   * the repetition.
   */
  function Coordinate(r: Record, key: int): Option<real> {
    match Get(r, key)
    case Some(Num(n)) => Some(n)
    case Some(Flag(b)) => Some(if b then 1.0 else 0.0)
    case _ => None
  }

  /** `coords[3], coords[4], coords[5], coords[6]` read as left, right, top, bottom. */
  function RectOf(r: Record): (rect: Option<Rect>)
    ensures rect.Some? <==> forall key :: 3 <= key <= 6 ==> Coordinate(r, key).Some?
  {
    match (Coordinate(r, 3), Coordinate(r, 4), Coordinate(r, 5), Coordinate(r, 6))
    case (Some(l), Some(rt), Some(t), Some(b)) => Some(Rect(l, rt, t, b))
    case _ => None
  }

  /**
   * The 3rd to 6th entries of a record (Lua keys 3 to 6, after width and
   * height) are read as left, right, top and bottom, in that order.
   */
  lemma RectOfReadsKeysThreeToSix(r: Record, left: real, right: real, top: real, bottom: real)
    requires |r.fields| >= 6
    requires r.fields[2..6] == [Num(left), Num(right), Num(top), Num(bottom)]
    ensures RectOf(r) == Some(Rect(left, right, top, bottom))
  {
    assert r.fields[2] == r.fields[2..6][0] && r.fields[3] == r.fields[2..6][1];
    assert r.fields[4] == r.fields[2..6][2] && r.fields[5] == r.fields[2..6][3];
  }

  /** `name in parts`: exact, case-sensitive key membership. */
  predicate HasPart(parts: PartMap, name: string) {
    exists i :: 0 <= i < |parts| && parts[i].name == name
  }

  /** Lua keys are unique: no part name occurs twice in a sheet. */
  predicate UniqueNames(parts: PartMap) {
    forall i, j :: 0 <= i < j < |parts| ==> parts[i].name != parts[j].name
  }

  /** Sheet identifiers are unique keys of the table. */
  predicate UniqueIds(t: Table) {
    forall i, j :: 0 <= i < j < |t| ==> t[i].id != t[j].id
  }

  /** `parts[name]`: the record of the first part called `name`. */
  function RecordOf(parts: PartMap, name: string): (r: Record)
    requires HasPart(parts, name)
    ensures exists i :: 0 <= i < |parts| && parts[i].name == name && parts[i].record == r
                        && forall j :: 0 <= j < i ==> parts[j].name != name
  {
    if parts[0].name == name then parts[0].record
    else
      assert HasPart(parts[1..], name) by {
        var i :| 0 <= i < |parts| && parts[i].name == name;
        assert parts[1..][i - 1].name == name;
      }
      var r := RecordOf(parts[1..], name);
      ghost var i :| 0 <= i < |parts[1..]| && parts[1..][i].name == name && parts[1..][i].record == r
                     && forall j :: 0 <= j < i ==> parts[1..][j].name != name;
      assert parts[i + 1].name == name && parts[i + 1].record == r;
      assert forall j :: 1 <= j < i + 1 ==> parts[j] == parts[1..][j - 1];
      r
  }

  /** With unique part names, `parts[name]` is the record of the part so named. */
  lemma RecordOfUnique(parts: PartMap, k: nat)
    requires UniqueNames(parts)
    requires k < |parts|
    ensures HasPart(parts, parts[k].name)
    ensures RecordOf(parts, parts[k].name) == parts[k].record
  {
    assert HasPart(parts, parts[k].name);
  }

  /** The first position at or after `from` whose sheet has a part called `name`. */
  function SheetWithPart(t: Table, name: string, from: nat): (i: Option<nat>)
    requires from <= |t|
    ensures i.Some? ==> from <= i.value < |t| && HasPart(t[i.value].parts, name)
    ensures i.Some? ==> forall j :: from <= j < i.value ==> !HasPart(t[j].parts, name)
    ensures i.None? ==> forall j :: from <= j < |t| ==> !HasPart(t[j].parts, name)
    decreases |t| - from
  {
    if from == |t| then None
    else if HasPart(t[from].parts, name) then Some(from)
    else SheetWithPart(t, name, from + 1)
  }

  /** The first position at or after `from` whose sheet identifier contains `needle`. */
  function SheetMatching(t: Table, needle: string, from: nat): (i: Option<nat>)
    requires from <= |t|
    ensures i.Some? ==> from <= i.value < |t| && Contains(t[i.value].id, needle)
    ensures i.Some? ==> forall j :: from <= j < i.value ==> !Contains(t[j].id, needle)
    ensures i.None? ==> forall j :: from <= j < |t| ==> !Contains(t[j].id, needle)
    decreases |t| - from
  {
    if from == |t| then None
    else if Contains(t[from].id, needle) then Some(from)
    else SheetMatching(t, needle, from + 1)
  }

  /** What `find_atlas_info` returns on a loaded table; `None` stands for `(None, None)`. */
  function AtlasInfo(t: Table, name: string): (r: Option<(string, Record)>)
    ensures r.None? <==> forall j :: 0 <= j < |t| ==> !HasPart(t[j].parts, name)
    ensures r.Some? ==> exists i :: 0 <= i < |t| && t[i].id == r.value.0 && HasPart(t[i].parts, name)
                                    && r.value.1 == RecordOf(t[i].parts, name)
                                    && forall j :: 0 <= j < i ==> !HasPart(t[j].parts, name)
  {
    match SheetWithPart(t, name, 0)
    case None => None
    case Some(i) => Some((t[i].id, RecordOf(t[i].parts, name)))
  }

  /** What `find_file_by_atlas_name` returns on a loaded table. */
  function FileByAtlasName(t: Table, name: string): (r: Option<string>)
    ensures r.None? <==> forall j :: 0 <= j < |t| ==> !HasPart(t[j].parts, name)
  {
    match SheetWithPart(t, name, 0)
    case None => None
    case Some(i) => Some(t[i].id)
  }

  /** What `find_file_by_name` returns on a loaded table. */
  function FileByName(t: Table, needle: string): (r: Option<string>)
    ensures r.None? <==> forall j :: 0 <= j < |t| ==> !Contains(t[j].id, needle)
    ensures r.Some? ==> exists i :: 0 <= i < |t| && t[i].id == r.value && Contains(r.value, needle)
                                    && forall j :: 0 <= j < i ==> !Contains(t[j].id, needle)
  {
    match SheetMatching(t, needle, 0)
    case None => None
    case Some(i) => Some(t[i].id)
  }

  /** What `find_atlas_by_file_name` returns on a loaded table. */
  function AtlasByFileName(t: Table, needle: string): (r: Option<PartMap>)
    ensures r.None? <==> forall j :: 0 <= j < |t| ==> !Contains(t[j].id, needle)
  {
    match SheetMatching(t, needle, 0)
    case None => None
    case Some(i) => Some(t[i].parts)
  }

  /** The part map stored under identifier `id` (its first sheet), if any. */
  function PartsOf(t: Table, id: string): Option<PartMap> {
    if t == [] then None
    else if t[0].id == id then Some(t[0].parts)
    else PartsOf(t[1..], id)
  }

  lemma {:induction false} PartsOfAt(t: Table, k: nat)
    requires UniqueIds(t)
    requires k < |t|
    ensures PartsOf(t, t[k].id) == Some(t[k].parts)
  {
    if k > 0 {
      assert t[0].id != t[k].id;
      assert t[1..][k - 1] == t[k];
      assert UniqueIds(t[1..]) by {
        forall i, j | 0 <= i < j < |t[1..]| ensures t[1..][i].id != t[1..][j].id {
          assert t[1..][i] == t[i + 1] && t[1..][j] == t[j + 1];
        }
      }
      PartsOfAt(t[1..], k - 1);
    }
  }

  /**
   * `find_file_by_atlas_name` names the same sheet as the first component of
   * `find_atlas_info`, and finds nothing exactly when it finds nothing.
   */
  lemma FileByAtlasNameAgreesWithAtlasInfo(t: Table, name: string)
    ensures FileByAtlasName(t, name).None? <==> AtlasInfo(t, name).None?
    ensures FileByAtlasName(t, name).Some? ==> FileByAtlasName(t, name).value == AtlasInfo(t, name).value.0
  {
  }

  /**
   * `find_atlas_by_file_name` finds a part map exactly when `find_file_by_name`
   * finds a sheet, and (identifiers being unique keys) it is the part map
   * stored under that sheet.
   */
  lemma AtlasByFileNameAgreesWithFileByName(t: Table, needle: string)
    requires UniqueIds(t)
    ensures AtlasByFileName(t, needle).None? <==> FileByName(t, needle).None?
    ensures FileByName(t, needle).Some? ==> AtlasByFileName(t, needle) == PartsOf(t, FileByName(t, needle).value)
  {
    match SheetMatching(t, needle, 0)
    case None =>
    case Some(i) => PartsOfAt(t, i);
  }

  /**
   * A sheet identifier always contains itself, so a lookup by an existing
   * identifier never fails; it may still return an earlier identifier that
   * contains the needle.
   */
  lemma ExistingIdIsFound(t: Table, k: nat)
    requires k < |t|
    ensures FileByName(t, t[k].id).Some?
    ensures AtlasByFileName(t, t[k].id).Some?
    ensures exists i :: 0 <= i <= k && FileByName(t, t[k].id) == Some(t[i].id)
                        && AtlasByFileName(t, t[k].id) == Some(t[i].parts)
  {
    ContainsItself(t[k].id);
    var i := SheetMatching(t, t[k].id, 0);
    assert i.Some? && i.value <= k;
  }

  /** Two identifiers contain the needle: the one enumerated first wins. */
  lemma FirstOfTwoMatchesWins()
    ensures var t := [Sheet("art/foo/bar/sheet1", []), Sheet("foo/bar", [])];
            FileByName(t, "foo/bar") == Some("art/foo/bar/sheet1")
  {
    var id := "art/foo/bar/sheet1";
    assert id[4..11] == "foo/bar";
    ContainsAt(id, "foo/bar", 4);
  }

  /** A part name is looked up by exact key: found in the one sheet that has it, absent otherwise. */
  lemma ExactNameLookup()
    ensures var rec := Record([Num(64.0), Num(32.0), Num(0.1), Num(0.5), Num(0.2), Num(0.6), Flag(false), Flag(false)]);
            var t := [Sheet("sheetA", [Part("foo", rec)])];
            && AtlasInfo(t, "foo") == Some(("sheetA", rec))
            && RectOf(rec) == Some(Rect(0.1, 0.5, 0.2, 0.6))
            && AtlasInfo(t, "bar").None?
  {
    var rec := Record([Num(64.0), Num(32.0), Num(0.1), Num(0.5), Num(0.2), Num(0.6), Flag(false), Flag(false)]);
    var t := [Sheet("sheetA", [Part("foo", rec)])];
    assert t[0].parts[0].name == "foo";
    assert HasPart(t[0].parts, "foo");
    assert "foo" != "bar";
  }

  /**
   * `Helper`: holds the name of the Lua file and the table it evaluated to.
   * Downloading and evaluating the file happen outside the model; the
   * constructor receives the evaluation's result.
   */
  class Helper {
    const luaFile: string
    const luaTable: Option<Table>

    /** `Helper(lua_file, download)`: an empty or absent file name falls back to the cache file. */
    constructor (luaFile: Option<string>, cacheFile: string, parsed: Option<Table>)
      ensures this.luaFile == if luaFile.Some? && luaFile.value != "" then luaFile.value else cacheFile
      ensures luaTable == parsed
    {
      this.luaFile := if luaFile.Some? && luaFile.value != "" then luaFile.value else cacheFile;
      luaTable := parsed;
    }

    /** `find_atlas_info`: the first sheet having a part `atlasName`, with that part's record. */
    method FindAtlasInfo(atlasName: string) returns (r: Result<Option<(string, Record)>, HelperError>)
      ensures luaTable.None? ==> r == Failure(TableNotLoaded)
      ensures luaTable.Some? ==> r == Success(AtlasInfo(luaTable.value, atlasName))
    {
      if luaTable.None? {
        return Failure(TableNotLoaded);
      }
      var t := luaTable.value;
      for i := 0 to |t|
        invariant forall j :: 0 <= j < i ==> !HasPart(t[j].parts, atlasName)
      {
        if HasPart(t[i].parts, atlasName) {
          return Success(Some((t[i].id, RecordOf(t[i].parts, atlasName))));
        }
      }
      return Success(None);
    }

    /** `find_atlas_by_file_name`: the part map of the first sheet whose identifier contains `fileName`. */
    method FindAtlasByFileName(fileName: string) returns (r: Result<Option<PartMap>, HelperError>)
      ensures luaTable.None? ==> r == Failure(TableNotLoaded)
      ensures luaTable.Some? ==> r == Success(AtlasByFileName(luaTable.value, fileName))
    {
      if luaTable.None? {
        return Failure(TableNotLoaded);
      }
      var t := luaTable.value;
      for i := 0 to |t|
        invariant forall j :: 0 <= j < i ==> !Contains(t[j].id, fileName)
      {
        if Contains(t[i].id, fileName) {
          return Success(Some(t[i].parts));
        }
      }
      return Success(None);
    }

    /** `find_file_by_name`: the first sheet identifier that contains `fileName`. */
    method FindFileByName(fileName: string) returns (r: Result<Option<string>, HelperError>)
      ensures luaTable.None? ==> r == Failure(TableNotLoaded)
      ensures luaTable.Some? ==> r == Success(FileByName(luaTable.value, fileName))
    {
      if luaTable.None? {
        return Failure(TableNotLoaded);
      }
      var t := luaTable.value;
      for i := 0 to |t|
        invariant forall j :: 0 <= j < i ==> !Contains(t[j].id, fileName)
      {
        if Contains(t[i].id, fileName) {
          return Success(Some(t[i].id));
        }
      }
      return Success(None);
    }

    /** `find_file_by_atlas_name`: the identifier of the first sheet having a part `atlasName`. */
    method FindFileByAtlasName(atlasName: string) returns (r: Result<Option<string>, HelperError>)
      ensures luaTable.None? ==> r == Failure(TableNotLoaded)
      ensures luaTable.Some? ==> r == Success(FileByAtlasName(luaTable.value, atlasName))
    {
      if luaTable.None? {
        return Failure(TableNotLoaded);
      }
      var t := luaTable.value;
      for i := 0 to |t|
        invariant forall j :: 0 <= j < i ==> !HasPart(t[j].parts, atlasName)
      {
        if HasPart(t[i].parts, atlasName) {
          return Success(Some(t[i].id));
        }
      }
      return Success(None);
    }
  }
}
