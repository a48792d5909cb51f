/** The YAML governance store: requirements and test cases kept as records in grouped files of
    one directory. */
module GovernanceYaml {
  import opened StableSort
  import opened Text
  import opened GroupedFiles

  datatype Kind = Requirements | Tests

  const UNRECOGNISED: nat := 9999

  // ---------------------------------------------------------------------------------------
  // Identifiers and groups
  // ---------------------------------------------------------------------------------------

  /** The number at the end of an identifier, where the pattern's end anchor also accepts the
      place before a final line feed. */
  function NumOf(id: string): nat {
    var body := if id != "" && id[|id| - 1] == '\n' then id[..|id| - 1] else id;
    var digits := TrailingDigits(body);
    if digits == "" then UNRECOGNISED else Parse(digits)
  }

  /** The middle parts of a namespaced identifier, or "default". */
  function Namespace(id: string): string {
    var parts := SplitOn(id, '-');
    if |parts| >= 3 && parts[|parts| - 1] != "" && AllDigits(parts[|parts| - 1])
    then Lower(Join(parts[1..|parts| - 1], "-"))
    else "default"
  }

  /** File stem for a plain number, from the table of ranges. */
  function GroupForNumber(n: nat): string {
    if 1 <= n <= 64 then "governance"
    else if 65 <= n <= 129 then "agent"
    else if 130 <= n <= 160 then "harness"
    else if 161 <= n <= 220 then "intelligence"
    else if 244 <= n <= 247 then "context"
    else if 248 <= n <= 262 then "esdb"
    else if 263 <= n <= 299 then "ai_intelligence"
    else if 300 <= n <= 399 then "yaml_governance"
    else "overflow"
  }

  function GroupForReq(id: string): string {
    var ns := Namespace(id);
    if ns != "default" then ns else GroupForNumber(NumOf(id))
  }

  function Group(kind: Kind, r: Rec): string {
    match kind
    case Requirements => GroupForReq(r.id)
    case Tests =>
      if "requirement_id" in r.fields && r.fields["requirement_id"] != ""
      then GroupForReq(r.fields["requirement_id"]) else "overflow"
  }

  function FileName(stem: string): string { stem + ".yml" }

  /** The file a record is written to. */
  function Home(kind: Kind, r: Rec): string { FileName(Group(kind, r)) }

  predicate ByNum(x: Rec, y: Rec) { NumOf(x.id) <= NumOf(y.id) }

  function HomeOf(kind: Kind): Rec -> string { (r: Rec) => Home(kind, r) }

  function Loaded(files: Directory): seq<Rec> { LoadedBy(files, ByNum) }

  function Saved(files: Directory, kind: Kind, recs: seq<Rec>): Directory {
    SavedBy(files, HomeOf(kind), ByNum, recs)
  }

  // ---------------------------------------------------------------------------------------
  // New identifiers
  // ---------------------------------------------------------------------------------------

  /** The largest recognised number plus one. */
  function NextNum(recs: seq<Rec>): (n: nat)
    ensures 1 <= n <= UNRECOGNISED
  {
    if recs == [] then 1 else
      var n := NumOf(recs[|recs| - 1].id);
      var m := NextNum(recs[..|recs| - 1]);
      if n < UNRECOGNISED && n + 1 > m then n + 1 else m
  }

  lemma NextNumAfter(recs: seq<Rec>, i: nat)
    requires i < |recs|
    ensures var n, m := NumOf(recs[i].id), NextNum(recs[..i]);
      NextNum(recs[..i + 1]) == if n < UNRECOGNISED && n + 1 > m then n + 1 else m
  {
    assert recs[..i + 1][..i] == recs[..i];
  }

  function Prefix(kind: Kind): string {
    match kind case Requirements => "REQ-" case Tests => "TEST-"
  }

  function IdFor(kind: Kind, n: nat): string { Prefix(kind) + Padded(n, 3) }

  function NextId(kind: Kind, recs: seq<Rec>): string { IdFor(kind, NextNum(recs)) }

  class YamlStore {
    const kind: Kind
    const yamlMode: bool
    var files: Directory

    constructor (kind: Kind, yamlMode: bool, files: Directory)
      ensures this.kind == kind && this.yamlMode == yamlMode && this.files == files
    {
      this.kind, this.yamlMode, this.files := kind, yamlMode, files;
    }

    method Load() returns (recs: seq<Rec>)
      ensures recs == Loaded(files)
    {
      var all := ReadAll(files);
      var seen := KeepLast(all);
      recs := Sort(seen.Values(), ByNum);
    }

    method Save(recs: seq<Rec>)
      modifies this`files
      ensures files == Saved(old(files), kind, recs)
    {
      var groups := Regroup(recs, HomeOf(kind));
      WriteGroups(groups, ByNum);
      SavedIsWritten(old(files), HomeOf(kind), ByNum, recs, groups, files);
    }

    method WriteGroups(groups: map<string, seq<Rec>>, le: (Rec, Rec) -> bool)
      modifies this`files
      ensures forall name :: name in files <==> name in old(files) || name in groups
      ensures forall name :: name in files ==> files[name] == Written(old(files), groups, le, name)
    {
      ghost var start := files;
      var todo := groups.Keys;
      while todo != {}
        invariant forall name :: name in todo ==> name in groups
        invariant forall name :: name in files <==> name in start || (name in groups && name !in todo)
        invariant forall name :: name in files && name in todo ==> files[name] == start[name]
        invariant forall name :: name in files && name !in todo ==> files[name] == Written(start, groups, le, name)
        decreases |todo|
      {
        var name :| name in todo;
        var items := Sort(groups[name], le);
        files := files[name := items];
        todo := todo - {name};
      }
    }

    /** `next_req_id` and `next_test_id`. */
    method NextFreeId() returns (id: string)
      ensures id == NextId(kind, Loaded(files))
    {
      var recs := Load();
      var next := FreeNumber(recs);
      id := IdFor(kind, next);
    }

    method FreeNumber(recs: seq<Rec>) returns (next: nat)
      ensures next == NextNum(recs)
    {
      next := 1;
      for i := 0 to |recs|
        invariant next == NextNum(recs[..i])
      {
        var n := NumOf(recs[i].id);
        NextNumAfter(recs, i);
        if n < UNRECOGNISED && n + 1 > next { next := n + 1; }
      }
      assert recs[..|recs|] == recs;
    }

    /** `add_requirement` and `add_test`: refused outside YAML mode; a given identifier is used
        unless it is empty. */
    method Add(fields: map<string, string>, given: string) returns (ok: bool, id: string)
      modifies this`files
      ensures ok == yamlMode
      ensures !ok ==> files == old(files)
      ensures ok ==> id == (if given != "" then given else NextId(kind, Loaded(old(files))))
      ensures ok ==> files == Saved(old(files), kind, Loaded(old(files)) + [Rec(id, fields)])
    {
      ok, id := yamlMode, given;
      if !ok { return; }
      if id == "" { id := NextFreeId(); }
      var recs := Load();
      Save(recs + [Rec(id, fields)]);
    }
  }
}
