/** Records kept in the files of one directory: read file by file, the last write of an
    identifier winning; written back group by group.  A directory maps file names to the
    records parsed from them.  The file a record belongs to and the order of a load are
    parameters here. */
module GroupedFiles {
  import opened PyDict
  import opened StableSort
  import opened Text

  /** A YAML mapping: its `id` ("" when absent or falsy) and its other fields. */
  datatype Rec = Rec(id: string, fields: map<string, string>)

  type Directory = map<string, seq<Rec>>

  // ---------------------------------------------------------------------------------------
  // Loading
  // ---------------------------------------------------------------------------------------

  function Concat(files: Directory, names: seq<string>): seq<Rec>
    requires forall n :: n in names ==> n in files
  {
    if names == [] then [] else Concat(files, names[..|names| - 1]) + files[names[|names| - 1]]
  }

  /** Records by identifier: a repeated one keeps its first place and its last value; records
      without identifier are dropped. */
  function Seen(recs: seq<Rec>): (d: Dict<string, Rec>)
    ensures d.Valid()
  {
    if recs == [] then Empty() else
      var last := recs[|recs| - 1];
      var d := Seen(recs[..|recs| - 1]);
      if last.id == "" then d else d.Put(last.id, last)
  }

  /** All records, the files being read in the order of their names. */
  function All(files: Directory): seq<Rec> { Concat(files, SortedNames(files.Keys)) }

  function Kept(recs: seq<Rec>): seq<Rec> { Seen(recs).Values() }

  function LoadedBy(files: Directory, le: (Rec, Rec) -> bool): seq<Rec> {
    Sort(Kept(All(files)), le)
  }

  // ---------------------------------------------------------------------------------------
  // Saving
  // ---------------------------------------------------------------------------------------

  /** The records that belong into one file, in their order. */
  function Members(recs: seq<Rec>, home: Rec -> string, name: string): (ms: seq<Rec>)
    ensures forall r :: r in ms <==> r in recs && home(r) == name
  {
    if recs == [] then [] else
      assert recs == recs[..|recs| - 1] + [recs[|recs| - 1]];
      Members(recs[..|recs| - 1], home, name)
      + (if home(recs[|recs| - 1]) == name then [recs[|recs| - 1]] else [])
  }

  /** Every group with a member is written; all other files stay as they are. */
  function SavedBy(files: Directory, home: Rec -> string, le: (Rec, Rec) -> bool, recs: seq<Rec>): (out: Directory)
    ensures forall name :: name in out <==> name in files || Members(recs, home, name) != []
  {
    var homes := set r | r in recs :: home(r);
    forall name ensures name in homes <==> Members(recs, home, name) != [] {
      if name in homes {
        var r :| r in recs && home(r) == name;
        assert r in Members(recs, home, name);
      }
      if Members(recs, home, name) != [] {
        assert Members(recs, home, name)[0] in Members(recs, home, name);
      }
    }
    map name | name in files.Keys + homes ::
      if Members(recs, home, name) != [] then Sort(Members(recs, home, name), le) else files[name]
  }

  /** The content of one file after writing the groups. */
  ghost function Written(files: Directory, groups: map<string, seq<Rec>>, le: (Rec, Rec) -> bool,
                         name: string): seq<Rec>
    requires name in files || name in groups
  {
    if name in groups then Sort(groups[name], le) else files[name]
  }

  // ---------------------------------------------------------------------------------------
  // The loops
  // ---------------------------------------------------------------------------------------

  method ReadAll(files: Directory) returns (all: seq<Rec>)
    ensures all == All(files)
  {
    var names := SortedNames(files.Keys);
    all := [];
    for i := 0 to |names|
      invariant all == Concat(files, names[..i])
    {
      assert names[..i + 1][..i] == names[..i];
      all := all + files[names[i]];
    }
    assert names[..|names|] == names;
  }

  method KeepLast(all: seq<Rec>) returns (seen: Dict<string, Rec>)
    ensures seen == Seen(all)
  {
    seen := Empty();
    for i := 0 to |all|
      invariant seen.Valid() && seen == Seen(all[..i])
    {
      assert all[..i + 1][..i] == all[..i];
      if all[i].id != "" { seen := seen.Put(all[i].id, all[i]); }
    }
    assert all[..|all|] == all;
  }

  method Regroup(recs: seq<Rec>, home: Rec -> string) returns (groups: map<string, seq<Rec>>)
    ensures forall name :: name in groups <==> Members(recs, home, name) != []
    ensures forall name :: name in groups ==> groups[name] == Members(recs, home, name)
  {
    groups := map[];
    for i := 0 to |recs|
      invariant forall name :: name in groups <==> Members(recs[..i], home, name) != []
      invariant forall name :: name in groups ==> groups[name] == Members(recs[..i], home, name)
    {
      assert recs[..i + 1][..i] == recs[..i];
      var name := home(recs[i]);
      groups := groups[name := (if name in groups then groups[name] else []) + [recs[i]]];
    }
    assert recs[..|recs|] == recs;
  }

  lemma SavedIsWritten(files: Directory, home: Rec -> string, le: (Rec, Rec) -> bool, recs: seq<Rec>,
                       groups: map<string, seq<Rec>>, out: Directory)
    requires forall name :: name in groups <==> Members(recs, home, name) != []
    requires forall name :: name in groups ==> groups[name] == Members(recs, home, name)
    requires forall name :: name in out <==> name in files || name in groups
    requires forall name :: name in out ==> out[name] == Written(files, groups, le, name)
    ensures out == SavedBy(files, home, le, recs)
  {
  }
}
