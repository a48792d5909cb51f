/** The record sweep: tombstones expired records and orphans in the project's record store. */
module EsdbSweep {
  import opened Options
  import opened Text

  datatype Kind =
    | SessionMetric | ContextUsage | LedgerEvent | SealRecord | TokenMetric | EfficiencyMetric | TokenUsage
    | WorkItem | PreflightDecision | OtherKind(name: string)

  datatype Status = Active | Tombstone | OtherStatus(name: string)

  datatype Branch = Main | Side(name: string)

  /** The fields of a record's data the sweep reads, empty where missing. */
  datatype Data = Data(timestamp: string, computedAt: string, createdAt: string, workItemId: string, wiId: string)

  datatype Record = Record(kind: Kind, status: Status, data: Data)

  /** The same id may occur on several branches. */
  datatype Key = Key(id: string, branch: Branch)

  type Records = map<Key, Record>

  datatype Retention = Retention(kind: Kind, days: Option<nat>)

  const RETENTION: seq<Retention> := [
    Retention(SessionMetric, Some(60)), Retention(ContextUsage, Some(30)), Retention(LedgerEvent, Some(90)),
    Retention(SealRecord, None), Retention(TokenMetric, None), Retention(EfficiencyMetric, None),
    Retention(TokenUsage, None)]

  const EFF_CURRENT := Key("EFF-CURRENT", Main)

  function Or(first: string, otherwise: string): string { if first != "" then first else otherwise }

  function Stamp(d: Data): string { Or(d.timestamp, Or(d.computedAt, d.createdAt)) }

  function Parent(d: Data): string { Or(d.workItemId, d.wiId) }

  // ---------------------------------------------------------------------------------------
  // What the sweep does to the records
  // ---------------------------------------------------------------------------------------

  predicate IsActive(r: Record, kind: Kind) { r.kind == kind && r.status == Active }

  /** Stamped before the limit, as texts compare. */
  predicate IsExpired(r: Record, kind: Kind, limit: string) {
    IsActive(r, kind) && Stamp(r.data) != "" && !LexLe(limit, Stamp(r.data))
  }

  function Expired(rs: Records, kind: Kind, limit: string): set<Key> {
    set k | k in rs && IsExpired(rs[k], kind, limit)
  }

  function Ids(keys: set<Key>): set<string> { set k | k in keys :: k.id }

  /** Deleting ids tombstones their records on the main branch. */
  function Tombstoned(rs: Records, ids: set<string>): (out: Records)
    ensures out.Keys == rs.Keys
  {
    map k | k in rs :: if k.branch == Main && k.id in ids then rs[k].(status := Tombstone) else rs[k]
  }

  datatype Retired = Retired(records: Records, count: nat, kinds: map<Kind, nat>)

  /** The retention phase: kind by kind; the limit for a number of days is given by the clock. */
  function Retire(rs: Records, entries: seq<Retention>, limit: nat -> string, dry: bool): Retired {
    if entries == [] then Retired(rs, 0, map[])
    else RetireKind(Retire(rs, entries[..|entries| - 1], limit, dry), entries[|entries| - 1], limit, dry)
  }

  function RetireKind(p: Retired, e: Retention, limit: nat -> string, dry: bool): Retired {
    if e.days == None then p
    else
      var keys := Expired(p.records, e.kind, limit(e.days.value));
      if keys == {} then p
      else
        Retired(if dry then p.records else Tombstoned(p.records, Ids(keys)), p.count + |keys|,
                p.kinds[e.kind := |keys|])
  }

  function ActiveItems(rs: Records): set<string> { set k | k in rs && IsActive(rs[k], WorkItem) :: k.id }

  /** Work items that are missing from the work-item file. */
  function OrphanItems(rs: Records, file: set<string>): set<string> { ActiveItems(rs) - file }

  predicate IsOrphan(r: Record, known: set<string>) {
    IsActive(r, PreflightDecision) && Parent(r.data) != "" && Parent(r.data) !in known
  }

  /** Preflight decisions whose parent is neither an active record nor in the file, both as they
      were before any orphan was deleted. */
  function OrphanPreflights(rs: Records, file: set<string>): set<Key> {
    set k | k in rs && IsOrphan(rs[k], ActiveItems(rs) + file)
  }

  function Purged(rs: Records, file: set<string>): Records {
    Tombstoned(rs, OrphanItems(rs, file) + Ids(OrphanPreflights(rs, file)))
  }

  function Refreshed(rs: Records, current: Option<Data>): Records {
    if current.Some? then rs[EFF_CURRENT := Record(EfficiencyMetric, Active, current.value)] else rs
  }

  function AfterRetention(rs: Records, entries: seq<Retention>, limit: nat -> string, orphansOnly: bool,
                          dry: bool): Retired {
    if orphansOnly then Retired(rs, 0, map[]) else Retire(rs, entries, limit, dry)
  }

  /** The records after a sweep that is no dry run; `current` is what the efficiency refresh
      computes, if it succeeds. */
  function Swept(rs: Records, entries: seq<Retention>, file: set<string>, limit: nat -> string, orphansOnly: bool,
                 current: Option<Data>): Records
  {
    var purged := Purged(AfterRetention(rs, entries, limit, orphansOnly, false).records, file);
    if orphansOnly then purged else Refreshed(purged, current)
  }

  datatype SweepResult = SweepResult(tombstoned: nat, orphans: nat, refreshed: bool, kinds: map<Kind, nat>)

  function Report(rs: Records, entries: seq<Retention>, file: set<string>, limit: nat -> string, orphansOnly: bool,
                  dry: bool, current: Option<Data>): SweepResult
  {
    var p := AfterRetention(rs, entries, limit, orphansOnly, dry);
    SweepResult(p.count, |OrphanItems(p.records, file)| + |OrphanPreflights(p.records, file)|,
                !orphansOnly && !dry && current.Some?, p.kinds)
  }

  lemma {:induction false} DryKeepsRecords(rs: Records, entries: seq<Retention>, limit: nat -> string)
    ensures Retire(rs, entries, limit, true).records == rs
  {
    if entries != [] { DryKeepsRecords(rs, entries[..|entries| - 1], limit); }
  }

  // ---------------------------------------------------------------------------------------
  // The sweep itself
  // ---------------------------------------------------------------------------------------

  class SqliteStore {
    var records: Records

    constructor (records: Records)
      ensures this.records == records
    {
      this.records := records;
    }

    method Delete(id: string)
      modifies this
      ensures records == Tombstoned(old(records), {id})
    {
      if Key(id, Main) in records {
        records := records[Key(id, Main) := records[Key(id, Main)].(status := Tombstone)];
      }
    }

    /** Active records of a kind, on all branches. */
    method Query(kind: Kind) returns (keys: set<Key>)
      ensures keys == set k | k in records && IsActive(records[k], kind)
    {
      keys := set k | k in records && IsActive(records[k], kind);
    }

    method DeleteAll(ids: set<string>)
      modifies this
      ensures records == Tombstoned(old(records), ids)
    {
      var todo := ids;
      NothingTombstoned(records);
      while todo != {}
        invariant todo <= ids
        invariant records == Tombstoned(old(records), ids - todo)
        decreases |todo|
      {
        var id :| id in todo;
        OneMoreTombstoned(old(records), ids - todo, id);
        Delete(id);
        assert ids - (todo - {id}) == (ids - todo) + {id};
        todo := todo - {id};
      }
      assert ids - {} == ids;
    }

    method RunSweep(file: set<string>, limit: nat -> string, orphansOnly: bool, dry: bool, current: Option<Data>)
      returns (result: SweepResult)
      modifies this
      ensures records == if dry then old(records) else Swept(old(records), RETENTION, file, limit, orphansOnly, current)
      ensures result == Report(old(records), RETENTION, file, limit, orphansOnly, dry, current)
    {
      result := Sweep(RETENTION, file, limit, orphansOnly, dry, current);
    }

    method Sweep(entries: seq<Retention>, file: set<string>, limit: nat -> string, orphansOnly: bool, dry: bool,
                 current: Option<Data>)
      returns (result: SweepResult)
      modifies this
      ensures records == if dry then old(records) else Swept(old(records), entries, file, limit, orphansOnly, current)
      ensures result == Report(old(records), entries, file, limit, orphansOnly, dry, current)
    {
      var p, orphans := Flag(entries, file, limit, orphansOnly, dry);
      var refreshed := !orphansOnly && !dry && current.Some?;
      if refreshed { records := records[EFF_CURRENT := Record(EfficiencyMetric, Active, current.value)]; }
      result := SweepResult(p.count, orphans, refreshed, p.kinds);
    }

    /** Both tombstoning phases. */
    method Flag(entries: seq<Retention>, file: set<string>, limit: nat -> string, orphansOnly: bool, dry: bool)
      returns (p: Retired, orphans: nat)
      modifies this
      ensures p == AfterRetention(old(records), entries, limit, orphansOnly, dry)
      ensures orphans == |OrphanItems(p.records, file)| + |OrphanPreflights(p.records, file)|
      ensures records == if dry then old(records) else Purged(p.records, file)
    {
      p := Retired(records, 0, map[]);
      if !orphansOnly {
        var count, kinds := RetireAll(entries, limit, dry);
        p := Retired(records, count, kinds);
        DryKeepsRecords(old(records), entries, limit);
      }
      orphans := PurgeOrphans(file, dry);
    }

    method RetireAll(entries: seq<Retention>, limit: nat -> string, dry: bool)
      returns (count: nat, kinds: map<Kind, nat>)
      modifies this
      ensures Retired(records, count, kinds) == Retire(old(records), entries, limit, dry)
    {
      count, kinds := 0, map[];
      for i := 0 to |entries|
        invariant Retired(records, count, kinds) == Retire(old(records), entries[..i], limit, dry)
      {
        assert entries[..i + 1][..i] == entries[..i];
        if entries[i].days.Some? {
          var swept := RetireOne(entries[i].kind, limit(entries[i].days.value), dry);
          if swept > 0 {
            count, kinds := count + swept, kinds[entries[i].kind := swept];
          }
        }
      }
      assert entries[..|entries|] == entries;
    }

    method RetireOne(kind: Kind, limit: string, dry: bool) returns (swept: nat)
      modifies this
      ensures swept == |Expired(old(records), kind, limit)|
      ensures records == if dry then old(records) else Tombstoned(old(records), Ids(Expired(old(records), kind, limit)))
    {
      var keys := Query(kind);
      keys := set k | k in keys && IsExpired(records[k], kind, limit);
      assert keys == Expired(records, kind, limit);
      swept := |keys|;
      if !dry { DeleteAll(Ids(keys)); }
    }

    method PurgeOrphans(file: set<string>, dry: bool) returns (count: nat)
      modifies this
      ensures count == |OrphanItems(old(records), file)| + |OrphanPreflights(old(records), file)|
      ensures records == if dry then old(records) else Purged(old(records), file)
    {
      var itemKeys := Query(WorkItem);
      var items := Ids(itemKeys);
      assert items == ActiveItems(records);
      var preflights := Query(PreflightDecision);
      var before := records;
      var orphans := set k | k in preflights && IsOrphan(before[k], items + file);
      assert orphans == OrphanPreflights(before, file);
      count := |items - file| + |orphans|;
      if !dry {
        DeleteAll(items - file);
        DeleteAll(Ids(orphans));
        TombstonedTwice(before, items - file, Ids(orphans));
      }
    }
  }

  lemma NothingTombstoned(rs: Records)
    ensures Tombstoned(rs, {}) == rs
    ensures forall ids: set<string> :: ids - ids == {}
  {
  }

  lemma OneMoreTombstoned(rs: Records, done: set<string>, id: string)
    ensures Tombstoned(Tombstoned(rs, done), {id}) == Tombstoned(rs, done + {id})
  {
    TombstonedTwice(rs, done, {id});
  }

  lemma TombstonedTwice(rs: Records, a: set<string>, b: set<string>)
    ensures Tombstoned(Tombstoned(rs, a), b) == Tombstoned(rs, a + b)
  {
  }
}
