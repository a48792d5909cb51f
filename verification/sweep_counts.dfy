/** How the counts of a sweep compare with the records it tombstones. */
module SweepCounts {
  import opened Options
  import opened EsdbSweep
  import opened SweepLaws
  import opened SweepEffects

  function Changed(before: Records, after: Records): set<Key>
    requires after.Keys == before.Keys
  {
    set k | k in before && after[k] != before[k]
  }

  /** The records a full sweep tombstones. */
  function Deleted(rs: Records, entries: seq<Retention>, file: set<string>, limit: Clock): set<Key> {
    FlaggedIsFaded(rs, entries, file, limit);
    Changed(rs, Flagged(rs, entries, file, limit))
  }

  /** For any records these are the ones on main, not tombstones yet, whose id is doomed. */
  lemma DeletedIff(rs: Records, entries: seq<Retention>, file: set<string>, limit: Clock, k: Key)
    ensures k in Deleted(rs, entries, file, limit)
      <==> k in rs && k.branch == Main && rs[k].status != Tombstone && Doomed(rs, entries, file, limit, k.id)
  {
    if k in rs { ChangedIff(rs, entries, file, limit, k); }
  }

  function OnMain(keys: set<Key>): set<Key> { set k | k in keys && k.branch == Main }

  function OnSides(keys: set<Key>): set<Key> { set k | k in keys && k.branch != Main }

  lemma SplitByBranch(keys: set<Key>)
    ensures |keys| == |OnMain(keys)| + |OnSides(keys)|
  {
    assert keys == OnMain(keys) + OnSides(keys);
  }

  // ---------------------------------------------------------------------------------------
  // What is counted
  // ---------------------------------------------------------------------------------------

  /** The records the retention phase of a real run counts. */
  function Retirees(rs: Records, entries: seq<Retention>, limit: Clock): set<Key> {
    if entries == [] then {}
    else Retirees(rs, entries[..|entries| - 1], limit) + LastFlagged(rs, entries, limit, false)
  }

  lemma SidesOfBoth(a: set<Key>, b: set<Key>)
    ensures OnSides(a + b) == OnSides(a) + OnSides(b)
  {
  }

  lemma {:induction false} RetireesAreOverdue(rs: Records, entries: seq<Retention>, limit: Clock)
    ensures Retirees(rs, entries, limit) <= OverdueKeys(rs, entries, limit)
    ensures OnSides(Retirees(rs, entries, limit)) == OnSides(OverdueKeys(rs, entries, limit))
  {
    if entries == [] {
      assert OverdueKeys(rs, [], limit) == {};
    } else {
      var n := |entries| - 1;
      RetireesAreOverdue(rs, entries[..n], limit);
      OverdueKeysNext(rs, entries, limit);
      SidesOfBoth(Retirees(rs, entries[..n], limit), LastFlagged(rs, entries, limit, false));
      SidesOfBoth(OverdueKeys(rs, entries[..n], limit), OverdueNow(rs, entries[n], limit));
      assert OnSides(LastFlagged(rs, entries, limit, false)) == OnSides(OverdueNow(rs, entries[n], limit));
    }
  }

  lemma {:induction false} RetireesCount(rs: Records, entries: seq<Retention>, limit: Clock)
    requires IsPlan(entries)
    ensures Retire(rs, entries, limit, false).count == |Retirees(rs, entries, limit)|
  {
    if entries != [] {
      FrontIsPlan(entries);
      RetireesCount(rs, entries[..|entries| - 1], limit);
      var p, count := LastEntry(rs, entries, limit, false);
      LastAreOthers(rs, entries, limit);
    }
  }

  lemma LastAreOthers(rs: Records, entries: seq<Retention>, limit: Clock)
    requires IsPlan(entries) && entries != []
    ensures |Retirees(rs, entries, limit)|
      == |Retirees(rs, entries[..|entries| - 1], limit)| + |LastFlagged(rs, entries, limit, false)|
  {
    var n := |entries| - 1;
    RetireesAreOverdue(rs, entries[..n], limit);
    forall k | k in OverdueKeys(rs, entries[..n], limit) ensures k !in OverdueNow(rs, entries[n], limit) {
      KindsDiffer(rs, entries, limit, k);
    }
    DisjointSizes(Retirees(rs, entries[..n], limit), LastFlagged(rs, entries, limit, false));
  }

  lemma KindsDiffer(rs: Records, entries: seq<Retention>, limit: Clock, k: Key)
    requires IsPlan(entries) && entries != [] && k in OverdueKeys(rs, entries[..|entries| - 1], limit)
    ensures k !in OverdueNow(rs, entries[|entries| - 1], limit)
  {
    var n := |entries| - 1;
    var i :| 0 <= i < n && OverdueAt(rs[k], entries[..n][i], limit);
    assert entries[..n][i] == entries[i];
  }

  function MissingKeys(rs: Records, file: set<string>): set<Key> { set k | k in rs && Missing(rs[k], k.id, file) }

  /** Orphan items, which are counted by id, that only other branches hold. */
  function AsideItems(rs: Records, file: set<string>): set<string> {
    OrphanItems(rs, file) - Ids(OnMain(MissingKeys(rs, file)))
  }

  lemma {:induction false} IdsSize(keys: set<Key>)
    requires forall j, k :: j in keys && k in keys && j.id == k.id ==> j == k
    ensures |Ids(keys)| == |keys|
  {
    if keys != {} {
      var k :| k in keys;
      IdsSize(keys - {k});
      assert Ids(keys) == Ids(keys - {k}) + {k.id};
    }
  }

  lemma OrphansAreMissing(rs: Records, file: set<string>)
    ensures OrphanItems(rs, file) == Ids(MissingKeys(rs, file))
  {
    forall id ensures id in OrphanItems(rs, file) <==> id in Ids(MissingKeys(rs, file)) {
      if id in OrphanItems(rs, file) {
        var k :| k in rs && IsActive(rs[k], WorkItem) && k.id == id;
        assert k in MissingKeys(rs, file);
      }
    }
  }

  lemma ItemsSplit(rs: Records, file: set<string>)
    ensures |OrphanItems(rs, file)| == |OnMain(MissingKeys(rs, file))| + |AsideItems(rs, file)|
  {
    var ids := Ids(OnMain(MissingKeys(rs, file)));
    OrphansAreMissing(rs, file);
    IdsSize(OnMain(MissingKeys(rs, file)));
    SomeIds(MissingKeys(rs, file), OnMain(MissingKeys(rs, file)));
    PartAndRest(OrphanItems(rs, file), ids);
  }

  lemma SomeIds(keys: set<Key>, some: set<Key>)
    requires some <= keys
    ensures Ids(some) <= Ids(keys)
  {
  }

  lemma PartAndRest<T>(all: set<T>, part: set<T>)
    requires part <= all
    ensures |all| == |part| + |all - part|
  {
    SizeWithout(all, part);
    assert all * part == part;
  }

  /** The records on main that a full sweep counts. */
  function Counted(rs: Records, entries: seq<Retention>, file: set<string>, limit: Clock): set<Key> {
    var kept := Kept(rs, entries, limit);
    OnMain(Retirees(rs, entries, limit)) + (OnMain(MissingKeys(kept, file)) + OnMain(OrphanPreflights(kept, file)))
  }

  /** How many it counts that it cannot delete, as they are on other branches. */
  function Aside(rs: Records, entries: seq<Retention>, file: set<string>, limit: Clock): nat {
    var kept := Kept(rs, entries, limit);
    |OnSides(OverdueKeys(rs, entries, limit))| + |AsideItems(kept, file)| + |OnSides(OrphanPreflights(kept, file))|
  }

  /** The records it deletes without counting them: only namesakes of theirs were counted. */
  function Bystanders(rs: Records, entries: seq<Retention>, file: set<string>, limit: Clock): set<Key> {
    Deleted(rs, entries, file, limit) - Counted(rs, entries, file, limit)
  }

  lemma RetireesAreGone(rs: Records, entries: seq<Retention>, limit: Clock, k: Key)
    requires k in OnMain(Retirees(rs, entries, limit))
    ensures k in rs && rs[k].status == Active && k.id in Retiring(rs, entries, limit)
  {
    RetireesAreOverdue(rs, entries, limit);
  }

  lemma CountedSize(rs: Records, entries: seq<Retention>, file: set<string>, limit: Clock)
    ensures var kept := Kept(rs, entries, limit);
      |Counted(rs, entries, file, limit)| == |OnMain(Retirees(rs, entries, limit))|
        + |OnMain(MissingKeys(kept, file))| + |OnMain(OrphanPreflights(kept, file))|
  {
    var kept := Kept(rs, entries, limit);
    KeptIs(rs, entries, limit);
    var retirees, missing, orphans :=
      OnMain(Retirees(rs, entries, limit)), OnMain(MissingKeys(kept, file)), OnMain(OrphanPreflights(kept, file));
    forall k | k in retirees ensures k !in missing + orphans { RetireesAreGone(rs, entries, limit, k); }
    DisjointSizes(missing, orphans);
    DisjointSizes(retirees, missing + orphans);
  }

  lemma CountedIsDeleted(rs: Records, entries: seq<Retention>, file: set<string>, limit: Clock)
    ensures Counted(rs, entries, file, limit) <= Deleted(rs, entries, file, limit)
  {
    forall k | k in Counted(rs, entries, file, limit) ensures k in Deleted(rs, entries, file, limit) {
      DeletedIff(rs, entries, file, limit, k);
      CountedIsDoomed(rs, entries, file, limit, k);
    }
  }

  lemma CountedIsDoomed(rs: Records, entries: seq<Retention>, file: set<string>, limit: Clock, k: Key)
    requires k in Counted(rs, entries, file, limit)
    ensures k in rs && k.branch == Main && rs[k].status != Tombstone && Doomed(rs, entries, file, limit, k.id)
  {
    var kept := Tombstoned(rs, Retiring(rs, entries, limit));
    KeptIs(rs, entries, limit);
    if k in OnMain(Retirees(rs, entries, limit)) {
      RetireesAreOverdue(rs, entries, limit);
      OverdueMeans(rs, entries, limit, k);
    }
    assert DoomedBy(rs[k], kept[k], ActiveItems(kept), k.id, entries, file, limit);
  }

  /** For any records, what a full sweep reports and does not delete makes up for what it deletes
      and does not report. */
  lemma CountsShift(rs: Records, entries: seq<Retention>, file: set<string>, limit: Clock, current: Option<Data>)
    requires IsPlan(entries)
    ensures Total(Report(rs, entries, file, limit, false, false, current)) + |Bystanders(rs, entries, file, limit)|
      == |Deleted(rs, entries, file, limit)| + Aside(rs, entries, file, limit)
  {
    var kept := Kept(rs, entries, limit);
    RetireesCount(rs, entries, limit);
    RetireesAreOverdue(rs, entries, limit);
    SplitByBranch(Retirees(rs, entries, limit));
    ItemsSplit(kept, file);
    SplitByBranch(OrphanPreflights(kept, file));
    CountedSize(rs, entries, file, limit);
    CountedIsDeleted(rs, entries, file, limit);
    PartAndRest(Deleted(rs, entries, file, limit), Counted(rs, entries, file, limit));
  }

  /** So it deletes as many records as it reports if and only if both are equally many. */
  lemma CountsAreChangesIff(rs: Records, entries: seq<Retention>, file: set<string>, limit: Clock,
                            current: Option<Data>)
    requires IsPlan(entries)
    ensures Total(Report(rs, entries, file, limit, false, false, current)) == |Deleted(rs, entries, file, limit)|
      <==> |Bystanders(rs, entries, file, limit)| == Aside(rs, entries, file, limit)
  {
    CountsShift(rs, entries, file, limit, current);
  }

  // ---------------------------------------------------------------------------------------
  // One branch for each id
  // ---------------------------------------------------------------------------------------

  /** No id is on two branches. */
  ghost predicate OneBranchEach(rs: Records) { forall j, k :: j in rs && k in rs && j.id == k.id ==> j == k }

  /** Then exactly the counted records on main are deleted. */
  lemma NoBystanders(rs: Records, entries: seq<Retention>, file: set<string>, limit: Clock)
    requires OneBranchEach(rs)
    ensures Bystanders(rs, entries, file, limit) == {}
  {
    forall k | k in Deleted(rs, entries, file, limit) ensures k in Counted(rs, entries, file, limit) {
      var kept := Tombstoned(rs, Retiring(rs, entries, limit));
      KeptIs(rs, entries, limit);
      DeletedIff(rs, entries, file, limit, k);
      assert DoomedBy(rs[k], kept[k], ActiveItems(kept), k.id, entries, file, limit);
      if Overdue(rs[k], entries, limit) {
        OverdueMeans(rs, entries, limit, k);
        OverdueIsRetired(rs, entries, limit, k);
      }
    }
  }

  lemma RetiringAlone(rs: Records, entries: seq<Retention>, limit: Clock, k: Key)
    requires OneBranchEach(rs) && k in rs
    ensures k.id in Retiring(rs, entries, limit) <==> k in OverdueKeys(rs, entries, limit)
  {
  }

  lemma {:induction false} OverdueIsRetired(rs: Records, entries: seq<Retention>, limit: Clock, k: Key)
    requires OneBranchEach(rs) && k in OverdueKeys(rs, entries, limit)
    ensures k in Retirees(rs, entries, limit)
  {
    var n := |entries| - 1;
    OverdueKeysNext(rs, entries, limit);
    RetiringAlone(rs, entries[..n], limit, k);
    if k in OverdueKeys(rs, entries[..n], limit) { OverdueIsRetired(rs, entries[..n], limit, k); }
  }

  /** Then a real run reports the records it tombstones and those of other branches that it flags:
      these are reported but never deleted. */
  lemma CountsAreChanges(rs: Records, entries: seq<Retention>, file: set<string>, limit: Clock, current: Option<Data>)
    requires OneBranchEach(rs) && IsPlan(entries)
    ensures Total(Report(rs, entries, file, limit, false, false, current))
      == |Deleted(rs, entries, file, limit)| + Aside(rs, entries, file, limit)
  {
    CountsShift(rs, entries, file, limit, current);
    NoBystanders(rs, entries, file, limit);
  }

  lemma MainHasNoSides(rs: Records, entries: seq<Retention>, file: set<string>, limit: Clock)
    requires AllOnMain(rs)
    ensures OneBranchEach(rs) && Aside(rs, entries, file, limit) == 0
  {
    var kept := Kept(rs, entries, limit);
    KeptIs(rs, entries, limit);
    OrphansAreMissing(kept, file);
    assert OnSides(OverdueKeys(rs, entries, limit)) == {};
    assert OnMain(MissingKeys(kept, file)) == MissingKeys(kept, file);
    assert OnSides(OrphanPreflights(kept, file)) == {};
  }
}
