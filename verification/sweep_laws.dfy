/** What sweeps leave behind: fixpoints, counts and what they never touch. */
module SweepLaws {
  import opened Options
  import opened EsdbSweep

  type Clock = nat -> string

  /** Every kind once, and no retention for work items, preflight decisions and the efficiency
      metric. */
  ghost predicate IsPlan(entries: seq<Retention>) {
    && (forall i, j :: 0 <= i < j < |entries| ==> entries[i].kind != entries[j].kind)
    && forall i :: 0 <= i < |entries| && entries[i].days.Some?
         ==> entries[i].kind !in {WorkItem, PreflightDecision, EfficiencyMetric}
  }

  lemma RetentionIsPlan()
    ensures IsPlan(RETENTION)
  {
  }

  lemma FrontIsPlan(entries: seq<Retention>)
    requires IsPlan(entries) && entries != []
    ensures IsPlan(entries[..|entries| - 1])
  {
  }

  // ---------------------------------------------------------------------------------------
  // Sweeping only tombstones, and only on the main branch
  // ---------------------------------------------------------------------------------------

  ghost predicate FadedAt(before: Record, after: Record, branch: Branch) {
    after == before || (branch == Main && after == before.(status := Tombstone))
  }

  ghost predicate Faded(before: Records, after: Records) {
    after.Keys == before.Keys && forall k :: k in before ==> FadedAt(before[k], after[k], k.branch)
  }

  lemma TombstonedIsFaded(rs: Records, ids: set<string>)
    ensures Faded(rs, Tombstoned(rs, ids))
  {
  }

  lemma FadedTwice(a: Records, b: Records, c: Records)
    requires Faded(a, b) && Faded(b, c)
    ensures Faded(a, c)
  {
  }

  lemma RetireKindFades(p: Retired, e: Retention, limit: Clock)
    ensures Faded(p.records, RetireKind(p, e, limit, false).records)
  {
    if e.days.Some? { TombstonedIsFaded(p.records, Ids(Expired(p.records, e.kind, limit(e.days.value)))); }
  }

  lemma {:induction false} RetireFades(rs: Records, entries: seq<Retention>, limit: Clock)
    ensures Faded(rs, Retire(rs, entries, limit, false).records)
  {
    if entries != [] {
      var front := entries[..|entries| - 1];
      RetireFades(rs, front, limit);
      RetireKindFades(Retire(rs, front, limit, false), entries[|entries| - 1], limit);
      FadedTwice(rs, Retire(rs, front, limit, false).records, Retire(rs, entries, limit, false).records);
    }
  }

  /** The records between the two phases, and after them. */
  function Kept(rs: Records, entries: seq<Retention>, limit: Clock): Records {
    Retire(rs, entries, limit, false).records
  }

  function Flagged(rs: Records, entries: seq<Retention>, file: set<string>, limit: Clock): Records {
    Purged(Kept(rs, entries, limit), file)
  }

  lemma FlaggedIsFaded(rs: Records, entries: seq<Retention>, file: set<string>, limit: Clock)
    ensures Faded(rs, Flagged(rs, entries, file, limit))
  {
    var kept := Kept(rs, entries, limit);
    RetireFades(rs, entries, limit);
    TombstonedIsFaded(kept, OrphanItems(kept, file) + Ids(OrphanPreflights(kept, file)));
    FadedTwice(rs, kept, Purged(kept, file));
  }

  // ---------------------------------------------------------------------------------------
  // When a sweep flags nothing
  // ---------------------------------------------------------------------------------------

  ghost predicate Overdue(r: Record, entries: seq<Retention>, limit: Clock) {
    exists i :: 0 <= i < |entries| && OverdueAt(r, entries[i], limit)
  }

  predicate OverdueAt(r: Record, e: Retention, limit: Clock) {
    e.days.Some? && IsExpired(r, e.kind, limit(e.days.value))
  }

  predicate Missing(r: Record, id: string, file: set<string>) { IsActive(r, WorkItem) && id !in file }

  /** A record no sweep has a reason to flag: not overdue, no work item missing from the file, no
      preflight decision whose named parent is missing from it. */
  ghost predicate IsClean(r: Record, id: string, entries: seq<Retention>, file: set<string>, limit: Clock) {
    !Overdue(r, entries, limit) && !Missing(r, id, file) && !IsOrphan(r, file)
  }

  ghost predicate AllClean(rs: Records, entries: seq<Retention>, file: set<string>, limit: Clock) {
    forall k :: k in rs ==> IsClean(rs[k], k.id, entries, file, limit)
  }

  lemma {:induction false} RetiresNothingIff(rs: Records, entries: seq<Retention>, limit: Clock, dry: bool)
    ensures Retire(rs, entries, limit, dry).count == 0 <==> forall k :: k in rs ==> !Overdue(rs[k], entries, limit)
    ensures Retire(rs, entries, limit, dry).count == 0 ==> Retire(rs, entries, limit, dry).records == rs
  {
    if entries != [] {
      var n := |entries| - 1;
      var p := Retire(rs, entries[..n], limit, dry);
      RetiresNothingIff(rs, entries[..n], limit, dry);
      forall k | k in rs
        ensures Overdue(rs[k], entries, limit)
          <==> Overdue(rs[k], entries[..n], limit) || OverdueAt(rs[k], entries[n], limit)
      {
        OverdueNext(rs[k], entries, limit);
      }
      if p.count == 0 {
        RetireKindNothingIff(p, entries[n], limit, dry);
      }
    }
  }

  lemma OverdueNext(r: Record, entries: seq<Retention>, limit: Clock)
    requires entries != []
    ensures var n := |entries| - 1;
      Overdue(r, entries, limit) <==> Overdue(r, entries[..n], limit) || OverdueAt(r, entries[n], limit)
  {
    var n := |entries| - 1;
    if Overdue(r, entries, limit) {
      var i :| 0 <= i < |entries| && OverdueAt(r, entries[i], limit);
      if i < n { assert OverdueAt(r, entries[..n][i], limit); }
    }
    if Overdue(r, entries[..n], limit) {
      var i :| 0 <= i < n && OverdueAt(r, entries[..n][i], limit);
      assert OverdueAt(r, entries[i], limit);
    }
  }

  lemma RetireKindNothingIff(p: Retired, e: Retention, limit: Clock, dry: bool)
    ensures RetireKind(p, e, limit, dry).count == p.count
      <==> forall k :: k in p.records ==> !OverdueAt(p.records[k], e, limit)
    ensures RetireKind(p, e, limit, dry).count == p.count ==> RetireKind(p, e, limit, dry).records == p.records
    ensures RetireKind(p, e, limit, dry).count >= p.count
  {
    if e.days.Some? {
      var keys := Expired(p.records, e.kind, limit(e.days.value));
      if keys == {} {
        forall k | k in p.records ensures !OverdueAt(p.records[k], e, limit) { assert k !in keys; }
      } else {
        var k :| k in keys;
        assert OverdueAt(p.records[k], e, limit);
        assert |keys| > 0;
      }
    }
  }

  function Total(r: SweepResult): nat { r.tombstoned + r.orphans }

  /** A full sweep, dry or not, reports nothing if and only if every record is clean. */
  lemma ReportsNothingIff(rs: Records, entries: seq<Retention>, file: set<string>, limit: Clock, dry: bool,
                          current: Option<Data>)
    ensures Total(Report(rs, entries, file, limit, false, dry, current)) == 0 <==> AllClean(rs, entries, file, limit)
  {
    RetiresNothingIff(rs, entries, limit, dry);
    if Retire(rs, entries, limit, dry).count == 0 { NoOrphansIff(rs, file); }
  }

  lemma NoOrphansIff(rs: Records, file: set<string>)
    ensures |OrphanItems(rs, file)| + |OrphanPreflights(rs, file)| == 0
      <==> forall k :: k in rs ==> !Missing(rs[k], k.id, file) && !IsOrphan(rs[k], file)
  {
    NoMissingIff(rs, file);
    if OrphanItems(rs, file) == {} {
      assert ActiveItems(rs) + file == file;
      if OrphanPreflights(rs, file) == {} {
        forall k | k in rs ensures !IsOrphan(rs[k], file) { assert k !in OrphanPreflights(rs, file); }
      }
    }
  }

  lemma NoMissingIff(rs: Records, file: set<string>)
    ensures OrphanItems(rs, file) == {} <==> forall k :: k in rs ==> !Missing(rs[k], k.id, file)
  {
    if OrphanItems(rs, file) == {} {
      forall k | k in rs ensures !Missing(rs[k], k.id, file) {
        assert k.id !in OrphanItems(rs, file);
      }
    }
  }

  // ---------------------------------------------------------------------------------------
  // Fixpoints
  // ---------------------------------------------------------------------------------------

  /** After the retention phase no record of the main branch is overdue. */
  lemma {:induction false} NoneOverdueAfter(rs: Records, entries: seq<Retention>, limit: Clock, k: Key)
    requires k in rs && k.branch == Main
    ensures k in Kept(rs, entries, limit) && !Overdue(Kept(rs, entries, limit)[k], entries, limit)
  {
    RetireFades(rs, entries, limit);
    if entries != [] {
      var n := |entries| - 1;
      var p := Retire(rs, entries[..n], limit, false);
      RetireFades(rs, entries[..n], limit);
      NoneOverdueAfter(rs, entries[..n], limit, k);
      RetireKindFades(p, entries[n], limit);
      OverdueNext(Kept(rs, entries, limit)[k], entries, limit);
      KindIsRetired(p, entries[n], limit, k);
      StaysCalm(p.records[k], Kept(rs, entries, limit)[k], k.branch, entries[..n], limit);
    }
  }

  lemma KindIsRetired(p: Retired, e: Retention, limit: Clock, k: Key)
    requires k in p.records && k.branch == Main
    ensures k in RetireKind(p, e, limit, false).records
      && !OverdueAt(RetireKind(p, e, limit, false).records[k], e, limit)
  {
    if e.days.Some? {
      var keys := Expired(p.records, e.kind, limit(e.days.value));
      if k in keys { assert k.id in Ids(keys); }
    }
  }

  lemma StaysCalm(before: Record, after: Record, branch: Branch, entries: seq<Retention>, limit: Clock)
    requires FadedAt(before, after, branch) && !Overdue(before, entries, limit)
    ensures !Overdue(after, entries, limit)
  {
    forall i | 0 <= i < |entries| ensures !OverdueAt(after, entries[i], limit) {
      assert !OverdueAt(before, entries[i], limit);
    }
  }

  /** After a purge no work item of the main branch is missing from the file, and the preflight
      decisions there have parents that were known. */
  lemma PurgedAt(rs: Records, file: set<string>, k: Key)
    requires k in rs && k.branch == Main
    ensures !Missing(Purged(rs, file)[k], k.id, file) && !IsOrphan(Purged(rs, file)[k], ActiveItems(rs) + file)
  {
    if IsOrphan(rs[k], ActiveItems(rs) + file) {
      assert k in OrphanPreflights(rs, file);
      assert k.id in Ids(OrphanPreflights(rs, file));
    }
  }

  /** Records of other branches that some sweep would flag. */
  ghost predicate SidesClean(rs: Records, entries: seq<Retention>, file: set<string>, limit: Clock) {
    forall k :: k in rs && k.branch != Main ==> IsClean(rs[k], k.id, entries, file, limit)
  }

  ghost predicate NoneMissing(rs: Records, file: set<string>) {
    forall k :: k in rs ==> !Missing(rs[k], k.id, file)
  }

  lemma SweptAt(rs: Records, entries: seq<Retention>, file: set<string>, limit: Clock, current: Option<Data>, k: Key)
    requires k in Swept(rs, entries, file, limit, false, current)
    ensures (k == EFF_CURRENT && current.Some?
          && Swept(rs, entries, file, limit, false, current)[k] == Record(EfficiencyMetric, Active, current.value))
      || (k in rs && k in Flagged(rs, entries, file, limit)
          && Swept(rs, entries, file, limit, false, current)[k] == Flagged(rs, entries, file, limit)[k]
          && FadedAt(rs[k], Flagged(rs, entries, file, limit)[k], k.branch))
  {
    FlaggedIsFaded(rs, entries, file, limit);
  }

  /** One sweep leaves no active work item that is missing from the file if and only if no such
      item is on a branch other than main, where nothing is ever deleted. */
  lemma OneSweepItemsIff(rs: Records, entries: seq<Retention>, file: set<string>, limit: Clock, current: Option<Data>)
    ensures NoneMissing(Swept(rs, entries, file, limit, false, current), file)
      <==> forall k :: k in rs && k.branch != Main ==> !Missing(rs[k], k.id, file)
  {
    var after := Swept(rs, entries, file, limit, false, current);
    FlaggedIsFaded(rs, entries, file, limit);
    if NoneMissing(after, file) {
      forall k | k in rs && k.branch != Main ensures !Missing(rs[k], k.id, file) {
        assert after[k] == rs[k];
      }
    }
    if forall k :: k in rs && k.branch != Main ==> !Missing(rs[k], k.id, file) {
      forall k | k in after ensures !Missing(after[k], k.id, file) {
        SweptAt(rs, entries, file, limit, current, k);
        if k in rs && k.branch == Main && after[k] == Flagged(rs, entries, file, limit)[k] {
          RetireFades(rs, entries, limit);
          PurgedAt(Kept(rs, entries, limit), file, k);
        }
      }
    }
  }

  lemma SidesStay(rs: Records, entries: seq<Retention>, file: set<string>, limit: Clock, current: Option<Data>)
    ensures var after := Swept(rs, entries, file, limit, false, current);
      && (forall k :: k in rs ==> k in after)
      && (forall k :: k in after && k.branch != Main ==> k in rs && after[k] == rs[k])
    ensures SidesClean(Swept(rs, entries, file, limit, false, current), entries, file, limit)
      <==> SidesClean(rs, entries, file, limit)
  {
    FlaggedIsFaded(rs, entries, file, limit);
  }

  lemma SweepClears(rs: Records, entries: seq<Retention>, file: set<string>, limit: Clock, current: Option<Data>)
    requires IsPlan(entries) && NoneMissing(rs, file) && SidesClean(rs, entries, file, limit)
    ensures AllClean(Swept(rs, entries, file, limit, false, current), entries, file, limit)
  {
    var after := Swept(rs, entries, file, limit, false, current);
    var kept := Kept(rs, entries, limit);
    RetireFades(rs, entries, limit);
    assert ActiveItems(kept) <= file by { FadedItems(rs, kept, file); }
    assert ActiveItems(kept) + file == file;
    SidesStay(rs, entries, file, limit, current);
    forall k | k in after ensures IsClean(after[k], k.id, entries, file, limit) {
      SweptAt(rs, entries, file, limit, current, k);
      if k.branch == Main && k in rs && after[k] == Flagged(rs, entries, file, limit)[k] {
        PurgedAt(kept, file, k);
        NoneOverdueAfter(rs, entries, limit, k);
        TombstonedIsFaded(kept, OrphanItems(kept, file) + Ids(OrphanPreflights(kept, file)));
        StaysCalm(kept[k], after[k], Main, entries, limit);
      } else if k.branch == Main {
        CurrentIsClean(current, entries, file, limit);
      }
    }
  }

  lemma CurrentIsClean(current: Option<Data>, entries: seq<Retention>, file: set<string>, limit: Clock)
    requires IsPlan(entries) && current.Some?
    ensures IsClean(Record(EfficiencyMetric, Active, current.value), EFF_CURRENT.id, entries, file, limit)
  {
  }

  lemma FadedItems(before: Records, after: Records, file: set<string>)
    requires Faded(before, after) && NoneMissing(before, file)
    ensures ActiveItems(after) <= file
  {
    forall id | id in ActiveItems(after) ensures id in file {
      var k :| k in after && IsActive(after[k], WorkItem) && k.id == id;
      assert after[k] == before[k];
    }
  }

  /** After two sweeps with the same clock and file a third one finds nothing to flag, if and only
      if the records of the branches other than main gave no reason to begin with.  In particular
      this holds when all records are on main. */
  lemma ThirdFindsNothingIff(rs: Records, entries: seq<Retention>, file: set<string>, limit: Clock,
                             first: Option<Data>, second: Option<Data>, third: Option<Data>, dry: bool)
    requires IsPlan(entries)
    ensures var once := Swept(rs, entries, file, limit, false, first);
      var twice := Swept(once, entries, file, limit, false, second);
      Total(Report(twice, entries, file, limit, false, dry, third)) == 0 <==> SidesClean(rs, entries, file, limit)
  {
    var once := Swept(rs, entries, file, limit, false, first);
    var twice := Swept(once, entries, file, limit, false, second);
    ReportsNothingIff(twice, entries, file, limit, dry, third);
    SidesStay(rs, entries, file, limit, first);
    SidesStay(once, entries, file, limit, second);
    if SidesClean(rs, entries, file, limit) {
      OneSweepItemsIff(rs, entries, file, limit, first);
      SweepClears(once, entries, file, limit, second);
    }
  }

  // ---------------------------------------------------------------------------------------
  // What a sweep never touches
  // ---------------------------------------------------------------------------------------

  /** Records with the same id, on whatever branches, are of one kind. */
  ghost predicate OneKind(rs: Records) {
    forall j, k :: j in rs && k in rs && j.id == k.id ==> rs[j].kind == rs[k].kind
  }

  ghost predicate HasRetention(kind: Kind, entries: seq<Retention>) {
    exists i :: 0 <= i < |entries| && entries[i].kind == kind && entries[i].days.Some?
  }

  lemma KindStays(p: Retired, e: Retention, limit: Clock, k: Key)
    requires OneKind(p.records) && k in p.records && (e.days.Some? ==> e.kind != p.records[k].kind)
    ensures RetireKind(p, e, limit, false).records[k] == p.records[k]
  {
    if e.days.Some? {
      assert k.id !in Ids(Expired(p.records, e.kind, limit(e.days.value)));
    }
  }

  lemma FadedIsOneKind(before: Records, after: Records)
    requires Faded(before, after) && OneKind(before)
    ensures OneKind(after)
  {
  }

  /** The retention phase leaves records of kinds without retention alone. */
  lemma {:induction false} RetireKeeps(rs: Records, entries: seq<Retention>, limit: Clock, k: Key)
    requires OneKind(rs) && k in rs && !HasRetention(rs[k].kind, entries)
    ensures k in Kept(rs, entries, limit) && Kept(rs, entries, limit)[k] == rs[k]
  {
    if entries != [] {
      var n := |entries| - 1;
      var p := Retire(rs, entries[..n], limit, false);
      forall i | 0 <= i < n ensures !(entries[..n][i].kind == rs[k].kind && entries[..n][i].days.Some?) {
        assert entries[..n][i] == entries[i];
      }
      RetireKeeps(rs, entries[..n], limit, k);
      RetireFades(rs, entries[..n], limit);
      FadedIsOneKind(rs, p.records);
      KindStays(p, entries[n], limit, k);
    }
  }

  lemma ItemsStay(rs: Records, entries: seq<Retention>, file: set<string>, limit: Clock)
    requires OneKind(rs) && IsPlan(entries)
    ensures var kept := Kept(rs, entries, limit);
      && Faded(rs, kept)
      && (forall k :: k in rs && rs[k].kind in {WorkItem, PreflightDecision} ==> kept[k] == rs[k])
      && ActiveItems(kept) == ActiveItems(rs) && OrphanPreflights(kept, file) == OrphanPreflights(rs, file)
  {
    var kept := Kept(rs, entries, limit);
    RetireFades(rs, entries, limit);
    forall k | k in rs && rs[k].kind in {WorkItem, PreflightDecision} ensures kept[k] == rs[k] {
      RetireKeeps(rs, entries, limit, k);
    }
    assert ActiveItems(kept) == ActiveItems(rs);
  }

  // ---------------------------------------------------------------------------------------
  // Overdue records
  // ---------------------------------------------------------------------------------------

  function OverdueKeys(rs: Records, entries: seq<Retention>, limit: Clock): set<Key> {
    set k, i | k in rs && 0 <= i < |entries| && OverdueAt(rs[k], entries[i], limit) :: k
  }

  lemma OverdueMeans(rs: Records, entries: seq<Retention>, limit: Clock, k: Key)
    requires k in rs
    ensures k in OverdueKeys(rs, entries, limit) <==> Overdue(rs[k], entries, limit)
  {
  }

  lemma IdsOfBoth(a: set<Key>, b: set<Key>)
    ensures Ids(a + b) == Ids(a) + Ids(b)
  {
  }

  lemma DisjointSizes<T>(a: set<T>, b: set<T>)
    requires a !! b
    ensures |a + b| == |a| + |b|
  {
  }

  ghost predicate AllOnMain(rs: Records) { forall k :: k in rs ==> k.branch == Main }

  // ---------------------------------------------------------------------------------------
  // When one sweep is enough
  // ---------------------------------------------------------------------------------------

  /** An active preflight decision whose parent is an active work item that the file lacks: the
      item goes in the first sweep, the decision only in the second. */
  ghost predicate IsDelayed(rs: Records, k: Key, file: set<string>) {
    k in rs && IsOrphan(rs[k], file) && Parent(rs[k].data) in ActiveItems(rs)
  }

  /** With all records on main, the second sweep finds nothing if and only if no preflight decision
      is delayed. */
  lemma SecondFindsNothingIff(rs: Records, entries: seq<Retention>, file: set<string>, limit: Clock,
                              first: Option<Data>, second: Option<Data>, dry: bool)
    requires AllOnMain(rs) && IsPlan(entries)
    requires EFF_CURRENT in rs ==> rs[EFF_CURRENT].kind == EfficiencyMetric
    ensures var once := Swept(rs, entries, file, limit, false, first);
      Total(Report(once, entries, file, limit, false, dry, second)) == 0 <==> forall k :: !IsDelayed(rs, k, file)
  {
    var once := Swept(rs, entries, file, limit, false, first);
    ReportsNothingIff(once, entries, file, limit, dry, second);
    OneSweepItemsIff(rs, entries, file, limit, first);
    if exists k :: IsDelayed(rs, k, file) {
      var k :| IsDelayed(rs, k, file);
      DelayedSurvives(rs, entries, file, limit, first, k);
    }
    if forall k :: !IsDelayed(rs, k, file) {
      forall k | k in once ensures IsClean(once[k], k.id, entries, file, limit) {
        NotDelayedIsClean(rs, entries, file, limit, first, k);
      }
    }
  }

  lemma PurgedIff(rs: Records, file: set<string>, k: Key)
    requires AllOnMain(rs) && k in rs
    ensures Purged(rs, file)[k] != rs[k] <==> k.id in OrphanItems(rs, file) || k in OrphanPreflights(rs, file)
  {
    if k in OrphanPreflights(rs, file) { assert k.id in Ids(OrphanPreflights(rs, file)); }
    if k.id in Ids(OrphanPreflights(rs, file)) {
      var j :| j in OrphanPreflights(rs, file) && j.id == k.id;
      assert j == k;
    }
    if k.id in OrphanItems(rs, file) {
      var j :| j in rs && IsActive(rs[j], WorkItem) && j.id == k.id;
      assert j == k && k.id in OrphanItems(rs, file);
    }
    if k.id in OrphanItems(rs, file) { assert k.id in OrphanItems(rs, file); }
  }

  lemma DelayedSurvives(rs: Records, entries: seq<Retention>, file: set<string>, limit: Clock, current: Option<Data>,
                        k: Key)
    requires AllOnMain(rs) && IsPlan(entries) && IsDelayed(rs, k, file)
    requires EFF_CURRENT in rs ==> rs[EFF_CURRENT].kind == EfficiencyMetric
    ensures var once := Swept(rs, entries, file, limit, false, current);
      k in once && IsOrphan(once[k], file)
  {
    var kept := Kept(rs, entries, limit);
    ItemsStay(rs, entries, file, limit);
    PurgedIff(kept, file, k);
    assert k.id !in OrphanItems(kept, file);
  }

  lemma NotDelayedIsClean(rs: Records, entries: seq<Retention>, file: set<string>, limit: Clock,
                          current: Option<Data>, k: Key)
    requires AllOnMain(rs) && IsPlan(entries) && !IsDelayed(rs, k, file)
    requires k in Swept(rs, entries, file, limit, false, current)
    requires NoneMissing(Swept(rs, entries, file, limit, false, current), file)
    ensures IsClean(Swept(rs, entries, file, limit, false, current)[k], k.id, entries, file, limit)
  {
    var once, kept := Swept(rs, entries, file, limit, false, current), Kept(rs, entries, limit);
    SweptAt(rs, entries, file, limit, current, k);
    FlaggedIsFaded(rs, entries, file, limit);
    if k in rs && once[k] == Flagged(rs, entries, file, limit)[k] {
      ItemsStay(rs, entries, file, limit);
      PurgedAt(kept, file, k);
      NoneOverdueAfter(rs, entries, limit, k);
      TombstonedIsFaded(kept, OrphanItems(kept, file) + Ids(OrphanPreflights(kept, file)));
      StaysCalm(kept[k], once[k], Main, entries, limit);
    } else {
      CurrentIsClean(current, entries, file, limit);
    }
  }
}
