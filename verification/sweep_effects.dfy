/** Exactly what a sweep deletes and when its dry run foretells it, for any records. */
module SweepEffects {
  import opened Options
  import opened EsdbSweep
  import opened SweepLaws

  // ---------------------------------------------------------------------------------------
  // The retention phase in one step
  // ---------------------------------------------------------------------------------------

  /** The records that deleting some ids reaches. */
  function Hit(rs: Records, ids: set<string>): set<Key> { set k | k in rs && k.branch == Main && k.id in ids }

  /** The ids the retention phase deletes: those of all overdue records, on whatever branch. */
  function Retiring(rs: Records, entries: seq<Retention>, limit: Clock): set<string> {
    Ids(OverdueKeys(rs, entries, limit))
  }

  function OverdueNow(rs: Records, e: Retention, limit: Clock): set<Key> {
    set k | k in rs && OverdueAt(rs[k], e, limit)
  }

  /** A deletion takes exactly the records it reaches from those an entry flags. */
  lemma StillOverdue(rs: Records, ids: set<string>, e: Retention, limit: Clock)
    ensures OverdueNow(Tombstoned(rs, ids), e, limit) == OverdueNow(rs, e, limit) - Hit(rs, ids)
  {
  }

  lemma RetireKindIs(p: Retired, e: Retention, limit: Clock, dry: bool)
    ensures var now := OverdueNow(p.records, e, limit);
      RetireKind(p, e, limit, dry) == Retired(if dry then p.records else Tombstoned(p.records, Ids(now)),
        p.count + |now|, if now == {} then p.kinds else p.kinds[e.kind := |now|])
  {
    NothingTombstoned(p.records);
    if e.days.Some? {
      assert OverdueNow(p.records, e, limit) == Expired(p.records, e.kind, limit(e.days.value));
    } else {
      assert OverdueNow(p.records, e, limit) == {};
    }
  }

  lemma OverdueKeysNext(rs: Records, entries: seq<Retention>, limit: Clock)
    requires entries != []
    ensures var n := |entries| - 1;
      OverdueKeys(rs, entries, limit) == OverdueKeys(rs, entries[..n], limit) + OverdueNow(rs, entries[n], limit)
  {
    var n := |entries| - 1;
    forall k | k in rs
      ensures k in OverdueKeys(rs, entries, limit)
        <==> k in OverdueKeys(rs, entries[..n], limit) || k in OverdueNow(rs, entries[n], limit)
    {
      OverdueMeans(rs, entries, limit, k);
      OverdueMeans(rs, entries[..n], limit, k);
      OverdueNext(rs[k], entries, limit);
    }
  }

  lemma RetiringNext(rs: Records, entries: seq<Retention>, limit: Clock)
    requires entries != []
    ensures var n := |entries| - 1;
      Retiring(rs, entries, limit) == Retiring(rs, entries[..n], limit) + Ids(OverdueNow(rs, entries[n], limit))
  {
    var n := |entries| - 1;
    OverdueKeysNext(rs, entries, limit);
    IdsOfBoth(OverdueKeys(rs, entries[..n], limit), OverdueNow(rs, entries[n], limit));
  }

  /** Ids that are deleted anyway can be left out. */
  lemma IdsBeyond(rs: Records, ids: set<string>, keys: set<Key>)
    ensures ids + Ids(keys - Hit(rs, ids)) == ids + Ids(keys)
  {
    forall id | id in ids + Ids(keys) ensures id in ids + Ids(keys - Hit(rs, ids)) {
      if id !in ids {
        var k :| k in keys && k.id == id;
        assert k in keys - Hit(rs, ids);
      }
    }
  }

  /** Kind by kind, the retention phase deletes the ids of the records that were overdue at its
      start, each on main, for any records and any table. */
  lemma {:induction false} KeptIs(rs: Records, entries: seq<Retention>, limit: Clock)
    ensures Kept(rs, entries, limit) == Tombstoned(rs, Retiring(rs, entries, limit))
  {
    if entries == [] {
      NothingTombstoned(rs);
      assert OverdueKeys(rs, [], limit) == {};
    } else {
      var n := |entries| - 1;
      var before, e := Retiring(rs, entries[..n], limit), entries[n];
      KeptIs(rs, entries[..n], limit);
      RetireKindIs(Retire(rs, entries[..n], limit, false), e, limit, false);
      StillOverdue(rs, before, e, limit);
      TombstonedTwice(rs, before, Ids(OverdueNow(rs, e, limit) - Hit(rs, before)));
      IdsBeyond(rs, before, OverdueNow(rs, e, limit));
      RetiringNext(rs, entries, limit);
    }
  }

  // ---------------------------------------------------------------------------------------
  // Which records a sweep changes
  // ---------------------------------------------------------------------------------------

  /** Some record with this id, on whatever branch, is overdue, or is flagged by the orphan phase
      after the overdue ids were deleted. */
  ghost predicate Doomed(rs: Records, entries: seq<Retention>, file: set<string>, limit: Clock, id: string) {
    var kept := Tombstoned(rs, Retiring(rs, entries, limit));
    exists j :: j in rs && j.id == id && DoomedBy(rs[j], kept[j], ActiveItems(kept), id, entries, file, limit)
  }

  ghost predicate DoomedBy(r: Record, kept: Record, items: set<string>, id: string, entries: seq<Retention>,
                           file: set<string>, limit: Clock)
  {
    Overdue(r, entries, limit) || Missing(kept, id, file) || IsOrphan(kept, items + file)
  }

  lemma DoomedIff(rs: Records, entries: seq<Retention>, file: set<string>, limit: Clock, id: string)
    ensures var kept := Tombstoned(rs, Retiring(rs, entries, limit));
      Doomed(rs, entries, file, limit, id)
      <==> id in Retiring(rs, entries, limit) + OrphanItems(kept, file) + Ids(OrphanPreflights(kept, file))
  {
    var kept := Tombstoned(rs, Retiring(rs, entries, limit));
    if Doomed(rs, entries, file, limit, id) {
      var j :| j in rs && j.id == id && DoomedBy(rs[j], kept[j], ActiveItems(kept), id, entries, file, limit);
      OverdueMeans(rs, entries, limit, j);
      if IsOrphan(kept[j], ActiveItems(kept) + file) { assert j in OrphanPreflights(kept, file); }
    }
    if id in Retiring(rs, entries, limit) {
      var j :| j in OverdueKeys(rs, entries, limit) && j.id == id;
      OverdueMeans(rs, entries, limit, j);
      assert DoomedBy(rs[j], kept[j], ActiveItems(kept), id, entries, file, limit);
    }
    if id in OrphanItems(kept, file) {
      var j :| j in kept && IsActive(kept[j], WorkItem) && j.id == id;
      assert DoomedBy(rs[j], kept[j], ActiveItems(kept), id, entries, file, limit);
    }
    if id in Ids(OrphanPreflights(kept, file)) {
      var j :| j in OrphanPreflights(kept, file) && j.id == id;
      assert DoomedBy(rs[j], kept[j], ActiveItems(kept), id, entries, file, limit);
    }
  }

  /** What both phases leave, in one step. */
  lemma FlaggedIs(rs: Records, entries: seq<Retention>, file: set<string>, limit: Clock)
    ensures var kept := Tombstoned(rs, Retiring(rs, entries, limit));
      Flagged(rs, entries, file, limit)
        == Tombstoned(rs, Retiring(rs, entries, limit) + (OrphanItems(kept, file) + Ids(OrphanPreflights(kept, file))))
  {
    var kept := Tombstoned(rs, Retiring(rs, entries, limit));
    KeptIs(rs, entries, limit);
    TombstonedTwice(rs, Retiring(rs, entries, limit), OrphanItems(kept, file) + Ids(OrphanPreflights(kept, file)));
  }

  /** The records a full sweep tombstones: those on main, not tombstones already, one of whose
      namesakes is doomed. */
  lemma ChangedIff(rs: Records, entries: seq<Retention>, file: set<string>, limit: Clock, k: Key)
    requires k in rs
    ensures k in Flagged(rs, entries, file, limit)
    ensures Flagged(rs, entries, file, limit)[k] != rs[k]
      <==> k.branch == Main && rs[k].status != Tombstone && Doomed(rs, entries, file, limit, k.id)
  {
    FlaggedIs(rs, entries, file, limit);
    DoomedIff(rs, entries, file, limit, k.id);
  }

  /** The table a sweep works with. */
  function Table(entries: seq<Retention>, orphansOnly: bool): seq<Retention> { if orphansOnly then [] else entries }

  lemma SweptIs(rs: Records, entries: seq<Retention>, file: set<string>, limit: Clock, orphansOnly: bool,
                current: Option<Data>)
    ensures Swept(rs, entries, file, limit, orphansOnly, current)
      == Refreshed(Flagged(rs, Table(entries, orphansOnly), file, limit), if orphansOnly then None else current)
  {
  }

  /** A record other than a refreshed efficiency metric survives a sweep as it is if and only if it
      is not on main, or is a tombstone already, or no record with its id is doomed. */
  lemma UntouchedIff(rs: Records, entries: seq<Retention>, file: set<string>, limit: Clock, orphansOnly: bool,
                     current: Option<Data>, k: Key)
    requires k in rs && (k == EFF_CURRENT ==> orphansOnly || current == None)
    ensures var after := Swept(rs, entries, file, limit, orphansOnly, current);
      && k in after
      && (after[k] == rs[k] <==>
          k.branch != Main || rs[k].status == Tombstone
          || !Doomed(rs, Table(entries, orphansOnly), file, limit, k.id))
  {
    SweptIs(rs, entries, file, limit, orphansOnly, current);
    ChangedIff(rs, Table(entries, orphansOnly), file, limit, k);
  }

  lemma NoneOfThisKind(r: Record, entries: seq<Retention>, limit: Clock)
    requires !HasRetention(r.kind, entries)
    ensures !Overdue(r, entries, limit)
  {
  }

  /** So where ids do not cross kinds, no sweep touches a record of a kind that is kept forever,
      except that a full sweep refreshes the current efficiency metric. */
  lemma KeptForever(rs: Records, entries: seq<Retention>, file: set<string>, limit: Clock, orphansOnly: bool,
                    current: Option<Data>, k: Key)
    requires OneKind(rs) && k in rs && k != EFF_CURRENT
    requires !HasRetention(rs[k].kind, entries) && rs[k].kind !in {WorkItem, PreflightDecision}
    ensures var after := Swept(rs, entries, file, limit, orphansOnly, current);
      k in after && after[k] == rs[k]
  {
    var table := Table(entries, orphansOnly);
    UntouchedIff(rs, entries, file, limit, orphansOnly, current, k);
    forall j | j in rs && j.id == k.id ensures !Overdue(rs[j], table, limit) {
      NoneOfThisKind(rs[j], table, limit);
    }
  }

  // ---------------------------------------------------------------------------------------
  // Dry runs: the retention phase
  // ---------------------------------------------------------------------------------------

  /** A record on main that an entry would flag had its id been left alone by the entries before. */
  ghost predicate TakenEarlier(rs: Records, entries: seq<Retention>, limit: Clock, n: nat, k: Key) {
    && n < |entries| && k in OverdueNow(rs, entries[n], limit)
    && k in Hit(rs, Retiring(rs, entries[..n], limit))
  }

  ghost predicate Overlaps(rs: Records, entries: seq<Retention>, limit: Clock) {
    exists n: nat, k :: TakenEarlier(rs, entries, limit, n, k)
  }

  lemma OverlapsNext(rs: Records, entries: seq<Retention>, limit: Clock)
    requires entries != []
    ensures var n := |entries| - 1;
      Overlaps(rs, entries, limit)
      <==> (Overlaps(rs, entries[..n], limit)
            || OverdueNow(rs, entries[n], limit) * Hit(rs, Retiring(rs, entries[..n], limit)) != {})
  {
    var n := |entries| - 1;
    var both := OverdueNow(rs, entries[n], limit) * Hit(rs, Retiring(rs, entries[..n], limit));
    if Overlaps(rs, entries, limit) {
      var m: nat, k :| TakenEarlier(rs, entries, limit, m, k);
      if m < n {
        assert entries[..n][..m] == entries[..m];
        assert TakenEarlier(rs, entries[..n], limit, m, k);
      } else {
        assert k in both;
      }
    }
    if Overlaps(rs, entries[..n], limit) {
      var m: nat, k :| TakenEarlier(rs, entries[..n], limit, m, k);
      assert entries[..n][..m] == entries[..m];
      assert TakenEarlier(rs, entries, limit, m, k);
    }
    if both != {} {
      var k :| k in both;
      assert TakenEarlier(rs, entries, limit, n, k);
    }
  }

  lemma SizeWithout<T>(a: set<T>, b: set<T>)
    ensures |a - b| == |a| - |a * b|
  {
    assert a == (a - b) + (a * b);
  }

  /** What the last entry flags: in a real run, without the records taken before. */
  function LastFlagged(rs: Records, entries: seq<Retention>, limit: Clock, dry: bool): set<Key>
    requires entries != []
  {
    var n := |entries| - 1;
    OverdueNow(rs, entries[n], limit) - (if dry then {} else Hit(rs, Retiring(rs, entries[..n], limit)))
  }

  lemma LastEntry(rs: Records, entries: seq<Retention>, limit: Clock, dry: bool) returns (p: Retired, count: nat)
    requires entries != []
    ensures p == Retire(rs, entries[..|entries| - 1], limit, dry) && count == |LastFlagged(rs, entries, limit, dry)|
    ensures Retire(rs, entries, limit, dry).count == p.count + count
    ensures Retire(rs, entries, limit, dry).kinds
      == if count == 0 then p.kinds else p.kinds[entries[|entries| - 1].kind := count]
  {
    var n := |entries| - 1;
    p, count := Retire(rs, entries[..n], limit, dry), |LastFlagged(rs, entries, limit, dry)|;
    RetireKindIs(p, entries[n], limit, dry);
    if dry {
      DryKeepsRecords(rs, entries[..n], limit);
      assert LastFlagged(rs, entries, limit, true) == OverdueNow(rs, entries[n], limit);
    } else {
      KeptIs(rs, entries[..n], limit);
      StillOverdue(rs, Retiring(rs, entries[..n], limit), entries[n], limit);
    }
  }

  lemma LastFlaggedSizes(rs: Records, entries: seq<Retention>, limit: Clock)
    requires entries != []
    ensures var n := |entries| - 1;
      var dry, wet := |LastFlagged(rs, entries, limit, true)|, |LastFlagged(rs, entries, limit, false)|;
      && wet <= dry
      && (wet == dry
          <==> OverdueNow(rs, entries[n], limit) * Hit(rs, Retiring(rs, entries[..n], limit)) == {})
  {
    var n := |entries| - 1;
    var now := OverdueNow(rs, entries[n], limit);
    SizeWithout(now, Hit(rs, Retiring(rs, entries[..n], limit)));
    assert now - {} == now;
  }

  /** A real run never retires more than a dry run counts, and the counts agree, in total and by
      kind, if and only if no record on main is overdue whose id an earlier entry deletes. */
  lemma {:induction false} RetentionAlikeIff(rs: Records, entries: seq<Retention>, limit: Clock)
    ensures var dry, wet := Retire(rs, entries, limit, true), Retire(rs, entries, limit, false);
      && wet.count <= dry.count
      && (dry.count == wet.count <==> !Overlaps(rs, entries, limit))
      && (!Overlaps(rs, entries, limit) ==> dry.kinds == wet.kinds)
  {
    if entries != [] {
      RetentionAlikeIff(rs, entries[..|entries| - 1], limit);
      var dry, now := LastEntry(rs, entries, limit, true);
      var wet, still := LastEntry(rs, entries, limit, false);
      LastFlaggedSizes(rs, entries, limit);
      OverlapsNext(rs, entries, limit);
    }
  }

  // ---------------------------------------------------------------------------------------
  // Dry runs: the orphan phase
  // ---------------------------------------------------------------------------------------

  ghost predicate HeldAside(rs: Records, id: string) {
    exists k :: k in rs && k.id == id && k.branch != Main && IsActive(rs[k], WorkItem)
  }

  /** Orphan items that go with the retired ids, as no other branch holds them. */
  ghost function LostItems(rs: Records, file: set<string>, gone: set<string>): set<string> {
    set id | id in OrphanItems(rs, file) && id in gone && !HeldAside(rs, id)
  }

  /** Orphan preflight decisions that go with the retired ids. */
  function LostPreflights(rs: Records, file: set<string>, gone: set<string>): set<Key> {
    OrphanPreflights(rs, file) * Hit(rs, gone)
  }

  /** Preflight decisions that become orphans as their item is lost. */
  ghost function NewPreflights(rs: Records, file: set<string>, gone: set<string>): set<Key> {
    set k | k in rs && k !in Hit(rs, gone) && IsOrphan(rs[k], file) && Parent(rs[k].data) in LostItems(rs, file, gone)
  }

  lemma ActiveAfter(rs: Records, gone: set<string>, id: string)
    ensures id in ActiveItems(Tombstoned(rs, gone))
      <==> id in ActiveItems(rs) && (id in gone ==> HeldAside(rs, id))
  {
    var after := Tombstoned(rs, gone);
    if id in ActiveItems(after) {
      var k :| k in after && IsActive(after[k], WorkItem) && k.id == id;
      assert rs[k] == after[k];
    }
    if id in ActiveItems(rs) && id !in gone {
      var k :| k in rs && IsActive(rs[k], WorkItem) && k.id == id;
      assert after[k] == rs[k];
    }
    if HeldAside(rs, id) {
      var k :| k in rs && k.id == id && k.branch != Main && IsActive(rs[k], WorkItem);
      assert after[k] == rs[k];
    }
  }

  lemma ItemsShift(rs: Records, file: set<string>, gone: set<string>)
    ensures OrphanItems(Tombstoned(rs, gone), file) == OrphanItems(rs, file) - LostItems(rs, file, gone)
  {
    forall id ensures id in OrphanItems(Tombstoned(rs, gone), file)
      <==> id in OrphanItems(rs, file) && id !in LostItems(rs, file, gone)
    {
      ActiveAfter(rs, gone, id);
    }
  }

  lemma OrphanAfterIff(rs: Records, file: set<string>, gone: set<string>, k: Key)
    requires k in rs
    ensures var after := Tombstoned(rs, gone);
      IsOrphan(after[k], ActiveItems(after) + file) <==>
        k !in Hit(rs, gone) && IsOrphan(rs[k], file)
        && (Parent(rs[k].data) in ActiveItems(rs) ==> Parent(rs[k].data) in LostItems(rs, file, gone))
  {
    ActiveAfter(rs, gone, Parent(rs[k].data));
  }

  /** What deleting some ids beforehand does to the records the orphan phase flags. */
  lemma PreflightsShift(rs: Records, file: set<string>, gone: set<string>)
    ensures OrphanPreflights(Tombstoned(rs, gone), file)
      == OrphanPreflights(rs, file) - LostPreflights(rs, file, gone) + NewPreflights(rs, file, gone)
    ensures NewPreflights(rs, file, gone) !! OrphanPreflights(rs, file)
  {
    forall k | k in rs
      ensures k in OrphanPreflights(Tombstoned(rs, gone), file)
        <==> k in OrphanPreflights(rs, file) - LostPreflights(rs, file, gone) + NewPreflights(rs, file, gone)
    {
      OrphanAfterIff(rs, file, gone, k);
    }
  }

  /** The orphan phase flags the same records in both runs if and only if every orphan item whose
      id is retired is held by another branch, and no orphan preflight decision on main has its id
      retired. */
  lemma OrphansAlikeIff(rs: Records, entries: seq<Retention>, file: set<string>, limit: Clock)
    ensures var kept, gone := Kept(rs, entries, limit), Retiring(rs, entries, limit);
      OrphanItems(kept, file) == OrphanItems(rs, file) && OrphanPreflights(kept, file) == OrphanPreflights(rs, file)
      <==> LostItems(rs, file, gone) == {} && LostPreflights(rs, file, gone) == {}
  {
    var gone := Retiring(rs, entries, limit);
    KeptIs(rs, entries, limit);
    ItemsShift(rs, file, gone);
    PreflightsShift(rs, file, gone);
    assert LostItems(rs, file, gone) <= OrphanItems(rs, file);
    assert LostPreflights(rs, file, gone) <= OrphanPreflights(rs, file);
    if LostItems(rs, file, gone) == {} { assert NewPreflights(rs, file, gone) == {}; }
  }

  lemma OrphanCounts(rs: Records, entries: seq<Retention>, file: set<string>, limit: Clock)
    ensures var kept, gone := Kept(rs, entries, limit), Retiring(rs, entries, limit);
      |OrphanItems(kept, file)| + |OrphanPreflights(kept, file)|
        + |LostItems(rs, file, gone)| + |LostPreflights(rs, file, gone)|
      == |OrphanItems(rs, file)| + |OrphanPreflights(rs, file)| + |NewPreflights(rs, file, gone)|
  {
    var gone := Retiring(rs, entries, limit);
    KeptIs(rs, entries, limit);
    ItemsShift(rs, file, gone);
    PreflightsShift(rs, file, gone);
    SizeWithout(OrphanItems(rs, file), LostItems(rs, file, gone));
    assert OrphanItems(rs, file) * LostItems(rs, file, gone) == LostItems(rs, file, gone);
    SizeWithout(OrphanPreflights(rs, file), LostPreflights(rs, file, gone));
    assert OrphanPreflights(rs, file) * LostPreflights(rs, file, gone) == LostPreflights(rs, file, gone);
    DisjointSizes(OrphanPreflights(rs, file) - LostPreflights(rs, file, gone), NewPreflights(rs, file, gone));
  }

  // ---------------------------------------------------------------------------------------
  // Dry runs: the report
  // ---------------------------------------------------------------------------------------

  /** A dry run reports what a real run would, in total and by kind, if and only if no entry finds
      records that an earlier one has deleted by their id, and as many orphans are lost to the
      retention phase as it makes. */
  lemma DryRunReportsTheSameIff(rs: Records, entries: seq<Retention>, file: set<string>, limit: Clock,
                                orphansOnly: bool, current: Option<Data>)
    ensures var dry, wet := Report(rs, entries, file, limit, orphansOnly, true, current),
                            Report(rs, entries, file, limit, orphansOnly, false, current);
      var gone := Retiring(rs, entries, limit);
      dry == wet.(refreshed := false)
      <==> (orphansOnly
            || (!Overlaps(rs, entries, limit)
                && |LostItems(rs, file, gone)| + |LostPreflights(rs, file, gone)| == |NewPreflights(rs, file, gone)|))
  {
    if !orphansOnly {
      RetentionAlikeIff(rs, entries, limit);
      DryKeepsRecords(rs, entries, limit);
      OrphanCounts(rs, entries, file, limit);
    }
  }

  lemma KindsApart(rs: Records, entries: seq<Retention>, limit: Clock, n: nat, k: Key)
    requires OneKind(rs) && n <= |entries| && k in rs && k.id in Retiring(rs, entries[..n], limit)
    ensures exists i :: 0 <= i < n && entries[i].days.Some? && entries[i].kind == rs[k].kind
  {
    var j :| j in OverdueKeys(rs, entries[..n], limit) && j.id == k.id;
    OverdueMeans(rs, entries[..n], limit, j);
    var i :| 0 <= i < n && OverdueAt(rs[j], entries[..n][i], limit);
    assert entries[..n][i] == entries[i];
  }

  /** In particular when ids do not cross kinds. */
  lemma DryRunReportsTheSame(rs: Records, entries: seq<Retention>, file: set<string>, limit: Clock, orphansOnly: bool,
                             current: Option<Data>)
    requires OneKind(rs) && IsPlan(entries)
    ensures var dry, wet := Report(rs, entries, file, limit, orphansOnly, true, current),
                            Report(rs, entries, file, limit, orphansOnly, false, current);
      dry == wet.(refreshed := false)
  {
    DryRunReportsTheSameIff(rs, entries, file, limit, orphansOnly, current);
    forall n: nat, k ensures !TakenEarlier(rs, entries, limit, n, k) {
      if TakenEarlier(rs, entries, limit, n, k) { KindsApart(rs, entries, limit, n, k); }
    }
    NoneLost(rs, entries, file, limit);
  }

  lemma NoneLost(rs: Records, entries: seq<Retention>, file: set<string>, limit: Clock)
    requires OneKind(rs) && IsPlan(entries)
    ensures var gone := Retiring(rs, entries, limit);
      LostItems(rs, file, gone) == {} && LostPreflights(rs, file, gone) == {} && NewPreflights(rs, file, gone) == {}
  {
    var gone := Retiring(rs, entries, limit);
    assert entries[..|entries|] == entries;
    forall k | k in rs && k.id in gone ensures rs[k].kind !in {WorkItem, PreflightDecision} {
      KindsApart(rs, entries, limit, |entries|, k);
    }
  }

  // ---------------------------------------------------------------------------------------
  // One id on two branches
  // ---------------------------------------------------------------------------------------

  /** One id on a branch and on main. */
  function Namesakes(id: string, side: Record, main: Record): Records {
    map[Key(id, Side("x")) := side, Key(id, Main) := main]
  }

  lemma NamesakesTombstoned(id: string, side: Record, main: Record)
    ensures Tombstoned(Namesakes(id, side, main), {id}) == Namesakes(id, side, main.(status := Tombstone))
  {
  }

  /** The first entry flags one record and no other flags any. */
  lemma {:induction false} RetireFirst(rs: Records, entries: seq<Retention>, limit: Clock, dry: bool, k: Key)
    requires entries != [] && OverdueNow(rs, entries[0], limit) == {k}
    requires forall i :: 1 <= i < |entries| ==> OverdueNow(rs, entries[i], limit) == {}
    ensures Retire(rs, entries, limit, dry)
      == Retired(if dry then rs else Tombstoned(rs, {k.id}), 1, map[entries[0].kind := 1])
  {
    var n := |entries| - 1;
    if n == 0 {
      assert entries[..0] == [] && Ids({k}) == {k.id};
      RetireKindIs(Retired(rs, 0, map[]), entries[0], limit, dry);
    } else {
      RetireFirst(rs, entries[..n], limit, dry, k);
      StillOverdue(rs, {k.id}, entries[n], limit);
      RetiresNone(Retire(rs, entries[..n], limit, dry), entries[n], limit, dry);
    }
  }

  lemma RetiresNone(p: Retired, e: Retention, limit: Clock, dry: bool)
    requires OverdueNow(p.records, e, limit) == {}
    ensures RetireKind(p, e, limit, dry) == p
  {
    RetireKindIs(p, e, limit, dry);
    NothingTombstoned(p.records);
    assert Ids({}) == {};
  }

  /** An expired session metric on a branch beside a record on main that is not overdue. */
  lemma NamesakesRetired(id: string, stale: Record, main: Record, limit: Clock, dry: bool)
    requires IsExpired(stale, SessionMetric, limit(60)) && !Overdue(main, RETENTION, limit)
    ensures Retire(Namesakes(id, stale, main), RETENTION, limit, dry)
      == Retired(Namesakes(id, stale, if dry then main else main.(status := Tombstone)), 1, map[SessionMetric := 1])
  {
    var rs, k := Namesakes(id, stale, main), Key(id, Side("x"));
    forall i | 0 <= i < |RETENTION| ensures !OverdueAt(main, RETENTION[i], limit) {}
    forall i | 1 <= i < |RETENTION| ensures RETENTION[i].kind != SessionMetric {}
    assert OverdueNow(rs, RETENTION[0], limit) == {k};
    RetireFirst(rs, RETENTION, limit, dry, k);
    NamesakesTombstoned(id, stale, main);
  }

  lemma NoPreflights(id: string, side: Record, main: Record, file: set<string>)
    requires side.kind == SessionMetric && main.kind != PreflightDecision
    ensures OrphanPreflights(Namesakes(id, side, main), file) == {}
    ensures OrphanItems(Namesakes(id, side, main), file) == if IsActive(main, WorkItem) && id !in file then {id} else {}
  {
    var rs := Namesakes(id, side, main);
    if IsActive(main, WorkItem) { assert rs[Key(id, Main)] == main; }
  }

  /** A dry run can report more: an expired record of another branch shares its id with a work item
      on main that the file lacks.  The real run deletes the work item in the retention phase and
      does not count it as an orphan again. */
  lemma DryRunReportsMore(id: string, stale: Record, item: Record, limit: Clock, current: Option<Data>)
    requires IsExpired(stale, SessionMetric, limit(60)) && IsActive(item, WorkItem)
    ensures var rs := Namesakes(id, stale, item);
      && Report(rs, RETENTION, {}, limit, false, true, current)
        == SweepResult(1, 1, false, map[SessionMetric := 1])
      && Report(rs, RETENTION, {}, limit, false, false, current)
        == SweepResult(1, 0, current.Some?, map[SessionMetric := 1])
  {
    NamesakesRetired(id, stale, item, limit, true);
    NamesakesRetired(id, stale, item, limit, false);
    NoPreflights(id, stale, item, {});
    NoPreflights(id, stale, item.(status := Tombstone), {});
  }

  /** A sweep can delete the wrong record: an expired record of another branch is reported and
      stays, and its namesake on main is tombstoned, be it young or of a kind kept forever. */
  lemma NamesakeIsDeleted(id: string, stale: Record, main: Record, file: set<string>, limit: Clock,
                          current: Option<Data>)
    requires IsExpired(stale, SessionMetric, limit(60)) && !Overdue(main, RETENTION, limit)
    requires main.kind !in {WorkItem, PreflightDecision}
    ensures var rs := Namesakes(id, stale, main);
      && Report(rs, RETENTION, file, limit, false, false, current)
        == SweepResult(1, 0, current.Some?, map[SessionMetric := 1])
      && Swept(rs, RETENTION, file, limit, false, current)
        == Refreshed(Namesakes(id, stale, main.(status := Tombstone)), current)
  {
    NamesakesRetired(id, stale, main, limit, false);
    NoPreflights(id, stale, main.(status := Tombstone), file);
    NothingTombstoned(Namesakes(id, stale, main.(status := Tombstone)));
    assert Ids({}) == {};
  }

  /** For instance a token metric, though token metrics are kept forever. */
  lemma ForeverIsDeleted(id: string, stale: Record, data: Data, file: set<string>, limit: Clock, current: Option<Data>)
    requires IsExpired(stale, SessionMetric, limit(60)) && id != EFF_CURRENT.id
    ensures var rs := Namesakes(id, stale, Record(TokenMetric, Active, data));
      && !HasRetention(TokenMetric, RETENTION) && Key(id, Main) in Swept(rs, RETENTION, file, limit, false, current)
      && Swept(rs, RETENTION, file, limit, false, current)[Key(id, Main)] == Record(TokenMetric, Tombstone, data)
  {
    var main := Record(TokenMetric, Active, data);
    assert !HasRetention(TokenMetric, RETENTION);
    NoneOfThisKind(main, RETENTION, limit);
    NamesakeIsDeleted(id, stale, main, file, limit, current);
  }
}
