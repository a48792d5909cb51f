/** When a record's time is up: the retention phase in terms of time stamps. */
module SweepRetention {
  import opened Options
  import opened Text
  import opened EsdbSweep
  import opened SweepLaws
  import opened SweepEffects

  // ---------------------------------------------------------------------------------------
  // Stamps
  // ---------------------------------------------------------------------------------------

  /** `t` is the first of the three times that is not empty. */
  predicate StampedAt(d: Data, t: string) {
    && t != ""
    && (d.timestamp == t || (d.timestamp == "" && (d.computedAt == t || (d.computedAt == "" && d.createdAt == t))))
  }

  ghost predicate StampedBefore(r: Record, limit: string) { exists t :: StampedAt(r.data, t) && SortsBefore(t, limit) }

  /** An active record of the entry's kind, stamped strictly before the entry's limit. */
  ghost predicate DueFor(r: Record, e: Retention, limit: Clock) {
    r.kind == e.kind && r.status == Active && e.days.Some?
      && StampedBefore(r, limit(e.days.value))
  }

  ghost predicate Due(r: Record, entries: seq<Retention>, limit: Clock) {
    exists i :: 0 <= i < |entries| && DueFor(r, entries[i], limit)
  }

  lemma DueForIff(r: Record, e: Retention, limit: Clock)
    ensures OverdueAt(r, e, limit) <==> DueFor(r, e, limit)
  {
    if e.days.Some? {
      SortsBeforeIff(Stamp(r.data), limit(e.days.value));
      if OverdueAt(r, e, limit) { assert StampedAt(r.data, Stamp(r.data)); }
    }
  }

  lemma DueIff(r: Record, entries: seq<Retention>, limit: Clock)
    ensures Overdue(r, entries, limit) <==> Due(r, entries, limit)
  {
    forall i | 0 <= i < |entries| ensures OverdueAt(r, entries[i], limit) <==> DueFor(r, entries[i], limit) {
      DueForIff(r, entries[i], limit);
    }
  }

  /** Stamped at the limit of an entry for its kind, or later. */
  ghost predicate NotBefore(r: Record, t: string, e: Retention, limit: Clock) {
    e.kind == r.kind && e.days.Some? ==> t == limit(e.days.value) || SortsBefore(limit(e.days.value), t)
  }

  ghost predicate Fresh(r: Record, t: string, entries: seq<Retention>, limit: Clock) {
    StampedAt(r.data, t) && forall i :: 0 <= i < |entries| ==> NotBefore(r, t, entries[i], limit)
  }

  /** A record without a stamp is never due, nor is one stamped at or after its kind's limit. */
  lemma FreshIsNotDue(r: Record, entries: seq<Retention>, limit: Clock)
    requires (forall t :: !StampedAt(r.data, t)) || exists t :: Fresh(r, t, entries, limit)
    ensures !Due(r, entries, limit)
  {
    if t :| Fresh(r, t, entries, limit) {
      forall i | 0 <= i < |entries| ensures !DueFor(r, entries[i], limit) {
        assert NotBefore(r, t, entries[i], limit);
        if entries[i].days.Some? {
          SortsBeforeIff(t, limit(entries[i].days.value));
          SortsBeforeIff(limit(entries[i].days.value), t);
          LexTotal(t, limit(entries[i].days.value));
        }
      }
    }
  }

  /** The table of the code: 60 days for session metrics, 30 for context usage, 90 for ledger
      events, no limit for anything else. */
  lemma DueByTheTable(r: Record, limit: Clock)
    ensures Due(r, RETENTION, limit)
      <==> (r.status == Active
            && ((r.kind == SessionMetric && StampedBefore(r, limit(60)))
                || (r.kind == ContextUsage && StampedBefore(r, limit(30)))
                || (r.kind == LedgerEvent && StampedBefore(r, limit(90)))))
  {
    assert RETENTION[0] == Retention(SessionMetric, Some(60));
    assert RETENTION[1] == Retention(ContextUsage, Some(30));
    assert RETENTION[2] == Retention(LedgerEvent, Some(90));
    assert DueFor(r, RETENTION[0], limit) || DueFor(r, RETENTION[1], limit) || DueFor(r, RETENTION[2], limit)
      ==> Due(r, RETENTION, limit);
  }

  // ---------------------------------------------------------------------------------------
  // What the retention phase counts and deletes
  // ---------------------------------------------------------------------------------------

  ghost function DueRecords(rs: Records, e: Retention, limit: Clock): set<Key> {
    set k | k in rs && DueFor(rs[k], e, limit)
  }

  lemma DueRecordsAre(rs: Records, e: Retention, limit: Clock)
    ensures DueRecords(rs, e, limit) == OverdueNow(rs, e, limit)
  {
    forall k | k in rs ensures OverdueAt(rs[k], e, limit) <==> DueFor(rs[k], e, limit) { DueForIff(rs[k], e, limit); }
  }

  ghost function DueCount(rs: Records, entries: seq<Retention>, limit: Clock): nat {
    if entries == [] then 0
    else DueCount(rs, entries[..|entries| - 1], limit) + |DueRecords(rs, entries[|entries| - 1], limit)|
  }

  /** A dry run counts, entry by entry, exactly the due records, and lists a kind's count where there
      is one. */
  lemma {:induction false} DryRunCountsDue(rs: Records, entries: seq<Retention>, limit: Clock)
    requires IsPlan(entries)
    ensures Retire(rs, entries, limit, true).count == DueCount(rs, entries, limit)
    ensures forall i :: 0 <= i < |entries| ==>
      KindCounted(rs, entries[i], limit, Retire(rs, entries, limit, true).kinds)
    ensures forall kind :: kind in Retire(rs, entries, limit, true).kinds ==>
      exists i :: 0 <= i < |entries| && entries[i].kind == kind
  {
    if entries != [] {
      var n := |entries| - 1;
      FrontIsPlan(entries);
      DryRunCountsDue(rs, entries[..n], limit);
      var p, count := LastEntry(rs, entries, limit, true);
      DueRecordsAre(rs, entries[n], limit);
      assert OverdueNow(rs, entries[n], limit) - {} == OverdueNow(rs, entries[n], limit);
      KindsNext(rs, entries, limit, p.kinds, Retire(rs, entries, limit, true).kinds);
    }
  }

  ghost predicate KindCounted(rs: Records, e: Retention, limit: Clock, kinds: map<Kind, nat>) {
    var count := |DueRecords(rs, e, limit)|;
    if count == 0 then e.kind !in kinds else e.kind in kinds && kinds[e.kind] == count
  }

  lemma KindsNext(rs: Records, entries: seq<Retention>, limit: Clock, before: map<Kind, nat>, after: map<Kind, nat>)
    requires IsPlan(entries) && entries != []
    requires var n := |entries| - 1;
      var count := |DueRecords(rs, entries[n], limit)|;
      && after == (if count == 0 then before else before[entries[n].kind := count])
      && (forall i :: 0 <= i < n ==> KindCounted(rs, entries[..n][i], limit, before))
      && (forall kind :: kind in before ==> exists i :: 0 <= i < n && entries[..n][i].kind == kind)
    ensures forall i :: 0 <= i < |entries| ==> KindCounted(rs, entries[i], limit, after)
    ensures forall kind :: kind in after ==> exists i :: 0 <= i < |entries| && entries[i].kind == kind
  {
    var n := |entries| - 1;
    forall i | 0 <= i < |entries| ensures KindCounted(rs, entries[i], limit, after) {
      if i < n { assert entries[..n][i] == entries[i] && KindCounted(rs, entries[..n][i], limit, before); }
    }
    forall kind | kind in after ensures exists i :: 0 <= i < |entries| && entries[i].kind == kind {
      if kind in before {
        var i :| 0 <= i < n && entries[..n][i].kind == kind;
        assert entries[i].kind == kind;
      } else {
        assert entries[n].kind == kind;
      }
    }
  }

  ghost predicate SomeDue(rs: Records, id: string, entries: seq<Retention>, limit: Clock) {
    exists j :: j in rs && j.id == id && Due(rs[j], entries, limit)
  }

  /** The retention phase changes a record if and only if it is on main, no tombstone yet, and some
      record with its id is due; then it becomes a tombstone. */
  lemma RetiredIff(rs: Records, entries: seq<Retention>, limit: Clock, k: Key)
    requires k in rs
    ensures var after := Retire(rs, entries, limit, false).records;
      && k in after && (after[k] == rs[k] || after[k] == rs[k].(status := Tombstone))
      && (after[k] != rs[k] <==> k.branch == Main && rs[k].status != Tombstone && SomeDue(rs, k.id, entries, limit))
  {
    KeptIs(rs, entries, limit);
    if k.id in Retiring(rs, entries, limit) {
      var j :| j in OverdueKeys(rs, entries, limit) && j.id == k.id;
      OverdueMeans(rs, entries, limit, j);
      DueIff(rs[j], entries, limit);
    }
    if j :| j in rs && j.id == k.id && Due(rs[j], entries, limit) {
      OverdueMeans(rs, entries, limit, j);
      DueIff(rs[j], entries, limit);
    }
  }

  /** A dry run reports as many retired records as are due. */
  lemma ReportsDue(rs: Records, entries: seq<Retention>, file: set<string>, limit: Clock, current: Option<Data>)
    requires IsPlan(entries)
    ensures Report(rs, entries, file, limit, false, true, current).tombstoned == DueCount(rs, entries, limit)
    ensures Report(rs, entries, file, limit, false, false, current).tombstoned <= DueCount(rs, entries, limit)
  {
    DryRunCountsDue(rs, entries, limit);
    RetentionAlikeIff(rs, entries, limit);
  }

  /** A full sweep leaves every due record of main a tombstone, the refreshed metric apart. */
  lemma DueIsSwept(rs: Records, entries: seq<Retention>, file: set<string>, limit: Clock, current: Option<Data>, k: Key)
    requires k in rs && k.branch == Main && Due(rs[k], entries, limit) && (k == EFF_CURRENT ==> current == None)
    ensures var after := Swept(rs, entries, file, limit, false, current);
      k in after && after[k] == rs[k].(status := Tombstone)
  {
    RetiredIff(rs, entries, limit, k);
  }

  // ---------------------------------------------------------------------------------------
  // Records that are not due might as well not be there
  // ---------------------------------------------------------------------------------------

  function Without(rs: Records, k: Key): Records { map j | j in rs && j != k :: rs[j] }

  lemma NotFlaggedAlone(rs: Records, e: Retention, limit: Clock, k: Key)
    requires k in rs && !OverdueAt(rs[k], e, limit)
    ensures OverdueNow(Without(rs, k), e, limit) == OverdueNow(rs, e, limit)
  {
  }

  lemma TombstonedWithout(rs: Records, ids: set<string>, k: Key)
    ensures Without(Tombstoned(rs, ids), k) == Tombstoned(Without(rs, k), ids)
  {
  }

  /** A record that is not due is never counted and never the reason for a deletion: a real or dry
      run without it counts the same and leaves the same other records. */
  lemma {:induction false} NotDueIsIgnored(rs: Records, entries: seq<Retention>, limit: Clock, dry: bool, k: Key)
    requires k in rs && !Due(rs[k], entries, limit)
    ensures var with, without := Retire(rs, entries, limit, dry), Retire(Without(rs, k), entries, limit, dry);
      && without.count == with.count && without.kinds == with.kinds && without.records == Without(with.records, k)
      && k in with.records && FadedAt(rs[k], with.records[k], k.branch)
  {
    if entries != [] {
      var n := |entries| - 1;
      NotDueInFront(rs[k], entries, limit);
      NotDueIsIgnored(rs, entries[..n], limit, dry, k);
      var with := Retire(rs, entries[..n], limit, dry);
      DueForIff(rs[k], entries[n], limit);
      FadedIsNotOverdue(rs[k], with.records[k], k.branch, entries[n], limit);
      IgnoredOnce(with, Retire(Without(rs, k), entries[..n], limit, dry), entries[n], limit, dry, k);
    }
  }

  lemma NotDueInFront(r: Record, entries: seq<Retention>, limit: Clock)
    requires entries != [] && !Due(r, entries, limit)
    ensures !Due(r, entries[..|entries| - 1], limit) && !DueFor(r, entries[|entries| - 1], limit)
  {
    var n := |entries| - 1;
    forall i | 0 <= i < n ensures !DueFor(r, entries[..n][i], limit) { assert !DueFor(r, entries[i], limit); }
    assert !DueFor(r, entries[n], limit);
  }

  lemma FadedIsNotOverdue(before: Record, after: Record, branch: Branch, e: Retention, limit: Clock)
    requires FadedAt(before, after, branch) && !OverdueAt(before, e, limit)
    ensures !OverdueAt(after, e, limit)
  {
  }

  lemma IgnoredOnce(with: Retired, without: Retired, e: Retention, limit: Clock, dry: bool, k: Key)
    requires k in with.records && !OverdueAt(with.records[k], e, limit)
    requires without == Retired(Without(with.records, k), with.count, with.kinds)
    ensures var after, other := RetireKind(with, e, limit, dry), RetireKind(without, e, limit, dry);
      && other == Retired(Without(after.records, k), after.count, after.kinds)
      && k in after.records && FadedAt(with.records[k], after.records[k], k.branch)
  {
    NotFlaggedAlone(with.records, e, limit, k);
    RetireKindIs(with, e, limit, dry);
    RetireKindIs(without, e, limit, dry);
    TombstonedWithout(with.records, Ids(OverdueNow(with.records, e, limit)), k);
  }

  // ---------------------------------------------------------------------------------------
  // Older records and later limits
  // ---------------------------------------------------------------------------------------

  /** Of two active records of one kind, if the later stamped one is due so is the earlier one. */
  lemma OlderIsDueToo(older: Record, later: Record, s: string, t: string, entries: seq<Retention>, limit: Clock)
    requires older.kind == later.kind && older.status == Active && StampedAt(older.data, s) && StampedAt(later.data, t)
    requires (s == t || SortsBefore(s, t)) && Due(later, entries, limit)
    ensures Due(older, entries, limit)
  {
    var i :| 0 <= i < |entries| && DueFor(later, entries[i], limit);
    SortsBeforeChain(s, t, limit(entries[i].days.value));
    assert DueFor(older, entries[i], limit);
  }

  ghost predicate NoEarlier(limit: Clock, later: Clock) {
    forall days: nat :: limit(days) == later(days) || SortsBefore(limit(days), later(days))
  }

  lemma LaterIsDueToo(r: Record, entries: seq<Retention>, limit: Clock, later: Clock)
    requires NoEarlier(limit, later) && Due(r, entries, limit)
    ensures Due(r, entries, later)
  {
    var i :| 0 <= i < |entries| && DueFor(r, entries[i], limit);
    var t :| StampedAt(r.data, t) && SortsBefore(t, limit(entries[i].days.value));
    SortsBeforeChain(t, limit(entries[i].days.value), later(entries[i].days.value));
    assert DueFor(r, entries[i], later);
  }

  /** With later limits a dry run counts at least as many records, and a real run leaves at least
      the same tombstones. */
  lemma LaterLimitsRetireMore(rs: Records, entries: seq<Retention>, limit: Clock, later: Clock)
    requires IsPlan(entries) && NoEarlier(limit, later)
    ensures Retire(rs, entries, limit, true).count <= Retire(rs, entries, later, true).count
    ensures forall k :: k in rs ==>
      (k in Retire(rs, entries, limit, false).records && k in Retire(rs, entries, later, false).records)
    ensures forall k :: k in rs && Retire(rs, entries, limit, false).records[k] != rs[k] ==>
      Retire(rs, entries, later, false).records[k] == rs[k].(status := Tombstone)
  {
    DryRunCountsDue(rs, entries, limit);
    DryRunCountsDue(rs, entries, later);
    MoreAreDue(rs, entries, limit, later);
    forall k | k in rs
      ensures k in Retire(rs, entries, limit, false).records && k in Retire(rs, entries, later, false).records
      ensures Retire(rs, entries, limit, false).records[k] != rs[k] ==>
        Retire(rs, entries, later, false).records[k] == rs[k].(status := Tombstone)
    {
      RetiredIff(rs, entries, limit, k);
      RetiredIff(rs, entries, later, k);
      if Retire(rs, entries, limit, false).records[k] != rs[k] {
        var j :| j in rs && j.id == k.id && Due(rs[j], entries, limit);
        LaterIsDueToo(rs[j], entries, limit, later);
      }
    }
  }

  lemma {:induction false} MoreAreDue(rs: Records, entries: seq<Retention>, limit: Clock, later: Clock)
    requires NoEarlier(limit, later)
    ensures DueCount(rs, entries, limit) <= DueCount(rs, entries, later)
  {
    if entries != [] {
      var e := entries[|entries| - 1];
      MoreAreDue(rs, entries[..|entries| - 1], limit, later);
      forall k | k in DueRecords(rs, e, limit) ensures k in DueRecords(rs, e, later) {
        var t :| StampedAt(rs[k].data, t) && SortsBefore(t, limit(e.days.value));
        SortsBeforeChain(t, limit(e.days.value), later(e.days.value));
      }
      FewerKeys(DueRecords(rs, e, limit), DueRecords(rs, e, later));
    }
  }

  lemma FewerKeys(a: set<Key>, b: set<Key>)
    requires a <= b
    ensures |a| <= |b|
  {
    SizeWithout(b, a);
    assert b * a == a;
  }

  // ---------------------------------------------------------------------------------------
  // The orphan phase
  // ---------------------------------------------------------------------------------------

  /** `parent` is the first of the two parent fields that is not empty. */
  predicate NamesParent(d: Data, parent: string) {
    parent != "" && (d.workItemId == parent || (d.workItemId == "" && d.wiId == parent))
  }

  ghost predicate HasUnknownParent(d: Data, known: set<string>) {
    exists parent :: NamesParent(d, parent) && parent !in known
  }

  lemma OrphanIff(r: Record, known: set<string>)
    ensures IsOrphan(r, known)
      <==> (r.kind == PreflightDecision && r.status == Active && HasUnknownParent(r.data, known))
  {
    if IsOrphan(r, known) { assert NamesParent(r.data, Parent(r.data)); }
  }

  /** The ids of active work items, on whatever branch. */
  ghost function ItemIds(rs: Records): set<string> {
    set k | k in rs && rs[k].kind == WorkItem && rs[k].status == Active :: k.id
  }

  /** Why a full sweep deletes an id: a record with it is due; or, once the ids of all due records are
      gone, an active work item the file lacks, or an active preflight decision that names a parent
      neither among the active items nor in the file. */
  ghost predicate Condemned(rs: Records, after: Records, j: Key, entries: seq<Retention>, file: set<string>,
                            limit: Clock)
    requires j in rs && j in after
  {
    || Due(rs[j], entries, limit)
    || (after[j].kind == WorkItem && after[j].status == Active && j.id !in file)
    || (after[j].kind == PreflightDecision && after[j].status == Active
        && HasUnknownParent(after[j].data, ItemIds(after) + file))
  }

  lemma SameKeys(rs: Records, entries: seq<Retention>, limit: Clock)
    ensures Retire(rs, entries, limit, false).records.Keys == rs.Keys
  {
    KeptIs(rs, entries, limit);
  }

  ghost predicate SomeCondemned(rs: Records, entries: seq<Retention>, file: set<string>, limit: Clock, id: string) {
    var after := Retire(rs, entries, limit, false).records;
    exists j :: j in rs && j in after && j.id == id && Condemned(rs, after, j, entries, file, limit)
  }

  lemma DoomedIsCondemned(rs: Records, entries: seq<Retention>, file: set<string>, limit: Clock, id: string)
    ensures Doomed(rs, entries, file, limit, id) <==> SomeCondemned(rs, entries, file, limit, id)
  {
    var after := Tombstoned(rs, Retiring(rs, entries, limit));
    KeptIs(rs, entries, limit);
    assert ActiveItems(after) == ItemIds(after);
    forall j | j in rs
      ensures DoomedBy(rs[j], after[j], ActiveItems(after), j.id, entries, file, limit)
        <==> Condemned(rs, after, j, entries, file, limit)
    {
      DueIff(rs[j], entries, limit);
      OrphanIff(after[j], ActiveItems(after) + file);
    }
  }

  /** A full sweep turns a record into a tombstone if and only if it is on main, no tombstone yet, and
      its id is condemned; the refreshed metric apart, everything else stays as it is. */
  lemma SweptIff(rs: Records, entries: seq<Retention>, file: set<string>, limit: Clock, current: Option<Data>, k: Key)
    requires k in rs && (k == EFF_CURRENT ==> current == None)
    ensures var after := Swept(rs, entries, file, limit, false, current);
      && k in after
      && after[k] == if k.branch == Main && SomeCondemned(rs, entries, file, limit, k.id)
                     then rs[k].(status := Tombstone) else rs[k]
  {
    DoomedIsCondemned(rs, entries, file, limit, k.id);
    UntouchedIff(rs, entries, file, limit, false, current, k);
    FlaggedIsFaded(rs, entries, file, limit);
  }

  /** A sweep for orphans only retires nothing, and a full one that computes the efficiency metric files
      it under its own id on main. */
  lemma OrphansOnlyRetiresNothing(rs: Records, entries: seq<Retention>, file: set<string>, limit: Clock, dry: bool,
                                  current: Option<Data>)
    ensures Report(rs, entries, file, limit, true, dry, current).tombstoned == 0
    ensures Report(rs, entries, file, limit, true, dry, current).kinds == map[]
    ensures var after, key := Swept(rs, entries, file, limit, false, current), Key("EFF-CURRENT", Main);
      current.Some? ==> key in after && after[key] == Record(EfficiencyMetric, Active, current.value)
  {
  }
}
