/** Context residency: which records stay in the model's context, within a token budget. */
module ContextControl {
  import opened PyDict
  import opened StableSort
  import opened Text

  datatype ContextRecord = ContextRecord(
    recordId: string, claim: string, tokenCost: int, relevance: real, confidence: real,
    sourceAuthority: real, recency: real, pinned: bool, unresolved: bool, provenance: string,
    sourceDigest: string, identityKey: string, residency: string)
  {
    function Score(): real {
      relevance * 4.0 + confidence * 2.0 + sourceAuthority * 2.0 + recency
      + (if pinned then 100.0 else 0.0) + (if unresolved then 2.0 else 0.0) - tokenCost as real / 10000.0
    }
  }

  /** `text.split()`: the runs of characters that are not white space. */
  function Words(s: string): seq<string>
    decreases |s|
  {
    if s == "" then []
    else if IsSpace(s[0]) then Words(s[1..])
    else [s[..WordEnd(s)]] + Words(s[WordEnd(s)..])
  }

  function WordEnd(s: string): (n: nat)
    ensures n <= |s|
    ensures s != "" && !IsSpace(s[0]) ==> n > 0
  {
    if s == "" || IsSpace(s[0]) then 0 else 1 + WordEnd(s[1..])
  }

  /** Claims that differ only in case and spacing count as one. */
  function ClaimKey(claim: string): string { Join(Words(Lower(claim)), " ") }

  /** The rank order: score descending, then identifier. */
  predicate RankLe(x: ContextRecord, y: ContextRecord) {
    x.Score() > y.Score() || (x.Score() == y.Score() && LexLe(x.recordId, y.recordId))
  }

  // ---------------------------------------------------------------------------------------
  // Greedy selection, for any claim key
  // ---------------------------------------------------------------------------------------

  type Keying = ContextRecord -> string

  function ClaimKeys(): Keying { (r: ContextRecord) => ClaimKey(r.claim) }

  datatype Reason = Selected | Duplicate | OverBudget

  datatype Pick = Pick(selected: seq<ContextRecord>, reasons: map<string, Reason>, used: int, seen: set<string>)

  /** What happens to the next record in rank order. */
  function Verdict(p: Pick, r: ContextRecord, budget: int, key: Keying): Reason {
    if key(r) in p.seen then Duplicate
    else if p.used + r.tokenCost > budget then OverBudget
    else Selected
  }

  function Step(p: Pick, r: ContextRecord, budget: int, key: Keying): Pick {
    var v := Verdict(p, r, budget, key);
    var reasons := p.reasons[r.recordId := v];
    if v == Selected
    then Pick(p.selected + [r.(residency := "resident")], reasons, p.used + r.tokenCost, p.seen + {key(r)})
    else p.(reasons := reasons)
  }

  function Greedy(ranked: seq<ContextRecord>, budget: int, key: Keying): Pick {
    if ranked == [] then Pick([], map[], 0, {})
    else Step(Greedy(ranked[..|ranked| - 1], budget, key), ranked[|ranked| - 1], budget, key)
  }

  method SelectGreedily(ranked: seq<ContextRecord>, budget: int, key: Keying)
    returns (selected: seq<ContextRecord>, reasons: map<string, Reason>)
    ensures selected == Greedy(ranked, budget, key).selected
    ensures reasons == Greedy(ranked, budget, key).reasons
  {
    selected, reasons := [], map[];
    var used, seen: set<string> := 0, {};
    for i := 0 to |ranked|
      invariant Pick(selected, reasons, used, seen) == Greedy(ranked[..i], budget, key)
    {
      assert ranked[..i + 1][..i] == ranked[..i];
      var r := ranked[i];
      if key(r) in seen {
        reasons := reasons[r.recordId := Duplicate];
      } else if used + r.tokenCost > budget {
        reasons := reasons[r.recordId := OverBudget];
      } else {
        selected := selected + [r.(residency := "resident")];
        seen := seen + {key(r)};
        used := used + r.tokenCost;
        reasons := reasons[r.recordId := Selected];
      }
    }
    assert ranked[..|ranked|] == ranked;
  }

  function Indexed(records: seq<ContextRecord>): (d: Dict<string, ContextRecord>)
    ensures d.Valid()
  {
    if records == [] then Empty() else
      Indexed(records[..|records| - 1]).Put(records[|records| - 1].recordId, records[|records| - 1])
  }

  function Retrieved(d: Dict<string, ContextRecord>, budget: int): Pick
    requires d.Valid()
  {
    Greedy(Sort(d.Values(), RankLe), budget, ClaimKeys())
  }

  /** Unpinned records named in `ids` become cold; nothing else changes. */
  function Offloaded(at: map<string, ContextRecord>, ids: seq<string>): (r: map<string, ContextRecord>)
    ensures r.Keys == at.Keys
  {
    map id | id in at :: if id in ids && !at[id].pinned then at[id].(residency := "cold") else at[id]
  }

  class ResidencyIndex {
    var records: Dict<string, ContextRecord>

    ghost predicate Valid()
      reads this
    {
      records.Valid()
    }

    constructor (items: seq<ContextRecord>)
      ensures Valid() && records == Indexed(items)
    {
      var d: Dict<string, ContextRecord> := Empty();
      for i := 0 to |items|
        invariant d.Valid() && d == Indexed(items[..i])
      {
        assert items[..i + 1][..i] == items[..i];
        d := d.Put(items[i].recordId, items[i]);
      }
      assert items[..|items|] == items;
      records := d;
    }

    method Offload(ids: seq<string>)
      requires Valid()
      modifies this`records
      ensures Valid() && records.order == old(records.order)
      ensures records.at == Offloaded(old(records.at), ids)
    {
      for i := 0 to |ids|
        invariant Valid() && records.order == old(records.order)
        invariant records.at == Offloaded(old(records.at), ids[..i])
      {
        assert ids[..i + 1] == ids[..i] + [ids[i]];
        var id := ids[i];
        if id in records.at && !records.at[id].pinned {
          records := records.Put(id, records.at[id].(residency := "cold"));
        }
      }
      assert ids[..|ids|] == ids;
    }

    method Retrieve(budget: int) returns (selected: seq<ContextRecord>, reasons: map<string, Reason>)
      requires Valid()
      ensures selected == Retrieved(records, budget).selected
      ensures reasons == Retrieved(records, budget).reasons
    {
      var ranked := Sort(records.Values(), RankLe);
      selected, reasons := SelectGreedily(ranked, budget, ClaimKeys());
    }
  }

  // ---------------------------------------------------------------------------------------
  // Health and cleanup
  // ---------------------------------------------------------------------------------------

  datatype Status = Healthy | Warning | Unsafe

  datatype HealthReport = HealthReport(
    status: Status, missing: seq<string>, duplicates: bool, stale: set<string>, contradictions: bool,
    gaps: set<string>, quarantined: set<string>)

  predicate IsStale(r: ContextRecord, digests: map<string, string>) {
    r.provenance in digests && r.sourceDigest != digests[r.provenance]
  }

  /** Two records with one claim key. */
  ghost predicate HasDuplicates(items: seq<ContextRecord>, key: Keying) {
    exists i, j :: 0 <= i < j < |items| && key(items[i]) == key(items[j])
  }

  /** Two records that claim different things under one identity key. */
  ghost predicate HasContradictions(items: seq<ContextRecord>) {
    exists i, j :: 0 <= i < j < |items| && items[i].identityKey != ""
      && items[i].identityKey == items[j].identityKey && items[i].claim != items[j].claim
  }

  /** `suspicious` stands for the pattern of embedded instructions. */
  method CheckHealth(items: seq<ContextRecord>, missing: seq<string>, digests: map<string, string>,
                     suspicious: string -> bool, key: Keying) returns (h: HealthReport)
    ensures h.missing == missing
    ensures forall id :: id in h.stale <==>
      (exists r :: r in items && r.recordId == id && r.provenance in digests && r.sourceDigest != digests[r.provenance])
    ensures forall id :: id in h.gaps <==> exists r :: r in items && r.recordId == id && r.provenance == ""
    ensures forall id :: id in h.quarantined <==> exists r :: r in items && r.recordId == id && suspicious(r.claim)
    ensures h.duplicates <==> HasDuplicates(items, key)
    ensures h.contradictions <==> HasContradictions(items)
    ensures h.status == Unsafe <==> missing != [] || h.contradictions || h.quarantined != {}
    ensures h.status == Healthy <==>
      (missing == [] && !h.duplicates && h.stale == {} && !h.contradictions && h.gaps == {} && h.quarantined == {})
  {
    var stale, gaps, quarantined := Marked(items, (r: ContextRecord) => IsStale(r, digests)),
      Marked(items, (r: ContextRecord) => r.provenance == ""), Marked(items, (r: ContextRecord) => suspicious(r.claim));
    var duplicates := FindDuplicates(items, key);
    var contradictions := FindContradictions(items);
    var unsafe := missing != [] || contradictions || quarantined != {};
    var findings := unsafe || duplicates || stale != {} || gaps != {};
    h := HealthReport(if unsafe then Unsafe else if findings then Warning else Healthy,
                      missing, duplicates, stale, contradictions, gaps, quarantined);
  }

  function Marked(items: seq<ContextRecord>, bad: ContextRecord -> bool): (ids: set<string>)
    ensures forall id :: id in ids <==> exists r :: r in items && r.recordId == id && bad(r)
  {
    set r | r in items && bad(r) :: r.recordId
  }

  method FindDuplicates(items: seq<ContextRecord>, key: Keying) returns (found: bool)
    ensures found <==> HasDuplicates(items, key)
  {
    found := false;
    var byClaim: map<string, nat> := map[];
    for i := 0 to |items|
      invariant forall k :: k in byClaim ==> byClaim[k] < i && key(items[byClaim[k]]) == k
      invariant forall j :: 0 <= j < i ==> key(items[j]) in byClaim
      invariant found <==> exists a, b :: 0 <= a < b < i && key(items[a]) == key(items[b])
    {
      if key(items[i]) in byClaim { found := true; }
      byClaim := byClaim[key(items[i]) := i];
    }
  }

  method FindContradictions(items: seq<ContextRecord>) returns (found: bool)
    ensures found <==> HasContradictions(items)
  {
    found := false;
    var byIdentity: map<string, nat> := map[];
    for i := 0 to |items|
      invariant forall k :: k in byIdentity ==> byIdentity[k] < i && items[byIdentity[k]].identityKey == k && k != ""
      invariant forall j :: 0 <= j < i && items[j].identityKey != "" ==> items[j].identityKey in byIdentity
      invariant found <==> HasContradictions(items[..i])
    {
      var k := items[i].identityKey;
      if k != "" {
        if k in byIdentity {
          if items[byIdentity[k]].claim != items[i].claim { found := true; }
        } else {
          byIdentity := byIdentity[k := i];
        }
      }
    }
  }

  datatype Cleanup = NoCheckpoint | Cleaned(packet: seq<ContextRecord>, report: HealthReport)

  /** The records whose identifier is not excluded. */
  function Allowed(items: seq<ContextRecord>, excluded: set<string>): (r: seq<ContextRecord>)
    ensures forall x :: x in r <==> x in items && x.recordId !in excluded
  {
    if items == [] then [] else
      assert items == items[..|items| - 1] + [items[|items| - 1]];
      Allowed(items[..|items| - 1], excluded)
      + (if items[|items| - 1].recordId in excluded then [] else [items[|items| - 1]])
  }

  /** `cleanup_context`: refused without a checkpoint; stale and quarantined records stay out. */
  method CleanupContext(checkpoint: bool, items: seq<ContextRecord>, budget: int, missing: seq<string>,
                        digests: map<string, string>, suspicious: string -> bool) returns (c: Cleanup)
    ensures c == NoCheckpoint <==> !checkpoint
    ensures c.Cleaned? ==> (c.packet
      == Retrieved(Indexed(Allowed(items, c.report.stale + c.report.quarantined)), budget).selected)
    ensures c.Cleaned? ==> forall id :: id in c.report.stale <==>
      (exists r :: r in items && r.recordId == id && r.provenance in digests && r.sourceDigest != digests[r.provenance])
    ensures c.Cleaned? ==> forall id :: id in c.report.quarantined <==>
      exists r :: r in items && r.recordId == id && suspicious(r.claim)
    ensures c.Cleaned? ==> (c.report.status == Unsafe <==>
      missing != [] || HasContradictions(items) || c.report.quarantined != {})
  {
    if !checkpoint { return NoCheckpoint; }
    var report := CheckHealth(items, missing, digests, suspicious, ClaimKeys());
    var index := new ResidencyIndex(Allowed(items, report.stale + report.quarantined));
    var selected, _ := index.Retrieve(budget);
    c := Cleaned(selected, report);
  }
}
