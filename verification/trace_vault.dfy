/** The trace vault: an append-only log of records, each chained to the one before by hashes. */
module TraceVaults {
  import opened Text

  /** `_sha256`, left abstract: the hexadecimal digest of a text. */
  type Hash = string -> string

  /** Digests are hexadecimal, so none holds a colon. */
  ghost predicate Digests(h: Hash) {
    forall x :: ':' !in h(x)
  }

  function Genesis(): (g: string)
    ensures |g| == 64 && ':' !in g
  {
    seq(64, _ => '0')
  }

  datatype SealRecord = SealRecord(
    sealId: string, sealType: string, description: string, contentHash: string, prevHash: string,
    entryHash: string, timestamp: string, author: string, artifactIds: seq<string>)

  /** A line of the log file: a record, or something `_load` skips. */
  datatype Line = Entry(rec: SealRecord) | Skipped

  function Content(r: SealRecord): string {
    r.sealId + ":" + r.sealType + ":" + r.description + ":" + r.timestamp
  }

  function Link(contentHash: string, prevHash: string): string {
    contentHash + ":" + prevHash
  }

  function Records(log: seq<Line>): seq<SealRecord> {
    if log == [] then [] else
      Records(log[..|log| - 1])
      + (match log[|log| - 1] case Entry(r) => [r] case Skipped => [])
  }

  function LastHash(recs: seq<SealRecord>): string {
    if recs == [] then Genesis() else recs[|recs| - 1].entryHash
  }

  function SealId(n: nat): string { "SEAL-" + Padded(n, 4) }

  /** The record that is appended to `recs`. */
  function Sealed(h: Hash, recs: seq<SealRecord>, sealType: string, description: string, timestamp: string,
                  author: string, artifactIds: seq<string>): SealRecord {
    var id, prev := SealId(|recs| + 1), LastHash(recs);
    var content := h(id + ":" + sealType + ":" + description + ":" + timestamp);
    SealRecord(id, sealType, description, content, prev, h(Link(content, prev)), timestamp, author, artifactIds)
  }

  datatype Fault = BadContent(id: string) | BadEntry(id: string) | BadLink(id: string)

  function FaultsOf(h: Hash, r: SealRecord, prev: string): seq<Fault> {
    (if r.contentHash != h(Content(r)) then [BadContent(r.sealId)] else [])
    + (if r.entryHash != h(Link(r.contentHash, r.prevHash)) then [BadEntry(r.sealId)] else [])
    + (if r.prevHash != prev then [BadLink(r.sealId)] else [])
  }

  function Faults(h: Hash, recs: seq<SealRecord>): seq<Fault> {
    if recs == [] then [] else
      var front := recs[..|recs| - 1];
      Faults(h, front) + FaultsOf(h, recs[|recs| - 1], LastHash(front))
  }

  class TraceVault {
    const hash: Hash
    var log: seq<Line>

    constructor (hash: Hash, log: seq<Line>)
      ensures this.hash == hash && this.log == log
    {
      this.hash, this.log := hash, log;
    }

    method Load() returns (recs: seq<SealRecord>)
      ensures recs == Records(log)
    {
      recs := [];
      for i := 0 to |log|
        invariant recs == Records(log[..i])
      {
        assert log[..i + 1][..i] == log[..i];
        match log[i]
        case Entry(r) => recs := recs + [r];
        case Skipped =>
      }
      assert log[..|log|] == log;
    }

    method Seal(sealType: string, description: string, timestamp: string, author: string, artifactIds: seq<string>)
      returns (r: SealRecord)
      modifies this`log
      ensures r == Sealed(hash, Records(old(log)), sealType, description, timestamp, author, artifactIds)
      ensures log == old(log) + [Entry(r)]
    {
      var recs := Load();
      var id := SealId(|recs| + 1);
      var prev := if recs != [] then recs[|recs| - 1].entryHash else Genesis();
      var contentHash := hash(id + ":" + sealType + ":" + description + ":" + timestamp);
      var entryHash := hash(Link(contentHash, prev));
      r := SealRecord(id, sealType, description, contentHash, prev, entryHash, timestamp, author, artifactIds);
      log := log + [Entry(r)];
    }

    method Check(r: SealRecord, prev: string) returns (faults: seq<Fault>)
      ensures faults == FaultsOf(hash, r, prev)
    {
      faults := [];
      if r.contentHash != hash(Content(r)) { faults := faults + [BadContent(r.sealId)]; }
      if r.entryHash != hash(Link(r.contentHash, r.prevHash)) { faults := faults + [BadEntry(r.sealId)]; }
      if r.prevHash != prev { faults := faults + [BadLink(r.sealId)]; }
    }

    method Verify() returns (ok: bool, faults: seq<Fault>)
      ensures faults == Faults(hash, Records(log))
      ensures ok <==> faults == []
    {
      var recs := Load();
      if recs == [] { return true, []; }
      faults := [];
      var prev := Genesis();
      for i := 0 to |recs|
        invariant faults == Faults(hash, recs[..i])
        invariant prev == LastHash(recs[..i])
      {
        assert recs[..i + 1][..i] == recs[..i];
        var found := Check(recs[i], prev);
        faults := faults + found;
        prev := recs[i].entryHash;
      }
      assert recs[..|recs|] == recs;
      ok := faults == [];
    }
  }
}
