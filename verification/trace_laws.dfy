/** What the chain of hashes guarantees, for any digest function whose digests hold no colon.
    Where it would have to be free of collisions, the colliding texts are among those the two
    vaults hash. */
module TraceLaws {
  import opened Text
  import opened TraceVaults

  ghost predicate Verified(h: Hash, recs: seq<SealRecord>) { Faults(h, recs) == [] }

  // ---------------------------------------------------------------------------------------
  // Sealing
  // ---------------------------------------------------------------------------------------

  datatype Event = Event(sealType: string, description: string, timestamp: string, author: string,
                         artifactIds: seq<string>)

  function Run(h: Hash, log: seq<Line>, events: seq<Event>): seq<Line> {
    if events == [] then log else
      var before := Run(h, log, events[..|events| - 1]);
      var e := events[|events| - 1];
      before + [Entry(Sealed(h, Records(before), e.sealType, e.description, e.timestamp, e.author, e.artifactIds))]
  }

  lemma RecordsSnoc(log: seq<Line>, r: SealRecord)
    ensures Records(log + [Entry(r)]) == Records(log) + [r]
  {
    assert (log + [Entry(r)])[..|log|] == log;
  }

  /** A seal neither adds a fault nor hides one. */
  lemma SealKeepsFaults(h: Hash, recs: seq<SealRecord>, e: Event)
    ensures Faults(h, recs + [Sealed(h, recs, e.sealType, e.description, e.timestamp, e.author, e.artifactIds)])
      == Faults(h, recs)
  {
    var r := Sealed(h, recs, e.sealType, e.description, e.timestamp, e.author, e.artifactIds);
    assert (recs + [r])[..|recs|] == recs;
  }

  /** Over any run of seals `verify` keeps its findings; from an empty vault it stays clean. */
  lemma {:induction false} RunKeepsFaults(h: Hash, log: seq<Line>, events: seq<Event>)
    ensures Faults(h, Records(Run(h, log, events))) == Faults(h, Records(log))
    ensures log == [] ==> Verified(h, Records(Run(h, log, events)))
  {
    if events != [] {
      var before, e := Run(h, log, events[..|events| - 1]), events[|events| - 1];
      RunKeepsFaults(h, log, events[..|events| - 1]);
      SealKeepsFaults(h, Records(before), e);
      RecordsSnoc(before, Sealed(h, Records(before), e.sealType, e.description, e.timestamp, e.author, e.artifactIds));
    }
  }

  ghost predicate Numbered(recs: seq<SealRecord>) {
    forall i :: 0 <= i < |recs| ==> recs[i].sealId == SealId(i + 1)
  }

  lemma NumberedNext(recs: seq<SealRecord>, r: SealRecord)
    requires Numbered(recs) && r.sealId == SealId(|recs| + 1)
    ensures Numbered(recs + [r])
  {
  }

  /** Runs from an empty vault number their records, so no identifier occurs twice. */
  lemma {:induction false} RunNumbers(h: Hash, events: seq<Event>)
    ensures |Records(Run(h, [], events))| == |events| && Numbered(Records(Run(h, [], events)))
  {
    if events != [] {
      var before, e := Run(h, [], events[..|events| - 1]), events[|events| - 1];
      var sealed := Sealed(h, Records(before), e.sealType, e.description, e.timestamp, e.author, e.artifactIds);
      RunNumbers(h, events[..|events| - 1]);
      RecordsSnoc(before, sealed);
      NumberedNext(Records(before), sealed);
    }
  }

  lemma SealIdsDiffer(m: nat, n: nat)
    requires SealId(m) == SealId(n)
    ensures m == n
  {
    assert SealId(m)[5..] == Padded(m, 4) && SealId(n)[5..] == Padded(n, 4);
  }

  // ---------------------------------------------------------------------------------------
  // Tamper evidence
  // ---------------------------------------------------------------------------------------

  /** The texts that verifying some records hashes. */
  function TextsOf(recs: seq<SealRecord>): seq<string> {
    if recs == [] then []
    else
      var r := recs[|recs| - 1];
      TextsOf(recs[..|recs| - 1]) + [Content(r), Link(r.contentHash, r.prevHash)]
  }

  /** The digest function fails on some texts: two different ones have one digest, or one has the
      genesis value as its digest. */
  ghost predicate BreaksOn(h: Hash, texts: seq<string>) {
    || (exists x, y :: x in texts && y in texts && x != y && h(x) == h(y))
    || (exists x :: x in texts && h(x) == Genesis())
  }

  ghost predicate SameContents(a: seq<SealRecord>, b: seq<SealRecord>) {
    |a| == |b| && forall i :: 0 <= i < |a| ==> Content(a[i]) == Content(b[i])
  }

  /** The hashes of a record that shows no fault. */
  lemma SoundRecord(h: Hash, recs: seq<SealRecord>)
    requires Verified(h, recs) && recs != []
    ensures var r := recs[|recs| - 1];
      && Verified(h, recs[..|recs| - 1])
      && r.contentHash == h(Content(r))
      && r.prevHash == LastHash(recs[..|recs| - 1])
      && r.entryHash == h(Link(r.contentHash, r.prevHash))
  {
  }

  ghost predicate Within(recs: seq<SealRecord>, texts: seq<string>) {
    forall x :: x in TextsOf(recs) ==> x in texts
  }

  lemma LastWithin(recs: seq<SealRecord>, texts: seq<string>)
    requires recs != [] && Within(recs, texts)
    ensures var r := recs[|recs| - 1];
      Content(r) in texts && Link(r.contentHash, r.prevHash) in texts
    ensures Within(recs[..|recs| - 1], texts)
  {
    var r := recs[|recs| - 1];
    assert Content(r) in TextsOf(recs) && Link(r.contentHash, r.prevHash) in TextsOf(recs);
    assert forall x :: x in TextsOf(recs[..|recs| - 1]) ==> x in TextsOf(recs);
  }

  /** The last records of two vaults, and the links before them, can be read off the last hash. */
  lemma LastRecordsAgree(h: Hash, a: seq<SealRecord>, b: seq<SealRecord>, texts: seq<string>)
    requires Digests(h) && Verified(h, a) && Verified(h, b) && LastHash(a) == LastHash(b)
    requires !BreaksOn(h, texts) && Within(a, texts) && Within(b, texts) && a != [] && b != []
    ensures Content(a[|a| - 1]) == Content(b[|b| - 1])
    ensures LastHash(a[..|a| - 1]) == LastHash(b[..|b| - 1])
  {
    var r, q := a[|a| - 1], b[|b| - 1];
    SoundRecord(h, a);
    SoundRecord(h, b);
    LastWithin(a, texts);
    LastWithin(b, texts);
    assert Link(r.contentHash, r.prevHash) == Link(q.contentHash, q.prevHash);
    FirstColon(r.contentHash, r.prevHash, q.contentHash, q.prevHash);
  }

  lemma EndIsNotGenesis(h: Hash, recs: seq<SealRecord>, texts: seq<string>)
    requires Verified(h, recs) && recs != [] && !BreaksOn(h, texts) && Within(recs, texts)
    ensures LastHash(recs) != Genesis()
  {
    SoundRecord(h, recs);
    LastWithin(recs, texts);
  }

  lemma SameContentsNext(a: seq<SealRecord>, b: seq<SealRecord>)
    requires a != [] && b != [] && SameContents(a[..|a| - 1], b[..|b| - 1])
    requires Content(a[|a| - 1]) == Content(b[|b| - 1])
    ensures SameContents(a, b)
  {
    forall i | 0 <= i < |a| ensures Content(a[i]) == Content(b[i]) {
      if i < |a| - 1 { assert a[i] == a[..|a| - 1][i] && b[i] == b[..|b| - 1][i]; }
    }
  }

  lemma {:induction false} UnbrokenEndDecides(h: Hash, a: seq<SealRecord>, b: seq<SealRecord>, texts: seq<string>)
    requires Digests(h) && Verified(h, a) && Verified(h, b) && LastHash(a) == LastHash(b)
    requires !BreaksOn(h, texts) && Within(a, texts) && Within(b, texts)
    ensures SameContents(a, b)
  {
    if a != [] { EndIsNotGenesis(h, a, texts); }
    if b != [] { EndIsNotGenesis(h, b, texts); }
    if a != [] && b != [] {
      LastRecordsAgree(h, a, b, texts);
      SoundRecord(h, a);
      SoundRecord(h, b);
      LastWithin(a, texts);
      LastWithin(b, texts);
      UnbrokenEndDecides(h, a[..|a| - 1], b[..|b| - 1], texts);
      SameContentsNext(a, b);
    }
  }

  /** Two vaults that verify and end in the same entry hash hold the same hashed contents in the
      same order, or the digest fails on the very texts the two vaults hash: no deletion,
      insertion, reordering or edit of hashed fields survives without such a failure. */
  lemma SameEndSameContents(h: Hash, a: seq<SealRecord>, b: seq<SealRecord>)
    requires Digests(h) && Verified(h, a) && Verified(h, b) && LastHash(a) == LastHash(b)
    ensures SameContents(a, b) || BreaksOn(h, TextsOf(a) + TextsOf(b))
  {
    if !BreaksOn(h, TextsOf(a) + TextsOf(b)) { UnbrokenEndDecides(h, a, b, TextsOf(a) + TextsOf(b)); }
  }

  /** Conversely, the hashed contents decide the last entry hash, for any digest function. */
  lemma {:induction false} SameContentsSameEnd(h: Hash, a: seq<SealRecord>, b: seq<SealRecord>)
    requires Verified(h, a) && Verified(h, b) && SameContents(a, b)
    ensures LastHash(a) == LastHash(b)
  {
    if a != [] {
      SoundRecord(h, a);
      SoundRecord(h, b);
      SameContentsSameEnd(h, a[..|a| - 1], b[..|b| - 1]);
    }
  }

  /** An injective digest without colons that never yields the genesis value. */
  ghost predicate Injective(h: Hash) {
    Digests(h) && (forall x, y :: h(x) == h(y) ==> x == y) && (forall x :: h(x) != Genesis())
  }

  /** With such a digest, two verifying vaults end in the same entry hash if and only if they hold
      the same hashed contents. */
  lemma InjectiveIsTamperEvident(h: Hash, a: seq<SealRecord>, b: seq<SealRecord>)
    requires Injective(h) && Verified(h, a) && Verified(h, b)
    ensures LastHash(a) == LastHash(b) <==> SameContents(a, b)
  {
    if LastHash(a) == LastHash(b) { SameEndSameContents(h, a, b); }
    if SameContents(a, b) { SameContentsSameEnd(h, a, b); }
  }

  /** Such functions exist; one is to mark a text and write its colons and bars another way. */
  function Spell(x: string): (s: string)
    ensures ':' !in s
  {
    if x == "" then ""
    else (if x[0] == '|' then "|b" else if x[0] == ':' then "|c" else [x[0]]) + Spell(x[1..])
  }

  lemma {:induction false} SpellIsInjective(x: string, y: string)
    requires Spell(x) == Spell(y)
    ensures x == y
  {
    if x != "" && y != "" {
      var m, n := if x[0] == '|' || x[0] == ':' then 2 else 1, if y[0] == '|' || y[0] == ':' then 2 else 1;
      assert Spell(x)[0] == Spell(y)[0] && m == n;
      assert Spell(x)[m - 1] == Spell(y)[n - 1];
      assert Spell(x)[m..] == Spell(x[1..]) && Spell(y)[n..] == Spell(y[1..]);
      SpellIsInjective(x[1..], y[1..]);
      assert x == [x[0]] + x[1..] && y == [y[0]] + y[1..];
    }
  }

  lemma InjectiveDigestsExist()
    ensures exists h :: Injective(h)
  {
    var h: Hash := x => "x" + Spell(x);
    forall x, y | h(x) == h(y) ensures x == y {
      assert h(x)[1..] == Spell(x) && h(y)[1..] == Spell(y);
      SpellIsInjective(x, y);
    }
    forall x ensures h(x) != Genesis() {
      assert h(x)[0] == 'x' && Genesis()[0] == '0';
    }
    assert Injective(h);
  }

  /** What the chain does not show: a shortened log still verifies, which is why the last entry
      hash has to be known. */
  lemma {:induction false} PrefixVerifies(h: Hash, recs: seq<SealRecord>, k: nat)
    requires Verified(h, recs) && k <= |recs|
    ensures Verified(h, recs[..k])
  {
    if k < |recs| {
      SoundRecord(h, recs);
      PrefixVerifies(h, recs[..|recs| - 1], k);
      assert recs[..|recs| - 1][..k] == recs[..k];
    } else {
      assert recs[..k] == recs;
    }
  }

  /** Author and artifact identifiers are outside the hashes: rewriting them is not seen. */
  lemma {:induction false} AuthorsAreNotSealed(h: Hash, a: seq<SealRecord>, b: seq<SealRecord>)
    requires |a| == |b|
    requires forall i :: 0 <= i < |a| ==> b[i] == a[i].(author := b[i].author, artifactIds := b[i].artifactIds)
    ensures Faults(h, a) == Faults(h, b)
  {
    if a != [] { AuthorsAreNotSealed(h, a[..|a| - 1], b[..|b| - 1]); }
  }

  // ---------------------------------------------------------------------------------------
  // From the hashed content back to the fields
  // ---------------------------------------------------------------------------------------

  predicate EndsIn(s: string, t: string) { |t| <= |s| && s[|s| - |t|..] == t }

  /** Equal contents mean equal fields when identifiers and types hold no colon, as all built-in
      seal types do, and neither time stamp ends in a colon and the other one. */
  lemma ContentDeterminesFields(r: SealRecord, q: SealRecord)
    requires Content(r) == Content(q)
    requires !EndsIn(r.timestamp, ":" + q.timestamp) && !EndsIn(q.timestamp, ":" + r.timestamp)
    requires ':' !in r.sealId && ':' !in q.sealId && ':' !in r.sealType && ':' !in q.sealType
    ensures r.sealId == q.sealId && r.sealType == q.sealType
    ensures r.description == q.description && r.timestamp == q.timestamp
  {
    var x := r.sealType + ":" + r.description + ":" + r.timestamp;
    var y := q.sealType + ":" + q.description + ":" + q.timestamp;
    assert Content(r) == r.sealId + ":" + x && Content(q) == q.sealId + ":" + y;
    FirstColon(r.sealId, x, q.sealId, y);
    var u, v := r.description + ":" + r.timestamp, q.description + ":" + q.timestamp;
    assert x == r.sealType + ":" + u && y == q.sealType + ":" + v;
    FirstColon(r.sealType, u, q.sealType, v);
    LastPart(r.description, r.timestamp, q.description, q.timestamp);
    LastPart(q.description, q.timestamp, r.description, r.timestamp);
    FirstPart(r.description, q.description, r.timestamp);
  }

  lemma FirstPart(a: string, b: string, s: string)
    requires a + ":" + s == b + ":" + s
    ensures a == b
  {
    assert |a + ":" + s| == |b + ":" + s|;
    assert (a + ":" + s)[..|a|] == a && (b + ":" + s)[..|b|] == b;
  }

  lemma LastPart(a: string, s: string, b: string, t: string)
    requires a + ":" + s == b + ":" + t
    ensures |s| < |t| ==> EndsIn(t, ":" + s)
    ensures |t| <= |s| ==> s[|s| - |t|..] == t
  {
    var whole := a + ":" + s;
    assert whole[|whole| - |s| - 1..] == ":" + s;
    assert whole[|whole| - |t|..] == t;
    if |s| < |t| {
      assert t[|t| - |s| - 1..] == ":" + s;
    } else {
      assert whole[|whole| - |s|..] == s;
    }
  }

  /** Python's stamps of one time zone, with and without microseconds, are such: "2026-01-02T" and
      the time, of 25 or 32 characters. */
  predicate IsStamp(s: string) { |s| == 25 || (|s| == 32 && s[6] != ':') }

  lemma StampsStandAlone(s: string, t: string)
    requires IsStamp(s) && IsStamp(t)
    ensures !EndsIn(s, ":" + t)
  {
    if |s| == 32 && |t| == 25 { assert s[6..][0] == s[6] && (":" + t)[0] == ':'; }
  }

  lemma {:induction false} FirstColon(a: string, x: string, b: string, y: string)
    requires a + ":" + x == b + ":" + y && ':' !in a && ':' !in b
    ensures a == b && x == y
  {
    assert (a + ":" + x)[0] == if a == "" then ':' else a[0];
    assert (b + ":" + y)[0] == if b == "" then ':' else b[0];
    if a == "" {
      assert (a + ":" + x)[1..] == x && (b + ":" + y)[1..] == y;
    } else {
      assert (a + ":" + x)[1..] == a[1..] + ":" + x && (b + ":" + y)[1..] == b[1..] + ":" + y;
      FirstColon(a[1..], x, b[1..], y);
    }
  }

  function Colons(s: string): nat {
    if s == "" then 0 else Colons(s[..|s| - 1]) + (if s[|s| - 1] == ':' then 1 else 0)
  }

  lemma {:induction false} ColonsOfBoth(a: string, b: string)
    ensures Colons(a + b) == Colons(a) + Colons(b)
  {
    if b == "" {
      assert a + b == a;
    } else {
      assert (a + b)[..|a + b| - 1] == a + b[..|b| - 1];
      ColonsOfBoth(a, b[..|b| - 1]);
    }
  }

  lemma {:induction false} NoColonsIff(s: string)
    ensures Colons(s) == 0 <==> ':' !in s
  {
    if s != "" {
      assert s == s[..|s| - 1] + [s[|s| - 1]];
      NoColonsIff(s[..|s| - 1]);
    }
  }

  ghost predicate SameFields(r: SealRecord, q: SealRecord) {
    r.sealId == q.sealId && r.sealType == q.sealType && r.description == q.description && r.timestamp == q.timestamp
  }

  predicate HasColon(r: SealRecord) {
    ':' in r.sealId || ':' in r.sealType || ':' in r.description || ':' in r.timestamp
  }

  lemma ContentColons(r: SealRecord)
    ensures Colons(Content(r))
      == Colons(r.sealId) + Colons(r.sealType) + Colons(r.description) + Colons(r.timestamp) + 3
  {
    assert Colons(":") == 1 by { assert ":"[..0] == ""; }
    ColonsOfBoth(r.sealId, ":");
    ColonsOfBoth(r.sealId + ":", r.sealType);
    ColonsOfBoth(r.sealId + ":" + r.sealType, ":");
    ColonsOfBoth(r.sealId + ":" + r.sealType + ":", r.description);
    ColonsOfBoth(r.sealId + ":" + r.sealType + ":" + r.description, ":");
    ColonsOfBoth(r.sealId + ":" + r.sealType + ":" + r.description + ":", r.timestamp);
  }

  lemma HasColonIff(r: SealRecord)
    ensures HasColon(r) <==> Colons(Content(r)) > 3
  {
    ContentColons(r);
    NoColonsIff(r.sealId);
    NoColonsIff(r.sealType);
    NoColonsIff(r.description);
    NoColonsIff(r.timestamp);
  }

  /** Some other fields have the hashed content of a record if and only if one of its own holds a
      colon, as every time stamp does. */
  lemma ContentIsSharedIff(r: SealRecord)
    ensures (exists q :: Content(q) == Content(r) && !SameFields(q, r)) <==> HasColon(r)
  {
    if HasColon(r) {
      var q := Shifted(r);
    } else {
      forall q | Content(q) == Content(r) ensures SameFields(q, r) {
        HasColonIff(q);
        HasColonIff(r);
        NoColonsDecide(q, r);
      }
    }
  }

  lemma EndHasColon(s: string, t: string)
    ensures EndsIn(s, ":" + t) ==> ':' in s
  {
    if EndsIn(s, ":" + t) { assert s[|s| - |t| - 1] == (":" + t)[0]; }
  }

  lemma NoColonsDecide(r: SealRecord, q: SealRecord)
    requires Content(r) == Content(q) && !HasColon(r) && !HasColon(q)
    ensures SameFields(r, q)
  {
    EndHasColon(r.timestamp, q.timestamp);
    EndHasColon(q.timestamp, r.timestamp);
    ContentDeterminesFields(r, q);
  }

  lemma CutAtColon(s: string) returns (a: string, b: string)
    requires ':' in s
    ensures s == a + ":" + b
  {
    var i :| 0 <= i < |s| && s[i] == ':';
    a, b := s[..i], s[i + 1..];
  }

  /** A colon moves text from one field to the next, or from the last to the one before. */
  lemma Shifted(r: SealRecord) returns (q: SealRecord)
    requires HasColon(r)
    ensures Content(q) == Content(r) && !SameFields(q, r)
  {
    if ':' in r.sealId {
      var a, b := CutAtColon(r.sealId);
      q := r.(sealId := a, sealType := b + ":" + r.sealType);
    } else if ':' in r.sealType {
      var a, b := CutAtColon(r.sealType);
      q := r.(sealId := r.sealId + ":" + a, sealType := b);
    } else if ':' in r.description {
      var a, b := CutAtColon(r.description);
      q := r.(sealType := r.sealType + ":" + a, description := b);
    } else {
      var a, b := CutAtColon(r.timestamp);
      q := r.(description := r.description + ":" + a, timestamp := b);
    }
    assert Content(q) == Content(r);
  }

  /** A free-form type with a colon can trade text with the description unseen. */
  lemma ColonsShift(r: SealRecord, kind: string, x: string, y: string)
    ensures Content(r.(sealType := kind + ":" + x, description := y))
      == Content(r.(sealType := kind, description := x + ":" + y))
  {
    var p, q := r.sealId + ":" + (kind + ":" + x) + ":" + y, r.sealId + ":" + kind + ":" + (x + ":" + y);
    assert p == q;
  }

  // ---------------------------------------------------------------------------------------
  // What the vault holds and what verifying it means
  // ---------------------------------------------------------------------------------------

  /** The hash before the `i`-th record: 64 zeros, or the entry hash of the record before. */
  ghost predicate FollowsAt(recs: seq<SealRecord>, i: nat)
    requires i < |recs|
  {
    if i == 0 then |recs[0].prevHash| == 64 && forall k :: 0 <= k < 64 ==> recs[0].prevHash[k] == '0'
    else recs[i].prevHash == recs[i - 1].entryHash
  }

  ghost predicate IntactAt(h: Hash, recs: seq<SealRecord>, i: nat)
    requires i < |recs|
  {
    var r := recs[i];
    && r.contentHash == h(r.sealId + ":" + r.sealType + ":" + r.description + ":" + r.timestamp)
    && r.entryHash == h(r.contentHash + ":" + r.prevHash)
    && FollowsAt(recs, i)
  }

  lemma GenesisIs(g: string)
    ensures g == Genesis() <==> |g| == 64 && forall k :: 0 <= k < 64 ==> g[k] == '0'
  {
  }

  /** A vault verifies if and only if every record holds the digest of its fields, the digest of that
      and of the hash before it, and that hash is the one of the record before. */
  lemma {:induction false} VerifiedIff(h: Hash, recs: seq<SealRecord>)
    ensures Faults(h, recs) == [] <==> forall i :: 0 <= i < |recs| ==> IntactAt(h, recs, i)
  {
    if recs != [] {
      var n := |recs| - 1;
      VerifiedIff(h, recs[..n]);
      GenesisIs(recs[n].prevHash);
      LastIsIntact(h, recs);
      forall i | 0 <= i < n ensures IntactAt(h, recs, i) <==> IntactAt(h, recs[..n], i) {}
    }
  }

  lemma LastIsIntact(h: Hash, recs: seq<SealRecord>)
    requires recs != []
    ensures var n := |recs| - 1;
      FaultsOf(h, recs[n], LastHash(recs[..n])) == [] <==> IntactAt(h, recs, n)
  {
    GenesisIs(recs[|recs| - 1].prevHash);
  }

  ghost predicate Holds(r: SealRecord, e: Event) {
    && r.sealType == e.sealType && r.description == e.description && r.timestamp == e.timestamp
    && r.author == e.author && r.artifactIds == e.artifactIds
  }

  /** After a run of seals the vault holds the sealed events in order, each with all its fields. */
  lemma {:induction false} RunHoldsEvents(h: Hash, events: seq<Event>)
    ensures |Records(Run(h, [], events))| == |events|
    ensures forall i :: 0 <= i < |events| ==> Holds(Records(Run(h, [], events))[i], events[i])
  {
    if events != [] {
      var before, e := Run(h, [], events[..|events| - 1]), events[|events| - 1];
      RunHoldsEvents(h, events[..|events| - 1]);
      RecordsSnoc(before, Sealed(h, Records(before), e.sealType, e.description, e.timestamp, e.author, e.artifactIds));
    }
  }
}
