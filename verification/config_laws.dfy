/** What resolved configurations hold, and when the recorded provenance tells the truth. */
module ConfigLaws {
  import opened Options
  import opened Text
  import opened ConfigResolver

  type Path = seq<string>

  function Lookup(m: Entries, p: Path): Option<Value>
    decreases |p|
  {
    if p == [] || p[0] !in m then None
    else if |p| == 1 then Some(m[p[0]])
    else if m[p[0]].Mapping? then Lookup(m[p[0]].entries, p[1..])
    else None
  }

  ghost predicate LeafAt(m: Entries, p: Path, v: Value) { !v.Mapping? && Lookup(m, p) == Some(v) }

  ghost predicate MappingAt(m: Entries, p: Path) { Lookup(m, p).Some? && Lookup(m, p).value.Mapping? }

  /** A proper prefix of `p` holds something other than a mapping. */
  predicate Blocks(m: Entries, p: Path)
    decreases |p|
  {
    |p| > 1 && p[0] in m && (m[p[0]].Mapping? ==> Blocks(m[p[0]].entries, p[1..]))
  }

  // ---------------------------------------------------------------------------------------
  // Values: which source a leaf comes from
  // ---------------------------------------------------------------------------------------

  /** A leaf of a merge comes from the incoming source, or from the target if the incoming source
      neither defines nor blocks its path. */
  lemma {:induction false} MergedLeafIff(t: Entries, i: Entries, p: Path, v: Value)
    requires !v.Mapping?
    ensures LeafAt(Merged(t, i), p, v)
      <==> LeafAt(i, p, v) || (Lookup(i, p) == None && !Blocks(i, p) && LeafAt(t, p, v))
    decreases |p|
  {
    if |p| > 1 && BothMappings(t, i, p[0]) {
      MergedLeafIff(t[p[0]].entries, i[p[0]].entries, p[1..], v);
    }
  }

  lemma {:induction false} MergedMapping(t: Entries, i: Entries, p: Path)
    requires MappingAt(Merged(t, i), p)
    ensures MappingAt(i, p) || MappingAt(t, p)
    decreases |p|
  {
    var k := p[0];
    assert Merged(t, i)[k] == if k in i then MergedAt(t, i, k) else t[k];
    if |p| > 1 && BothMappings(t, i, p[0]) {
      MergedMapping(t[p[0]].entries, i[p[0]].entries, p[1..]);
    }
  }

  const EMPTY := State(map[], map[])
  const DEFAULTS := Source("default", START.values)

  lemma DefaultsFirst()
    ensures After(EMPTY, DEFAULTS) == START
  {
    var i := DEFAULTS.data;
    assert AssignedAt(map[], i, "", "schema_version") == {"schema_version"};
    assert Assigned(map[], i, "", i.Keys) == {"schema_version"};
    assert Merged(map[], i) == START.values;
  }

  /** Starting with the default schema version is merging it as the first source. */
  lemma DefaultsAreASource(sources: seq<Source>)
    ensures Resolved(START, sources) == Resolved(EMPTY, [DEFAULTS] + sources)
  {
    DefaultsFirst();
    StartIsASource(START, DEFAULTS, sources);
  }

  lemma {:induction false} StartIsASource(start: State, first: Source, sources: seq<Source>)
    requires After(EMPTY, first) == start
    ensures Resolved(start, sources) == Resolved(EMPTY, [first] + sources)
  {
    if sources == [] {
      assert [first] + sources == [first] && [first][..0] == [];
      OneStep([first], EMPTY);
    } else {
      var front, all := sources[..|sources| - 1], [first] + sources;
      StartIsASource(start, first, front);
      assert all[..|sources|] == [first] + front;
      OneStep(all, Resolved(start, front));
    }
  }

  /** Source `j` defines the leaf and no later source defines or blocks its path. */
  ghost predicate Provides(sources: seq<Source>, j: nat, p: Path, v: Value) {
    && j < |sources| && LeafAt(sources[j].data, p, v)
    && forall k :: j < k < |sources| ==> Lookup(sources[k].data, p) == None && !Blocks(sources[k].data, p)
  }

  /** A leaf of the resolved configuration is exactly a leaf of some source that no later source
      defines or blocks: the value of the highest-precedence source that defines it.  This holds
      also when the sources disagree about what is a mapping, as long as no source uses one
      mapping object in two places. */
  lemma {:induction false} ResolvedLeafIff(sources: seq<Source>, p: Path, v: Value)
    requires !v.Mapping?
    ensures LeafAt(Resolved(EMPTY, sources).values, p, v) <==> Provided(sources, p, v)
  {
    if sources != [] {
      var n := |sources| - 1;
      ResolvedLeafIff(sources[..n], p, v);
      MergedLeafIff(Resolved(EMPTY, sources[..n]).values, sources[n].data, p, v);
      ProvidesNext(sources, p, v);
    }
  }

  ghost predicate Provided(sources: seq<Source>, p: Path, v: Value) { exists j: nat :: Provides(sources, j, p, v) }

  lemma ProvidesNext(sources: seq<Source>, p: Path, v: Value)
    requires sources != [] && !v.Mapping?
    ensures var last := sources[|sources| - 1].data;
      Provided(sources, p, v) <==>
        (LeafAt(last, p, v)
         || (Lookup(last, p) == None && !Blocks(last, p) && Provided(sources[..|sources| - 1], p, v)))
  {
    var n := |sources| - 1;
    if Provided(sources, p, v) {
      var j: nat :| Provides(sources, j, p, v);
      if j < n { assert Provides(sources[..n], j, p, v); }
    }
    if LeafAt(sources[n].data, p, v) { assert Provides(sources, n, p, v); }
    if Lookup(sources[n].data, p) == None && !Blocks(sources[n].data, p) && Provided(sources[..n], p, v) {
      var j: nat :| Provides(sources[..n], j, p, v);
      assert Provides(sources, j, p, v);
    }
  }

  // ---------------------------------------------------------------------------------------
  // Dotted paths
  // ---------------------------------------------------------------------------------------

  ghost predicate PlainKey(k: string) { k != "" && '.' !in k }

  ghost predicate PlainPath(p: Path) { p != [] && forall i :: 0 <= i < |p| ==> PlainKey(p[i]) }

  /** Every key in the tree is nonempty and has no dot. */
  ghost predicate Plain(m: Entries) { forall p :: Lookup(m, p).Some? ==> PlainPath(p) }

  function Dotted(p: Path): string { Join(p, ".") }

  lemma {:induction false} SplitDotted(p: Path)
    requires PlainPath(p)
    ensures SplitOn(Dotted(p), '.') == p
  {
    SplitOnAt(p[0], '.', Dotted(p[1..]));
    if |p| > 1 {
      SplitDotted(p[1..]);
      assert Dotted(p) == p[0] + ['.'] + Dotted(p[1..]);
    }
  }

  lemma DottedIsInjective(p: Path, q: Path)
    requires PlainPath(p) && PlainPath(q) && Dotted(p) == Dotted(q)
    ensures p == q
  {
    SplitDotted(p);
    SplitDotted(q);
  }

  function DottedFrom(prefix: string, p: Path): string
    decreases |p|
  {
    if p == [] then prefix else DottedFrom(Extend(prefix, p[0]), p[1..])
  }

  lemma {:induction false} DottedFromPrefix(prefix: string, p: Path)
    requires PlainPath(p)
    decreases |p|
    ensures DottedFrom(prefix, p) == if prefix == "" then Dotted(p) else prefix + "." + Dotted(p)
  {
    if |p| > 1 {
      DottedFromPrefix(Extend(prefix, p[0]), p[1..]);
      if prefix != "" {
        assert prefix + "." + p[0] + "." + Dotted(p[1..]) == prefix + "." + (p[0] + "." + Dotted(p[1..]));
      }
    }
  }

  /** Does merging assign at exactly this path? */
  predicate AssignedPath(t: Entries, i: Entries, p: Path)
    decreases |p|
  {
    p != [] && p[0] in i &&
    if BothMappings(t, i, p[0]) then AssignedPath(t[p[0]].entries, i[p[0]].entries, p[1..]) else |p| == 1
  }

  lemma {:induction false} AssignedPathIsAssigned(t: Entries, i: Entries, prefix: string, p: Path)
    requires AssignedPath(t, i, p)
    ensures DottedFrom(prefix, p) in Assigned(t, i, prefix, i.Keys)
    decreases |p|
  {
    var k := p[0];
    if BothMappings(t, i, k) {
      AssignedPathIsAssigned(t[k].entries, i[k].entries, Extend(prefix, k), p[1..]);
    }
    assert DottedFrom(prefix, p) in AssignedAt(t, i, prefix, k);
  }

  lemma {:induction false} AssignedHasPath(t: Entries, i: Entries, prefix: string, d: string) returns (p: Path)
    requires d in Assigned(t, i, prefix, i.Keys)
    ensures AssignedPath(t, i, p) && d == DottedFrom(prefix, p)
    decreases Mapping(i)
  {
    var k :| k in i && d in AssignedAt(t, i, prefix, k);
    if BothMappings(t, i, k) {
      var q := AssignedHasPath(t[k].entries, i[k].entries, Extend(prefix, k), d);
      p := [k] + q;
      assert p[1..] == q;
    } else {
      p := [k];
      assert p[1..] == [];
    }
  }

  lemma {:induction false} AssignedIsDefined(t: Entries, i: Entries, p: Path)
    requires AssignedPath(t, i, p)
    ensures Lookup(i, p).Some? && Lookup(Merged(t, i), p).Some?
    decreases |p|
  {
    if BothMappings(t, i, p[0]) { AssignedIsDefined(t[p[0]].entries, i[p[0]].entries, p[1..]); }
  }

  /** For plain keys, a dotted path is recorded by a merge exactly when its key path is assigned. */
  lemma DottedAssignedIff(t: Entries, i: Entries, p: Path)
    requires Plain(i) && PlainPath(p)
    ensures Dotted(p) in Assigned(t, i, "", i.Keys) <==> AssignedPath(t, i, p)
  {
    DottedFromPrefix("", p);
    if AssignedPath(t, i, p) { AssignedPathIsAssigned(t, i, "", p); }
    if Dotted(p) in Assigned(t, i, "", i.Keys) {
      var q := AssignedHasPath(t, i, "", Dotted(p));
      AssignedIsDefined(t, i, q);
      assert PlainPath(q);
      DottedFromPrefix("", q);
      DottedIsInjective(p, q);
    }
  }

  // ---------------------------------------------------------------------------------------
  // Where along a path a merge assigns
  // ---------------------------------------------------------------------------------------

  /** How many keys of `p` name the place where the incoming value was put in. */
  function AttachAt(t: Entries, i: Entries, p: Path): nat
    decreases |p|
  {
    if p == [] then 0
    else if BothMappings(t, i, p[0]) then 1 + AttachAt(t[p[0]].entries, i[p[0]].entries, p[1..])
    else 1
  }

  /** Along the path of an incoming leaf exactly one prefix is assigned. */
  lemma {:induction false} LeafAssignsOnce(t: Entries, i: Entries, p: Path, v: Value, n: nat)
    requires LeafAt(i, p, v) && 1 <= n <= |p|
    ensures 1 <= AttachAt(t, i, p) <= |p|
    ensures AssignedPath(t, i, p[..n]) <==> n == AttachAt(t, i, p)
    decreases |p|
  {
    if BothMappings(t, i, p[0]) {
      assert |p| > 1;
      LeafAssignsOnce(t[p[0]].entries, i[p[0]].entries, p[1..], v, if n == 1 then 1 else n - 1);
      assert p[..n][1..] == p[1..][..n - 1];
    }
  }

  /** Along a path that the incoming source neither defines nor blocks nothing is assigned. */
  lemma {:induction false} AbsentAssignsNothing(t: Entries, i: Entries, p: Path, n: nat)
    requires Lookup(i, p) == None && !Blocks(i, p) && Lookup(t, p).Some? && 1 <= n <= |p|
    ensures !AssignedPath(t, i, p[..n])
    decreases |p|
  {
    if p[0] in i {
      assert |p| > 1 && BothMappings(t, i, p[0]);
      if n > 1 {
        AbsentAssignsNothing(t[p[0]].entries, i[p[0]].entries, p[1..], n - 1);
        assert p[..n][1..] == p[1..][..n - 1];
      }
    }
  }

  // ---------------------------------------------------------------------------------------
  // Provenance of a leaf: the longest recorded prefix of its path
  // ---------------------------------------------------------------------------------------

  function NameOf(provenance: Provenance, p: Path): Option<string> {
    if p == [] then None
    else if Dotted(p) in provenance then Some(provenance[Dotted(p)])
    else NameOf(provenance, p[..|p| - 1])
  }

  /** Some prefix of `p` longer than `a` keys is recorded. */
  ghost predicate RecordedBeyond(provenance: Provenance, p: Path, a: nat) {
    exists n :: a < n <= |p| && Dotted(p[..n]) in provenance
  }

  lemma {:induction false} NameOfAt(provenance: Provenance, p: Path, a: nat)
    requires 1 <= a <= |p| && Dotted(p[..a]) in provenance && !RecordedBeyond(provenance, p, a)
    ensures NameOf(provenance, p) == Some(provenance[Dotted(p[..a])])
  {
    if a < |p| {
      assert p[..|p|] == p;
      assert Dotted(p) !in provenance;
      var q := p[..|p| - 1];
      forall n | a < n <= |q| ensures Dotted(q[..n]) !in provenance {
        assert q[..n] == p[..n];
      }
      assert q[..a] == p[..a];
      NameOfAt(provenance, q, a);
    } else {
      assert p[..a] == p;
    }
  }

  lemma {:induction false} NameBeyond(before: Provenance, after: Provenance, p: Path, a: nat)
    requires RecordedBeyond(before, p, a)
    requires forall n :: a < n <= |p| && Dotted(p[..n]) in before ==>
      Dotted(p[..n]) in after && after[Dotted(p[..n])] == before[Dotted(p[..n])]
    requires forall n :: a < n <= |p| && Dotted(p[..n]) in after ==> Dotted(p[..n]) in before
    ensures NameOf(after, p).Some? && NameOf(after, p).value in before.Values
  {
    assert p[..|p|] == p;
    if Dotted(p) in before {
      assert after[Dotted(p)] == before[Dotted(p)];
    } else {
      var q := p[..|p| - 1];
      forall n | a < n <= |q| ensures q[..n] == p[..n] {}
      var n :| a < n <= |p| && Dotted(p[..n]) in before;
      assert n <= |q| && Dotted(q[..n]) in before;
      NameBeyond(before, after, q, a);
    }
  }

  lemma {:induction false} SameNames(before: Provenance, after: Provenance, p: Path)
    requires forall n :: 1 <= n <= |p| ==>
      (Dotted(p[..n]) in before <==> Dotted(p[..n]) in after)
      && (Dotted(p[..n]) in before ==> after[Dotted(p[..n])] == before[Dotted(p[..n])])
    ensures NameOf(after, p) == NameOf(before, p)
  {
    if p != [] {
      assert p[..|p|] == p;
      var q := p[..|p| - 1];
      forall n | 1 <= n <= |q| ensures q[..n] == p[..n] {}
      SameNames(before, after, q);
    }
  }

  lemma PrefixIsPlain(p: Path, n: nat)
    requires PlainPath(p) && 1 <= n <= |p|
    ensures PlainPath(p[..n])
  {
  }

  /** A leaf the incoming source leaves alone keeps its recorded name. */
  lemma UntouchedKeepsName(s: State, source: Source, p: Path)
    requires Plain(source.data) && PlainPath(p)
    requires Lookup(source.data, p) == None && !Blocks(source.data, p) && Lookup(s.values, p).Some?
    ensures NameOf(After(s, source).provenance, p) == NameOf(s.provenance, p)
  {
    forall n | 1 <= n <= |p| ensures Dotted(p[..n]) !in Assigned(s.values, source.data, "", source.data.Keys) {
      PrefixIsPlain(p, n);
      DottedAssignedIff(s.values, source.data, p[..n]);
      AbsentAssignsNothing(s.values, source.data, p, n);
    }
    SameNames(s.provenance, After(s, source).provenance, p);
  }

  /** After a merge by a source with a new name, the longest recorded prefix of one of its leaves
      names it if and only if nothing was recorded beneath the place where the leaf's value was
      put in: leftovers of a mapping that had been replaced. */
  lemma MergedNameIff(s: State, source: Source, p: Path, v: Value)
    requires Plain(source.data) && PlainPath(p) && LeafAt(source.data, p, v)
    requires source.name !in s.provenance.Values
    ensures NameOf(After(s, source).provenance, p) == Some(source.name)
      <==> !RecordedBeyond(s.provenance, p, AttachAt(s.values, source.data, p))
  {
    var a, after := AttachAt(s.values, source.data, p), After(s, source).provenance;
    MergedRecords(s, source, p, v);
    if RecordedBeyond(s.provenance, p, a) {
      NameBeyond(s.provenance, after, p, a);
    } else {
      NameOfAt(after, p, a);
    }
  }

  /** What a merge records along the path of one of its leaves. */
  lemma MergedRecords(s: State, source: Source, p: Path, v: Value)
    requires Plain(source.data) && PlainPath(p) && LeafAt(source.data, p, v)
    ensures var a, after := AttachAt(s.values, source.data, p), After(s, source).provenance;
      && 1 <= a <= |p|
      && Dotted(p[..a]) in after && after[Dotted(p[..a])] == source.name
      && (forall n :: a < n <= |p| ==> (Dotted(p[..n]) in after <==> Dotted(p[..n]) in s.provenance))
      && (forall n :: a < n <= |p| && Dotted(p[..n]) in after ==> after[Dotted(p[..n])] == s.provenance[Dotted(p[..n])])
  {
    var a := AttachAt(s.values, source.data, p);
    LeafAssignsOnce(s.values, source.data, p, v, 1);
    forall n | 1 <= n <= |p|
      ensures Dotted(p[..n]) in Assigned(s.values, source.data, "", source.data.Keys) <==> n == a
    {
      PrefixIsPlain(p, n);
      DottedAssignedIff(s.values, source.data, p[..n]);
      LeafAssignsOnce(s.values, source.data, p, v, n);
    }
  }

  // ---------------------------------------------------------------------------------------
  // Sources that never replace a mapping
  // ---------------------------------------------------------------------------------------

  /** No later source puts anything but a mapping where an earlier one has a mapping.  Sources
      that agree on which paths are mappings meet this. */
  ghost predicate MappingsStay(sources: seq<Source>) {
    forall j, k, p :: 0 <= j < k < |sources| && MappingAt(sources[j].data, p) && Lookup(sources[k].data, p).Some?
      ==> MappingAt(sources[k].data, p)
  }

  ghost predicate AllPlain(sources: seq<Source>) {
    forall j :: 0 <= j < |sources| ==> Plain(sources[j].data)
  }

  /** Only paths that the values define are recorded. */
  ghost predicate Tracked(s: State) {
    forall p :: PlainPath(p) && Dotted(p) in s.provenance ==> Lookup(s.values, p).Some?
  }

  ghost predicate KeepsMappings(t: Entries, i: Entries) {
    forall p :: MappingAt(t, p) && Lookup(i, p).Some? ==> MappingAt(i, p)
  }

  lemma KeepsBelow(t: Entries, i: Entries, k: string)
    requires KeepsMappings(t, i) && BothMappings(t, i, k)
    ensures KeepsMappings(t[k].entries, i[k].entries)
  {
    forall p | MappingAt(t[k].entries, p) && Lookup(i[k].entries, p).Some? ensures MappingAt(i[k].entries, p) {
      assert ([k] + p)[1..] == p;
      assert MappingAt(t, [k] + p) && Lookup(i, [k] + p).Some?;
      assert MappingAt(i, [k] + p);
    }
  }

  lemma {:induction false} DefinedStays(t: Entries, i: Entries, p: Path)
    requires KeepsMappings(t, i) && Lookup(t, p).Some?
    ensures Lookup(Merged(t, i), p).Some?
    decreases |p|
  {
    var k := p[0];
    if |p| > 1 && k in i {
      assert MappingAt(t, [k]) && Lookup(i, [k]).Some?;
      assert MappingAt(i, [k]);
      KeepsBelow(t, i, k);
      DefinedStays(t[k].entries, i[k].entries, p[1..]);
    }
  }

  lemma MergeStaysTracked(s: State, source: Source)
    requires Tracked(s) && Plain(source.data) && KeepsMappings(s.values, source.data)
    ensures Tracked(After(s, source))
  {
    forall p | PlainPath(p) && Dotted(p) in After(s, source).provenance
      ensures Lookup(After(s, source).values, p).Some?
    {
      DottedAssignedIff(s.values, source.data, p);
      if AssignedPath(s.values, source.data, p) {
        AssignedIsDefined(s.values, source.data, p);
      } else {
        DefinedStays(s.values, source.data, p);
      }
    }
  }

  /** Beneath the place where a leaf's value is put in, the target defines nothing. */
  lemma {:induction false} NothingBeyond(t: Entries, i: Entries, p: Path, v: Value, n: nat)
    requires LeafAt(i, p, v) && AttachAt(t, i, p) < n <= |p|
    ensures Lookup(t, p[..n]) == None
    decreases |p|
  {
    var k := p[0];
    assert p[..n][1..] == p[1..][..n - 1];
    if BothMappings(t, i, k) {
      NothingBeyond(t[k].entries, i[k].entries, p[1..], v, n - 1);
    }
  }

  lemma {:induction false} MappingHasSource(sources: seq<Source>, p: Path) returns (j: nat)
    requires MappingAt(Resolved(EMPTY, sources).values, p)
    ensures j < |sources| && MappingAt(sources[j].data, p)
  {
    j := |sources| - 1;
    var front := Resolved(EMPTY, sources[..j]);
    MergedMapping(front.values, sources[j].data, p);
    if !MappingAt(sources[j].data, p) { j := MappingHasSource(sources[..j], p); }
  }

  lemma StepKeepsMappings(sources: seq<Source>)
    requires MappingsStay(sources) && sources != []
    ensures KeepsMappings(Resolved(EMPTY, sources[..|sources| - 1]).values, sources[|sources| - 1].data)
  {
    var n := |sources| - 1;
    forall p | MappingAt(Resolved(EMPTY, sources[..n]).values, p) && Lookup(sources[n].data, p).Some?
      ensures MappingAt(sources[n].data, p)
    {
      var j := MappingHasSource(sources[..n], p);
      assert MappingAt(sources[j].data, p);
    }
  }

  lemma {:induction false} ResolvedIsTracked(sources: seq<Source>)
    requires MappingsStay(sources) && AllPlain(sources)
    ensures Tracked(Resolved(EMPTY, sources))
  {
    if sources != [] {
      var n := |sources| - 1;
      ResolvedIsTracked(sources[..n]);
      StepKeepsMappings(sources);
      MergeStaysTracked(Resolved(EMPTY, sources[..n]), sources[n]);
    }
  }

  lemma TrackedIsNamed(s: State, source: Source, p: Path, v: Value)
    requires Tracked(s) && Plain(source.data) && PlainPath(p) && LeafAt(source.data, p, v)
    ensures NameOf(After(s, source).provenance, p) == Some(source.name)
  {
    MergedRecords(s, source, p, v);
    var a := AttachAt(s.values, source.data, p);
    forall k | a < k <= |p| ensures Dotted(p[..k]) !in s.provenance {
      PrefixIsPlain(p, k);
      NothingBeyond(s.values, source.data, p, v, k);
    }
    NameOfAt(After(s, source).provenance, p, a);
  }

  /** For sources that never replace a mapping, every leaf of the resolved configuration holds
      the value of the highest-precedence source defining it, and its longest recorded prefix
      names that source. */
  lemma {:induction false} ProvenanceIsRight(sources: seq<Source>, j: nat, p: Path, v: Value)
    requires MappingsStay(sources) && AllPlain(sources)
    requires Provides(sources, j, p, v)
    ensures LeafAt(Resolved(EMPTY, sources).values, p, v)
    ensures NameOf(Resolved(EMPTY, sources).provenance, p) == Some(sources[j].name)
  {
    var n := |sources| - 1;
    var front := sources[..n];
    var s, last := Resolved(EMPTY, front), sources[n];
    assert Provided(sources, p, v);
    ResolvedLeafIff(sources, p, v);
    assert PlainPath(p) by { assert Lookup(sources[j].data, p).Some?; }
    if j == n {
      ResolvedIsTracked(front);
      TrackedIsNamed(s, last, p, v);
    } else {
      assert Provides(front, j, p, v);
      ProvenanceIsRight(front, j, p, v);
      UntouchedKeepsName(s, last, p);
    }
  }

  // ---------------------------------------------------------------------------------------
  // Sources that do replace a mapping
  // ---------------------------------------------------------------------------------------

  /** A mapping, a value inside it, a scalar in its place, and a mapping with that value again. */
  function Replacing(a: string, b: string, x: Value, y: Value, names: seq<string>): seq<Source>
    requires |names| == 4
  {
    [Source(names[0], map[a := Mapping(map[])]), Source(names[1], map[a := Mapping(map[b := x])]),
     Source(names[2], map[a := Atom("5")]), Source(names[3], map[a := Mapping(map[b := y])])]
  }

  /** The leaf then holds the last source's value while its longest recorded prefix still names
      the second source: the provenance left behind by the replaced mapping. */
  lemma ReplacedMappingMisleads(a: string, b: string, x: Value, y: Value, names: seq<string>)
    requires PlainKey(a) && PlainKey(b) && |names| == 4 && names[1] != names[3] && !x.Mapping? && !y.Mapping?
    ensures var s := Resolved(EMPTY, Replacing(a, b, x, y, names));
      && LeafAt(s.values, [a, b], y)
      && NameOf(s.provenance, [a, b]) == Some(names[1]) && NameOf(s.provenance, [a, b]) != Some(names[3])
  {
    var sources := Replacing(a, b, x, y, names);
    var s1 := PutFirst(EMPTY, sources[0], a);
    var s2 := PutInside(s1, sources[1], a, b);
    var s3 := PutFirst(s2, sources[2], a);
    var s4 := PutFirst(s3, sources[3], a);
    FourSteps(sources, s1, s2, s3, s4);
    DottedPair(a, b);
    LeafPair(s4.values, a, b, y);
    assert s4.provenance[a + "." + b] == names[1];
    NamePair(s4.provenance, a, b);
  }

  lemma LeafPair(m: Entries, a: string, b: string, y: Value)
    requires !y.Mapping? && a in m && m[a] == Mapping(map[b := y])
    ensures LeafAt(m, [a, b], y)
  {
    var p, rest := [a, b], [b];
    assert p[1..] == rest;
    assert Lookup(m[a].entries, rest) == Some(y);
    assert Lookup(m, p) == Lookup(m[a].entries, p[1..]);
  }

  lemma NamePair(p: Provenance, a: string, b: string)
    requires Dotted([a, b]) in p
    ensures NameOf(p, [a, b]) == Some(p[Dotted([a, b])])
  {
    assert [a, b][..2] == [a, b];
  }

  lemma DottedPair(a: string, b: string)
    ensures Dotted([a, b]) == a + "." + b && Dotted([a, b]) != a
  {
    var p, rest := [a, b], [b];
    assert Dotted(rest) == b;
    assert p[1..] == rest && |a + "." + b| > |a|;
    assert Dotted(p) == a + "." + Dotted(p[1..]);
  }

  lemma FourSteps(sources: seq<Source>, s1: State, s2: State, s3: State, s4: State)
    requires |sources| == 4 && s1 == After(EMPTY, sources[0]) && s2 == After(s1, sources[1])
    requires s3 == After(s2, sources[2]) && s4 == After(s3, sources[3])
    ensures Resolved(EMPTY, sources) == s4
  {
    OneStep(sources[..1], EMPTY);
    OneStep(sources[..2], s1);
    OneStep(sources[..3], s2);
    OneStep(sources, s3);
    assert sources[..1][..0] == [];
    assert sources[..2][..1] == sources[..1] && sources[..3][..2] == sources[..2];
  }

  lemma OneStep(sources: seq<Source>, s: State)
    requires sources != [] && Resolved(EMPTY, sources[..|sources| - 1]) == s
    ensures Resolved(EMPTY, sources) == After(s, sources[|sources| - 1])
  {
  }

  /** Merging one key that is not a mapping on both sides. */
  lemma PutFirst(s: State, source: Source, a: string) returns (next: State)
    requires source.data.Keys == {a} && !BothMappings(s.values, source.data, a)
    ensures next == After(s, source)
    ensures next.values == s.values[a := source.data[a]]
    ensures next.provenance == s.provenance[a := source.name]
  {
    PutTop(s.values, source.data, a);
    AssignedTop(s.values, source.data, a);
    var values := s.values[a := source.data[a]];
    RecordedOne(s.provenance, a, source.name);
    var provenance := s.provenance[a := source.name];
    next := State(values, provenance);
  }

  lemma RecordedOne(p: Provenance, path: string, name: string)
    ensures Recorded(p, {path}, name) == p[path := name]
  {
  }

  lemma PutTop(t: Entries, i: Entries, a: string)
    requires i.Keys == {a} && !BothMappings(t, i, a)
    ensures Merged(t, i) == t[a := i[a]]
  {
    assert t.Keys + i.Keys == t[a := i[a]].Keys;
  }

  lemma AssignedTop(t: Entries, i: Entries, a: string)
    requires i.Keys == {a} && !BothMappings(t, i, a)
    ensures Assigned(t, i, "", i.Keys) == {a}
  {
    assert AssignedAt(t, i, "", a) == {a};
  }

  /** Merging one key inside a mapping that both sides have. */
  lemma PutInside(s: State, source: Source, a: string, b: string) returns (next: State)
    requires a != "" && source.data.Keys == {a} && BothMappings(s.values, source.data, a)
    requires source.data[a].entries.Keys == {b} && b !in s.values[a].entries
    ensures next == After(s, source)
    ensures next == State(
      s.values[a := Mapping(s.values[a].entries[b := source.data[a].entries[b]])],
      s.provenance[a + "." + b := source.name])
  {
    var t, i := s.values[a].entries, source.data[a].entries;
    next := State(s.values[a := Mapping(t[b := i[b]])], s.provenance[a + "." + b := source.name]);
    PutTop(t, i, b);
    assert MergedAt(s.values, source.data, a) == Mapping(t[b := i[b]]);
    assert Merged(s.values, source.data) == next.values;
    AssignedInside(s.values, source.data, a, b);
    RecordedOne(s.provenance, a + "." + b, source.name);
  }

  lemma AssignedInside(t: Entries, i: Entries, a: string, b: string)
    requires a != "" && i.Keys == {a} && BothMappings(t, i, a)
    requires i[a].entries.Keys == {b} && b !in t[a].entries
    ensures Assigned(t, i, "", i.Keys) == {a + "." + b}
  {
    assert AssignedAt(t[a].entries, i[a].entries, a, b) == {a + "." + b};
    assert Assigned(t[a].entries, i[a].entries, a, {b}) == {a + "." + b};
    assert AssignedAt(t, i, "", a) == {a + "." + b};
  }

  // ---------------------------------------------------------------------------------------
  // Secrets
  // ---------------------------------------------------------------------------------------

  /** A source passes the secret check if and only if no path ends in a secret key that holds a
      string other than a reference. */
  lemma {:induction false} NoPlainSecretIff(m: Entries, pat: Patterns)
    ensures !HasPlainSecret(m, pat) <==>
      (forall p, text :: p != [] && Lookup(m, p) == Some(Str(text)) && pat.isSecret(p[|p| - 1]) ==>
        pat.isReference(text))
    decreases Mapping(m)
  {
    if HasPlainSecret(m, pat) {
      var p, text := PlainSecretPath(m, pat);
    } else {
      forall p, text | p != [] && Lookup(m, p) == Some(Str(text)) && pat.isSecret(p[|p| - 1])
        ensures pat.isReference(text)
      {
        SafePath(m, p, text, pat);
      }
    }
  }

  lemma {:induction false} PlainSecretPath(m: Entries, pat: Patterns) returns (p: Path, text: string)
    requires HasPlainSecret(m, pat)
    ensures p != [] && Lookup(m, p) == Some(Str(text)) && pat.isSecret(p[|p| - 1]) && !pat.isReference(text)
    decreases Mapping(m)
  {
    var key :| key in m &&
      ((pat.isSecret(key) && m[key].Str? && !pat.isReference(m[key].text))
       || (m[key].Mapping? && HasPlainSecret(m[key].entries, pat)));
    if m[key].Str? {
      p, text := [key], m[key].text;
    } else {
      var q;
      q, text := PlainSecretPath(m[key].entries, pat);
      p := [key] + q;
      assert p[1..] == q && p[|p| - 1] == q[|q| - 1];
    }
  }

  lemma {:induction false} SafePath(m: Entries, p: Path, text: string, pat: Patterns)
    requires !HasPlainSecret(m, pat) && p != [] && Lookup(m, p) == Some(Str(text)) && pat.isSecret(p[|p| - 1])
    ensures pat.isReference(text)
    decreases |p|
  {
    if |p| > 1 { SafePath(m[p[0]].entries, p[1..], text, pat); }
  }

  /** In a redacted configuration every secret key holds the placeholder, at any depth, and a
      string, scalar or missing entry whose path has no secret key is as it was. */
  lemma {:induction false} RedactedAt(m: Entries, p: Path, pat: Patterns)
    requires p != []
    requires forall i :: 0 <= i < |p| - 1 ==> !pat.isSecret(p[i])
    ensures Lookup(Redacted(m, pat), p) ==
      match Lookup(m, p) case None => None case Some(v) => Some(Redact(v, p[|p| - 1], pat))
    ensures Lookup(m, p).Some? && pat.isSecret(p[|p| - 1]) ==> Lookup(Redacted(m, pat), p) == Some(Str("<redacted>"))
    decreases |p|
  {
    if |p| > 1 && p[0] in m && m[p[0]].Mapping? {
      RedactedAt(m[p[0]].entries, p[1..], pat);
    }
  }

  /** `ResolvedConfig.redacted`, below the top level where no key is given. */
  function Redacted(m: Entries, pat: Patterns): (r: Entries)
    ensures r.Keys == m.Keys
  {
    map k | k in m :: Redact(m[k], k, pat)
  }
}
