/** When the provenance of a resolved configuration tells the truth, read off the sources. */
module ConfigProvenance {
  import opened Options
  import opened ConfigResolver
  import opened ConfigLaws

  // ---------------------------------------------------------------------------------------
  // The whole resolution
  // ---------------------------------------------------------------------------------------

  ghost predicate Named(sources: seq<Source>, name: string) {
    exists i :: 0 <= i < |sources| && sources[i].name == name
  }

  lemma {:induction false} OnlyNamesAreRecorded(sources: seq<Source>, name: string)
    requires name in Resolved(EMPTY, sources).provenance.Values
    ensures Named(sources, name)
  {
    if sources != [] {
      var n := |sources| - 1;
      OneStep(sources, Resolved(EMPTY, sources[..n]));
      if name == sources[n].name { return; }
      OnlyNamesAreRecorded(sources[..n], name);
      var i :| 0 <= i < n && sources[..n][i].name == name;
      assert sources[i].name == name;
    }
  }

  lemma ProvidedByFront(sources: seq<Source>, j: nat, p: Path, v: Value)
    requires Provides(sources, j, p, v) && j < |sources| - 1
    ensures Provides(sources[..|sources| - 1], j, p, v)
  {
  }

  /** What the sources before `j` recorded beneath the place where its value of a leaf is put in. */
  ghost predicate LeftBeneath(sources: seq<Source>, j: nat, p: Path)
    requires j < |sources|
  {
    var s := Resolved(EMPTY, sources[..j]);
    RecordedBeyond(s.provenance, p, AttachAt(s.values, sources[j].data, p))
  }

  lemma LastNameIff(sources: seq<Source>, p: Path, v: Value)
    requires AllPlain(sources) && sources != [] && LeafAt(sources[|sources| - 1].data, p, v) && PlainPath(p)
    requires !Named(sources[..|sources| - 1], sources[|sources| - 1].name)
    ensures NameOf(Resolved(EMPTY, sources).provenance, p) == Some(sources[|sources| - 1].name)
      <==> !LeftBeneath(sources, |sources| - 1, p)
  {
    var n := |sources| - 1;
    var s, last := Resolved(EMPTY, sources[..n]), sources[n];
    OneStep(sources, s);
    if last.name in s.provenance.Values { OnlyNamesAreRecorded(sources[..n], last.name); }
    MergedNameIff(s, last, p, v);
  }

  lemma LaterKeepsName(sources: seq<Source>, j: nat, p: Path, v: Value)
    requires AllPlain(sources) && Provides(sources, j, p, v) && j < |sources| - 1 && PlainPath(p)
    ensures NameOf(Resolved(EMPTY, sources).provenance, p)
      == NameOf(Resolved(EMPTY, sources[..|sources| - 1]).provenance, p)
  {
    var n := |sources| - 1;
    OneStep(sources, Resolved(EMPTY, sources[..n]));
    ProvidedByFront(sources, j, p, v);
    assert Provided(sources[..n], p, v);
    ResolvedLeafIff(sources[..n], p, v);
    UntouchedKeepsName(Resolved(EMPTY, sources[..n]), sources[n], p);
  }

  /** The leaf that source `j` provides is attributed to it, unless an earlier merge left
      something recorded beneath the place where its value was put in. */
  lemma {:induction false} ResolvedNameIff(sources: seq<Source>, j: nat, p: Path, v: Value)
    requires AllPlain(sources) && Provides(sources, j, p, v) && !Named(sources[..j], sources[j].name)
    ensures NameOf(Resolved(EMPTY, sources).provenance, p) == Some(sources[j].name) <==> !LeftBeneath(sources, j, p)
  {
    var n := |sources| - 1;
    assert PlainPath(p) by { assert Lookup(sources[j].data, p).Some?; }
    if j == n {
      LastNameIff(sources, p, v);
    } else {
      ProvidedByFront(sources, j, p, v);
      LaterKeepsName(sources, j, p, v);
      SameBefore(sources, n, j, p);
      ResolvedNameIff(sources[..n], j, p, v);
    }
  }

  lemma SameBefore(sources: seq<Source>, n: nat, j: nat, p: Path)
    requires j < n <= |sources|
    ensures sources[..n][..j] == sources[..j] && (LeftBeneath(sources[..n], j, p) <==> LeftBeneath(sources, j, p))
  {
    assert sources[..n][..j] == sources[..j];
  }

  // ---------------------------------------------------------------------------------------
  // Where a resolved configuration has mappings
  // ---------------------------------------------------------------------------------------

  lemma {:induction false} MergedMappingIff(t: Entries, i: Entries, q: Path)
    ensures MappingAt(Merged(t, i), q)
      <==> MappingAt(i, q) || (Lookup(i, q) == None && !Blocks(i, q) && MappingAt(t, q))
    decreases |q|
  {
    if |q| > 1 && BothMappings(t, i, q[0]) {
      MergedMappingIff(t[q[0]].entries, i[q[0]].entries, q[1..]);
    }
  }

  /** Source `i` has a mapping at the path and no later source defines or blocks it. */
  ghost predicate LastMapping(sources: seq<Source>, i: nat, q: Path) {
    && i < |sources| && MappingAt(sources[i].data, q)
    && forall k :: i < k < |sources| ==> Lookup(sources[k].data, q) == None && !Blocks(sources[k].data, q)
  }

  /** The last source that says anything about the path has a mapping there. */
  ghost predicate HasMapping(sources: seq<Source>, q: Path) { exists i: nat :: LastMapping(sources, i, q) }

  lemma LastMappingNext(sources: seq<Source>, q: Path)
    requires sources != []
    ensures var last := sources[|sources| - 1].data;
      HasMapping(sources, q) <==>
        (MappingAt(last, q)
         || (Lookup(last, q) == None && !Blocks(last, q) && HasMapping(sources[..|sources| - 1], q)))
  {
    var n := |sources| - 1;
    if HasMapping(sources, q) {
      var i: nat :| LastMapping(sources, i, q);
      if i < n { assert LastMapping(sources[..n], i, q); }
    }
    if MappingAt(sources[n].data, q) { assert LastMapping(sources, n, q); }
    if Lookup(sources[n].data, q) == None && !Blocks(sources[n].data, q) && HasMapping(sources[..n], q) {
      var i: nat :| LastMapping(sources[..n], i, q);
      assert LastMapping(sources, i, q);
    }
  }

  lemma {:induction false} ResolvedMappingIff(sources: seq<Source>, q: Path)
    ensures MappingAt(Resolved(EMPTY, sources).values, q) <==> HasMapping(sources, q)
  {
    if sources != [] {
      var n := |sources| - 1;
      OneStep(sources, Resolved(EMPTY, sources[..n]));
      ResolvedMappingIff(sources[..n], q);
      MergedMappingIff(Resolved(EMPTY, sources[..n]).values, sources[n].data, q);
      LastMappingNext(sources, q);
    }
  }

  // ---------------------------------------------------------------------------------------
  // Which paths are recorded
  // ---------------------------------------------------------------------------------------

  /** A value is assigned where the target has mappings on the whole way and no two mappings meet. */
  lemma {:induction false} AssignedPathIff(t: Entries, i: Entries, q: Path)
    ensures AssignedPath(t, i, q)
      <==> (Lookup(i, q).Some? && (forall n :: 1 <= n < |q| ==> MappingAt(t, q[..n]))
            && !(MappingAt(i, q) && MappingAt(t, q)))
    decreases |q|
  {
    if |q| > 1 {
      var k := q[0];
      assert q[..1][0] == k && |q[..1]| == 1;
      if BothMappings(t, i, k) {
        AssignedPathIff(t[k].entries, i[k].entries, q[1..]);
        MappingsBelow(t, q);
      } else if k in i && i[k].Mapping? {
        assert !MappingAt(t, q[..1]);
      }
    }
  }

  lemma MappingsBelow(t: Entries, q: Path)
    requires |q| > 1 && q[0] in t && t[q[0]].Mapping?
    ensures (forall n :: 1 <= n < |q| ==> MappingAt(t, q[..n]))
      <==> (forall n :: 1 <= n < |q| - 1 ==> MappingAt(t[q[0]].entries, q[1..][..n]))
  {
    assert MappingAt(t, q[..1]);
    forall n | 2 <= n < |q| ensures MappingAt(t, q[..n]) <==> MappingAt(t[q[0]].entries, q[1..][..n - 1]) {
      assert q[..n][1..] == q[1..][..n - 1];
    }
    if forall n :: 1 <= n < |q| ==> MappingAt(t, q[..n]) {
      forall n | 1 <= n < |q| - 1 ensures MappingAt(t[q[0]].entries, q[1..][..n]) {
        assert MappingAt(t, q[..n + 1]) && q[..n + 1][1..] == q[1..][..n];
      }
    }
  }

  /** Source `i` put a value in at the path: it has one there, the sources before it have mappings
      on the way, and no two mappings meet at the path. */
  ghost predicate PutsIn(sources: seq<Source>, i: nat, q: Path) {
    && i < |sources| && Lookup(sources[i].data, q).Some?
    && (forall n :: 1 <= n < |q| ==> HasMapping(sources[..i], q[..n]))
    && !(MappingAt(sources[i].data, q) && HasMapping(sources[..i], q))
  }

  lemma PutsInIff(sources: seq<Source>, i: nat, q: Path)
    requires i < |sources|
    ensures PutsIn(sources, i, q) <==> AssignedPath(Resolved(EMPTY, sources[..i]).values, sources[i].data, q)
  {
    AssignedPathIff(Resolved(EMPTY, sources[..i]).values, sources[i].data, q);
    forall n | 1 <= n <= |q|
      ensures MappingAt(Resolved(EMPTY, sources[..i]).values, q[..n]) <==> HasMapping(sources[..i], q[..n])
    {
      ResolvedMappingIff(sources[..i], q[..n]);
    }
    ResolvedMappingIff(sources[..i], q);
  }

  lemma {:induction false} RecordedIff(sources: seq<Source>, q: Path)
    requires AllPlain(sources) && PlainPath(q)
    ensures Dotted(q) in Resolved(EMPTY, sources).provenance <==> exists i: nat :: PutsIn(sources, i, q)
  {
    if sources != [] {
      var n := |sources| - 1;
      var s := Resolved(EMPTY, sources[..n]);
      OneStep(sources, s);
      RecordedIff(sources[..n], q);
      DottedAssignedIff(s.values, sources[n].data, q);
      PutsInIff(sources, n, q);
      forall i: nat | i < n ensures PutsIn(sources[..n], i, q) <==> PutsIn(sources, i, q) {
        assert sources[..n][..i] == sources[..i];
      }
    }
  }

  // ---------------------------------------------------------------------------------------
  // The place where a leaf is put in
  // ---------------------------------------------------------------------------------------

  /** A prefix goes beyond that place exactly when a shorter one is no mapping of the target. */
  lemma {:induction false} BeyondAttachIff(t: Entries, i: Entries, p: Path, v: Value, n: nat)
    requires LeafAt(i, p, v) && 1 <= n <= |p|
    ensures AttachAt(t, i, p) < n <==> exists m :: 1 <= m < n && !MappingAt(t, p[..m])
    decreases |p|
  {
    var k := p[0];
    assert p[..1][0] == k && |p[..1]| == 1;
    if BothMappings(t, i, k) {
      if n > 1 {
        BeyondAttachIff(t[k].entries, i[k].entries, p[1..], v, n - 1);
        forall m | 2 <= m < n ensures MappingAt(t, p[..m]) <==> MappingAt(t[k].entries, p[1..][..m - 1]) {
          assert p[..m][1..] == p[1..][..m - 1];
        }
        if AttachAt(t, i, p) < n {
          var m :| 1 <= m < n - 1 && !MappingAt(t[k].entries, p[1..][..m]);
          assert p[..m + 1][1..] == p[1..][..m];
          assert !MappingAt(t, p[..m + 1]);
        }
      }
    } else if n > 1 {
      assert !MappingAt(t, p[..1]);
    }
  }

  // ---------------------------------------------------------------------------------------
  // The exact condition
  // ---------------------------------------------------------------------------------------

  /** An earlier source put a value in along the path, and the mapping it went into is gone by the
      time source `j` is merged. */
  ghost predicate StaleAt(sources: seq<Source>, j: nat, p: Path, i: nat, m: nat, n: nat)
    requires j <= |sources|
  {
    && i < j && 1 <= m < n <= |p|
    && PutsIn(sources, i, p[..n]) && !HasMapping(sources[..j], p[..m])
  }

  ghost predicate Stale(sources: seq<Source>, j: nat, p: Path)
    requires j <= |sources|
  {
    exists i: nat, m: nat, n: nat :: StaleAt(sources, j, p, i, m, n)
  }

  lemma StaleIff(sources: seq<Source>, j: nat, p: Path, v: Value)
    requires AllPlain(sources) && j < |sources| && LeafAt(sources[j].data, p, v)
    ensures LeftBeneath(sources, j, p) <==> Stale(sources, j, p)
  {
    var s := Resolved(EMPTY, sources[..j]);
    var a := AttachAt(s.values, sources[j].data, p);
    assert PlainPath(p) by { assert Lookup(sources[j].data, p).Some?; }
    if RecordedBeyond(s.provenance, p, a) {
      var n :| a < n <= |p| && Dotted(p[..n]) in s.provenance;
      var i, m := BeyondIsStale(sources, j, p, v, n);
    }
    if Stale(sources, j, p) {
      var i: nat, m: nat, n: nat :| StaleAt(sources, j, p, i, m, n);
      StaleIsBeyond(sources, j, p, v, i, m, n);
    }
  }

  lemma BeyondIsStale(sources: seq<Source>, j: nat, p: Path, v: Value, n: nat) returns (i: nat, m: nat)
    requires AllPlain(sources) && j < |sources| && LeafAt(sources[j].data, p, v) && PlainPath(p)
    requires var s := Resolved(EMPTY, sources[..j]);
      AttachAt(s.values, sources[j].data, p) < n <= |p| && Dotted(p[..n]) in s.provenance
    ensures StaleAt(sources, j, p, i, m, n)
  {
    var s := Resolved(EMPTY, sources[..j]);
    BeyondAttachIff(s.values, sources[j].data, p, v, n);
    var k :| 1 <= k < n && !MappingAt(s.values, p[..k]);
    ResolvedMappingIff(sources[..j], p[..k]);
    PrefixIsPlain(p, n);
    RecordedIff(sources[..j], p[..n]);
    i :| PutsIn(sources[..j], i, p[..n]);
    assert sources[..j][..i] == sources[..i];
    m := k;
  }

  lemma StaleIsBeyond(sources: seq<Source>, j: nat, p: Path, v: Value, i: nat, m: nat, n: nat)
    requires AllPlain(sources) && j < |sources| && LeafAt(sources[j].data, p, v) && PlainPath(p)
    requires StaleAt(sources, j, p, i, m, n)
    ensures LeftBeneath(sources, j, p)
  {
    var s := Resolved(EMPTY, sources[..j]);
    assert sources[..j][..i] == sources[..i];
    assert PutsIn(sources[..j], i, p[..n]);
    PrefixIsPlain(p, n);
    RecordedIff(sources[..j], p[..n]);
    ResolvedMappingIff(sources[..j], p[..m]);
    BeyondAttachIff(s.values, sources[j].data, p, v, n);
  }

  /** For any sources, the leaf that source `j` provides is attributed to it if and only if no
      earlier source put a value in along its path beneath a mapping that was gone again by the
      time source `j` was merged. */
  lemma NameIsRightIff(sources: seq<Source>, j: nat, p: Path, v: Value)
    requires AllPlain(sources) && Provides(sources, j, p, v) && !Named(sources[..j], sources[j].name)
    ensures NameOf(Resolved(EMPTY, sources).provenance, p) == Some(sources[j].name) <==> !Stale(sources, j, p)
  {
    ResolvedNameIff(sources, j, p, v);
    StaleIff(sources, j, p, v);
  }
}
