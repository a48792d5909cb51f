/** Which sources a resolution admits, and what an admitted one never holds. */
module ConfigAdmission {
  import opened Options
  import opened ConfigResolver
  import opened ConfigLaws

  /** No path ends in a secret key that holds a string other than a reference. */
  ghost predicate Secretless(m: Entries, pat: Patterns) {
    forall p, text :: p != [] && Lookup(m, p) == Some(Str(text)) && pat.isSecret(p[|p| - 1]) ==> pat.isReference(text)
  }

  /** The schema version, where there is one, is 1. */
  ghost predicate RightVersion(m: Entries) {
    forall v :: Lookup(m, ["schema_version"]) == Some(v) ==> v == Atom("1")
  }

  ghost predicate KnownKeys(m: Entries, known: set<string>) {
    forall key, v :: Lookup(m, [key]) == Some(v) ==> key in known
  }

  ghost predicate Admissible(s: Source, known: set<string>, pat: Patterns) {
    RightVersion(s.data) && KnownKeys(s.data, known) && Secretless(s.data, pat)
  }

  /** What is wrong with a file, in the order the loader looks. */
  ghost predicate Offends(s: Source, known: set<string>, pat: Patterns, error: ConfigError) {
    match error
    case BadVersion(name) => name == s.name && !RightVersion(s.data)
    case UnknownKeys(name) => name == s.name && RightVersion(s.data) && !KnownKeys(s.data, known)
    case PlainSecret(name) =>
      name == s.name && RightVersion(s.data) && KnownKeys(s.data, known) && !Secretless(s.data, pat)
  }

  ghost predicate AllAdmissible(files: seq<Source>, known: set<string>, pat: Patterns) {
    forall i :: 0 <= i < |files| ==> Admissible(files[i], known, pat)
  }

  lemma RejectsIff(s: Source, known: set<string>, pat: Patterns)
    ensures Rejects(s, known, pat) == None <==> Admissible(s, known, pat)
    ensures forall error :: Rejects(s, known, pat) == Some(error) <==> Offends(s, known, pat, error)
  {
    NoPlainSecretIff(s.data, pat);
    VersionIff(s.data);
    KeysIff(s.data, known);
  }

  lemma VersionIff(m: Entries)
    ensures RightVersion(m) <==> ("schema_version" in m ==> m["schema_version"] == SCHEMA)
  {
    if "schema_version" in m { assert Lookup(m, ["schema_version"]) == Some(m["schema_version"]); }
  }

  lemma KeysIff(m: Entries, known: set<string>)
    ensures KnownKeys(m, known) <==> m.Keys <= known
  {
    forall key | key in m ensures Lookup(m, [key]) == Some(m[key]) {}
  }

  /** A resolution succeeds if and only if every file has only known keys, the right version if any,
      and no plain secret, and the overrides hold no plain secret. */
  lemma {:induction false} SucceedsIff(files: seq<Source>, explicit: Option<Source>, known: set<string>, pat: Patterns)
    ensures FirstRejection(files, explicit, known, pat) == None
      <==> AllAdmissible(files, known, pat) && (explicit.Some? ==> Secretless(explicit.value.data, pat))
  {
    if files == [] {
      if explicit.Some? { NoPlainSecretIff(explicit.value.data, pat); }
    } else {
      RejectsIff(files[0], known, pat);
      SucceedsIff(files[1..], explicit, known, pat);
      AdmissibleCons(files, known, pat);
    }
  }

  lemma AdmissibleCons(files: seq<Source>, known: set<string>, pat: Patterns)
    requires files != []
    ensures AllAdmissible(files, known, pat)
      <==> Admissible(files[0], known, pat) && AllAdmissible(files[1..], known, pat)
  {
    if Admissible(files[0], known, pat) && AllAdmissible(files[1..], known, pat) {
      forall i | 0 <= i < |files| ensures Admissible(files[i], known, pat) {
        if i > 0 { assert files[i] == files[1..][i - 1]; }
      }
    }
    if AllAdmissible(files, known, pat) {
      forall i | 0 <= i < |files[1..]| ensures Admissible(files[1..][i], known, pat) {
        assert files[1..][i] == files[i + 1];
      }
    }
  }

  /** The error of the first file that is not admissible, or of the overrides if all files are. */
  ghost predicate IsFirstError(files: seq<Source>, explicit: Option<Source>, known: set<string>, pat: Patterns,
                               error: ConfigError)
  {
    || (exists i :: 0 <= i < |files| && AllAdmissible(files[..i], known, pat) && Offends(files[i], known, pat, error))
    || (AllAdmissible(files, known, pat) && explicit.Some? && !Secretless(explicit.value.data, pat)
        && error == PlainSecret(explicit.value.name))
  }

  /** An error names the first offending source and its first offence. */
  lemma {:induction false} ErrorIsFirst(files: seq<Source>, explicit: Option<Source>, known: set<string>, pat: Patterns,
                                        error: ConfigError)
    requires FirstRejection(files, explicit, known, pat) == Some(error)
    ensures IsFirstError(files, explicit, known, pat, error)
  {
    if files == [] {
      NoPlainSecretIff(explicit.value.data, pat);
    } else {
      RejectsIff(files[0], known, pat);
      if Rejects(files[0], known, pat) == None {
        ErrorIsFirst(files[1..], explicit, known, pat, error);
        LaterError(files, explicit, known, pat, error);
      } else {
        assert AllAdmissible(files[..0], known, pat) && Offends(files[0], known, pat, error);
      }
    }
  }

  lemma LaterError(files: seq<Source>, explicit: Option<Source>, known: set<string>, pat: Patterns, error: ConfigError)
    requires files != [] && Admissible(files[0], known, pat)
    requires IsFirstError(files[1..], explicit, known, pat, error)
    ensures IsFirstError(files, explicit, known, pat, error)
  {
    var rest := files[1..];
    if i :| 0 <= i < |rest| && AllAdmissible(rest[..i], known, pat) && Offends(rest[i], known, pat, error) {
      assert files[..i + 1][1..] == rest[..i] && files[i + 1] == rest[i];
      AdmissibleCons(files[..i + 1], known, pat);
      assert AllAdmissible(files[..i + 1], known, pat) && Offends(files[i + 1], known, pat, error);
    } else {
      AdmissibleCons(files, known, pat);
    }
  }

  // ---------------------------------------------------------------------------------------
  // No secret gets in
  // ---------------------------------------------------------------------------------------

  lemma MergedIsSecretless(t: Entries, i: Entries, pat: Patterns)
    requires Secretless(t, pat) && Secretless(i, pat)
    ensures Secretless(Merged(t, i), pat)
  {
    forall p, text | p != [] && Lookup(Merged(t, i), p) == Some(Str(text)) && pat.isSecret(p[|p| - 1])
      ensures pat.isReference(text)
    {
      MergedLeafIff(t, i, p, Str(text));
    }
  }

  ghost predicate AllSecretless(sources: seq<Source>, pat: Patterns) {
    forall i :: 0 <= i < |sources| ==> Secretless(sources[i].data, pat)
  }

  lemma {:induction false} ResolvedIsSecretless(start: State, sources: seq<Source>, pat: Patterns)
    requires Secretless(start.values, pat) && AllSecretless(sources, pat)
    ensures Secretless(Resolved(start, sources).values, pat)
  {
    if sources != [] {
      var n := |sources| - 1;
      ResolvedIsSecretless(start, sources[..n], pat);
      MergedIsSecretless(Resolved(start, sources[..n]).values, sources[n].data, pat);
    }
  }

  /** What a successful resolution merges, in order. */
  function Merging(files: seq<Source>, env: Source, explicit: Option<Source>): seq<Source> {
    files + [env] + (if explicit.Some? then [explicit.value] else [])
  }

  /** A resolution that succeeds holds no plain secret at any depth, if neither the environment nor
      the values it starts from do. */
  lemma SuccessIsSecretless(start: State, files: seq<Source>, env: Source, explicit: Option<Source>,
                            known: set<string>, pat: Patterns)
    requires FirstRejection(files, explicit, known, pat) == None
    requires Secretless(start.values, pat) && Secretless(env.data, pat)
    ensures Secretless(Resolved(start, Merging(files, env, explicit)).values, pat)
  {
    SucceedsIff(files, explicit, known, pat);
    ResolvedIsSecretless(start, Merging(files, env, explicit), pat);
  }

  /** The default values hold none, unless "schema_version" counts as a secret key, and not even
      then, as the version is no string. */
  lemma StartIsSecretless(pat: Patterns)
    ensures Secretless(START.values, pat)
  {
  }

  /** A plain secret in a file of known keys and the right version is an error of that file. */
  lemma PlainSecretIsRejected(s: Source, p: Path, text: string, known: set<string>, pat: Patterns)
    requires RightVersion(s.data) && KnownKeys(s.data, known)
    requires p != [] && Lookup(s.data, p) == Some(Str(text)) && pat.isSecret(p[|p| - 1]) && !pat.isReference(text)
    ensures FirstRejection([s], None, known, pat) == Some(PlainSecret(s.name))
  {
    RejectsIff(s, known, pat);
    assert Offends(s, known, pat, PlainSecret(s.name));
  }

  // ---------------------------------------------------------------------------------------
  // Redaction, lists included
  // ---------------------------------------------------------------------------------------

  datatype Step = InKey(key: string) | InList(index: nat)

  /** What a path of keys and list places leads to. */
  function At(v: Value, p: seq<Step>): Option<Value>
    decreases |p|
  {
    if p == [] then Some(v)
    else match p[0]
      case InKey(key) => if v.Mapping? && key in v.entries then At(v.entries[key], p[1..]) else None
      case InList(index) => if v.Items? && index < |v.items| then At(v.items[index], p[1..]) else None
  }

  ghost predicate NoSecretStep(p: seq<Step>, pat: Patterns) {
    forall i :: 0 <= i < |p| && p[i].InKey? ==> !pat.isSecret(p[i].key)
  }

  /** Without a secret key on its way a string or scalar stays as it is, wherever it is, in lists
      too; at the first secret key on the way the placeholder stands. */
  lemma {:induction false} RedactedAnywhere(v: Value, key: string, p: seq<Step>, last: string, pat: Patterns)
    requires !pat.isSecret(key) && NoSecretStep(p, pat)
    ensures var leaf := At(v, p);
      leaf.Some? && (leaf.value.Str? || leaf.value.Atom?) ==> At(Redact(v, key, pat), p) == leaf
    ensures var holder := At(v, p);
      holder.Some? && holder.value.Mapping? && last in holder.value.entries && pat.isSecret(last) ==>
        At(Redact(v, key, pat), p + [InKey(last)]) == Some(Str("<redacted>"))
    decreases |p|
  {
    if p == [] {
      assert p + [InKey(last)] == [InKey(last)] && [InKey(last)][1..] == [];
    } else {
      assert (p + [InKey(last)])[1..] == p[1..] + [InKey(last)];
      match p[0]
      case InKey(k) => if v.Mapping? && k in v.entries { RedactedAnywhere(v.entries[k], k, p[1..], last, pat); }
      case InList(i) => if v.Items? && i < |v.items| { RedactedAnywhere(v.items[i], key, p[1..], last, pat); }
    }
  }
}
