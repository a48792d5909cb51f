/** Layered configuration: later sources are merged over earlier ones, and every assignment
    records which source made it. */
module ConfigResolver {
  import opened Options

  /** A YAML value: a string, another scalar, a list or a mapping. */
  datatype Value = Str(text: string) | Atom(repr: string) | Items(items: seq<Value>) | Mapping(entries: Entries)

  type Entries = map<string, Value>

  /** Which source last assigned a dotted path. */
  type Provenance = map<string, string>

  // ---------------------------------------------------------------------------------------
  // Merging
  // ---------------------------------------------------------------------------------------

  predicate BothMappings(target: Entries, incoming: Entries, key: string) {
    key in incoming && incoming[key].Mapping? && key in target && target[key].Mapping?
  }

  /** Mappings merge key by key, everything else is replaced. */
  function Merged(target: Entries, incoming: Entries): (out: Entries)
    ensures out.Keys == target.Keys + incoming.Keys
    decreases Mapping(incoming), 1
  {
    map key | key in target.Keys + incoming.Keys ::
      if key in incoming then MergedAt(target, incoming, key) else target[key]
  }

  function MergedAt(target: Entries, incoming: Entries, key: string): Value
    requires key in incoming
    decreases Mapping(incoming), 0
  {
    if BothMappings(target, incoming, key) then Mapping(Merged(target[key].entries, incoming[key].entries))
    else incoming[key]
  }

  function Extend(prefix: string, key: string): string {
    if prefix == "" then key else prefix + "." + key
  }

  /** The dotted paths that merging some keys assigns. */
  function Assigned(target: Entries, incoming: Entries, prefix: string, keys: set<string>): set<string>
    requires keys <= incoming.Keys
    decreases Mapping(incoming), 1
  {
    set key, path | key in keys && path in AssignedAt(target, incoming, prefix, key) :: path
  }

  function AssignedAt(target: Entries, incoming: Entries, prefix: string, key: string): set<string>
    requires key in incoming
    decreases Mapping(incoming), 0
  {
    if BothMappings(target, incoming, key)
    then Assigned(target[key].entries, incoming[key].entries, Extend(prefix, key), incoming[key].entries.Keys)
    else {Extend(prefix, key)}
  }

  function Recorded(provenance: Provenance, paths: set<string>, source: string): (out: Provenance)
    ensures out.Keys == provenance.Keys + paths
  {
    map path | path in provenance.Keys + paths :: if path in paths then source else provenance[path]
  }

  // ---------------------------------------------------------------------------------------
  // Secrets
  // ---------------------------------------------------------------------------------------

  /** The patterns for secret keys and for references to secrets. */
  datatype Patterns = Patterns(isSecret: string -> bool, isReference: string -> bool)

  /** A plaintext secret under some key, at any depth of mappings. */
  predicate HasPlainSecret(m: Entries, pat: Patterns)
    decreases Mapping(m)
  {
    exists key :: key in m &&
      ((pat.isSecret(key) && m[key].Str? && !pat.isReference(m[key].text))
       || (m[key].Mapping? && HasPlainSecret(m[key].entries, pat)))
  }

  function Redact(v: Value, key: string, pat: Patterns): Value
    decreases v
  {
    if pat.isSecret(key) then Str("<redacted>") else
      match v
      case Mapping(entries) => Mapping(map k | k in entries :: Redact(entries[k], k, pat))
      case Items(items) => Items(seq(|items|, i requires 0 <= i < |items| => Redact(items[i], key, pat)))
      case _ => v
  }

  // ---------------------------------------------------------------------------------------
  // Resolution
  // ---------------------------------------------------------------------------------------

  datatype Source = Source(name: string, data: Entries)

  datatype ConfigError = BadVersion(source: string) | UnknownKeys(source: string) | PlainSecret(source: string)

  const SCHEMA: Value := Atom("1")

  /** What `_load` rejects, in the order it looks. */
  function Rejects(s: Source, known: set<string>, pat: Patterns): Option<ConfigError> {
    if "schema_version" in s.data && s.data["schema_version"] != SCHEMA then Some(BadVersion(s.name))
    else if !(s.data.Keys <= known) then Some(UnknownKeys(s.name))
    else if HasPlainSecret(s.data, pat) then Some(PlainSecret(s.name))
    else None
  }

  /** The first rejection: of the files in their order, then of the overrides. */
  function FirstRejection(files: seq<Source>, explicit: Option<Source>, known: set<string>, pat: Patterns):
    Option<ConfigError>
  {
    if files != [] then
      match Rejects(files[0], known, pat)
      case Some(error) => Some(error)
      case None => FirstRejection(files[1..], explicit, known, pat)
    else match explicit
      case Some(s) => if HasPlainSecret(s.data, pat) then Some(PlainSecret(s.name)) else None
      case None => None
  }

  datatype State = State(values: Entries, provenance: Provenance)

  const START := State(map["schema_version" := SCHEMA], map["schema_version" := "default"])

  function After(s: State, source: Source): State {
    State(Merged(s.values, source.data),
          Recorded(s.provenance, Assigned(s.values, source.data, "", source.data.Keys), source.name))
  }

  /** The state after merging all sources, the later ones over the earlier. */
  function Resolved(s: State, sources: seq<Source>): State {
    if sources == [] then s else After(Resolved(s, sources[..|sources| - 1]), sources[|sources| - 1])
  }

  class Resolver {
    var values: Entries
    var provenance: Provenance

    constructor ()
      ensures View() == START
    {
      values, provenance := START.values, START.provenance;
    }

    ghost function View(): State
      reads this
    {
      State(values, provenance)
    }

    method Merge(source: Source)
      modifies this
      ensures View() == After(old(View()), source)
    {
      var v, p := MergeInto(values, source.data, provenance, source.name, "");
      values, provenance := v, p;
    }

    /** `resolve_config`: the global, project and local files that exist, then the environment,
        then the explicit overrides; the first rejected source stops the resolution. */
    method Resolve(files: seq<Source>, env: Source, explicit: Option<Source>, known: set<string>, pat: Patterns)
      returns (error: Option<ConfigError>)
      modifies this
      ensures error == FirstRejection(files, explicit, known, pat)
      ensures error == None ==> View() == Resolved(old(View()),
        files + [env] + (if explicit.Some? then [explicit.value] else []))
    {
      ghost var start := View();
      for i := 0 to |files|
        invariant FirstRejection(files, explicit, known, pat) == FirstRejection(files[i..], explicit, known, pat)
        invariant View() == Resolved(start, files[..i])
      {
        error := Rejects(files[i], known, pat);
        if error != None { return; }
        Merge(files[i]);
        ResolvedNext(start, files[..i], files[i]);
        assert files[..i + 1] == files[..i] + [files[i]];
      }
      assert files[..|files|] == files;
      Merge(env);
      ResolvedNext(start, files, env);
      error := None;
      if explicit.Some? {
        if HasPlainSecret(explicit.value.data, pat) { return Some(PlainSecret(explicit.value.name)); }
        Merge(explicit.value);
        ResolvedNext(start, files + [env], explicit.value);
      } else {
        assert files + [env] + [] == files + [env];
      }
    }
  }

  lemma ResolvedNext(start: State, sources: seq<Source>, last: Source)
    ensures Resolved(start, sources + [last]) == After(Resolved(start, sources), last)
  {
    assert (sources + [last])[..|sources|] == sources;
  }

  /** `_merge` on values: the loop over the incoming keys. */
  method MergeInto(target: Entries, incoming: Entries, provenance: Provenance, source: string, prefix: string)
    returns (t: Entries, p: Provenance)
    ensures t == Merged(target, incoming)
    ensures p == Recorded(provenance, Assigned(target, incoming, prefix, incoming.Keys), source)
    decreases Mapping(incoming), 1
  {
    t, p := target, provenance;
    var todo := incoming.Keys;
    NothingMerged(target, incoming, provenance, source, prefix);
    while todo != {}
      invariant todo <= incoming.Keys
      invariant PartlyMerged(target, incoming, incoming.Keys - todo, t)
      invariant p == PartlyRecorded(target, incoming, provenance, source, prefix, incoming.Keys - todo)
      decreases |todo|
    {
      var key :| key in todo;
      var value;
      value, p := MergeKey(target, incoming, p, source, prefix, key);
      OneMoreMerged(target, incoming, incoming.Keys - todo, t, key);
      OneMoreRecorded(target, incoming, provenance, source, prefix, incoming.Keys - todo, key);
      t := t[key := value];
      assert incoming.Keys - (todo - {key}) == (incoming.Keys - todo) + {key};
      todo := todo - {key};
    }
    assert incoming.Keys - {} == incoming.Keys;
    AllMerged(target, incoming, t);
  }

  ghost function PartlyRecorded(target: Entries, incoming: Entries, provenance: Provenance, source: string,
                                prefix: string, done: set<string>): Provenance
    requires done <= incoming.Keys
  {
    Recorded(provenance, Assigned(target, incoming, prefix, done), source)
  }

  lemma NothingMerged(target: Entries, incoming: Entries, provenance: Provenance, source: string, prefix: string)
    ensures incoming.Keys - incoming.Keys == {}
    ensures PartlyMerged(target, incoming, {}, target)
    ensures PartlyRecorded(target, incoming, provenance, source, prefix, {}) == provenance
  {
    assert Assigned(target, incoming, prefix, {}) == {};
  }

  lemma OneMoreMerged(target: Entries, incoming: Entries, done: set<string>, t: Entries, key: string)
    requires done <= incoming.Keys && key in incoming && PartlyMerged(target, incoming, done, t)
    ensures PartlyMerged(target, incoming, done + {key}, t[key := MergedAt(target, incoming, key)])
  {
  }

  lemma OneMoreRecorded(target: Entries, incoming: Entries, provenance: Provenance, source: string, prefix: string,
                        done: set<string>, key: string)
    requires done <= incoming.Keys && key in incoming
    ensures Recorded(PartlyRecorded(target, incoming, provenance, source, prefix, done),
                     AssignedAt(target, incoming, prefix, key), source)
      == PartlyRecorded(target, incoming, provenance, source, prefix, done + {key})
  {
    AssignedNext(target, incoming, prefix, done, key);
    RecordedTwice(provenance, Assigned(target, incoming, prefix, done), AssignedAt(target, incoming, prefix, key),
                  source);
  }

  lemma AllMerged(target: Entries, incoming: Entries, t: Entries)
    requires PartlyMerged(target, incoming, incoming.Keys, t)
    ensures t == Merged(target, incoming)
  {
  }

  ghost predicate PartlyMerged(target: Entries, incoming: Entries, done: set<string>, t: Entries)
    requires done <= incoming.Keys
  {
    && (forall key :: key in t <==> key in target || key in done)
    && (forall key :: key in t ==> t[key] == if key in done then MergedAt(target, incoming, key) else target[key])
  }

  /** One key: merge two mappings, or replace and record. */
  method MergeKey(target: Entries, incoming: Entries, provenance: Provenance, source: string, prefix: string,
                  key: string)
    returns (value: Value, p: Provenance)
    requires key in incoming
    ensures value == MergedAt(target, incoming, key)
    ensures p == Recorded(provenance, AssignedAt(target, incoming, prefix, key), source)
    decreases Mapping(incoming), 0
  {
    var path := Extend(prefix, key);
    value := incoming[key];
    if value.Mapping? && key in target && target[key].Mapping? {
      var sub;
      sub, p := MergeInto(target[key].entries, value.entries, provenance, source, path);
      value := Mapping(sub);
    } else {
      p := provenance[path := source];
    }
  }

  lemma RecordedTwice(p: Provenance, a: set<string>, b: set<string>, source: string)
    ensures Recorded(Recorded(p, a, source), b, source) == Recorded(p, a + b, source)
  {
  }

  lemma AssignedNext(target: Entries, incoming: Entries, prefix: string, done: set<string>, key: string)
    requires done <= incoming.Keys && key in incoming
    ensures Assigned(target, incoming, prefix, done + {key})
      == Assigned(target, incoming, prefix, done) + AssignedAt(target, incoming, prefix, key)
  {
  }
}
