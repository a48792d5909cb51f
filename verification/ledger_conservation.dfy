/** Compressing a ledger loses no entry: what one run and any number of runs conserve. */
module LedgerConservation {
  import opened Options
  import opened Text
  import opened Compressor
  import opened LedgerLaws

  /** The entries of a file, up to trailing white space. */
  function Shown(file: Option<string>): seq<string> {
    match file case None => [] case Some(t) => Trimmed(Split(t).entries)
  }

  /** All entries, archived ones first. */
  function History(v: Vault): seq<string> { Shown(v.archive) + Shown(v.ledger) }

  ghost predicate BareArchive(v: Vault) {
    v.archive.Some? && EndsInBareHeader(v.archive.value)
  }

  /** How often a run puts a summary at the head of the ledger's entries: once, unless nothing
      is archived. */
  function Summaries(ledger: string, keep: int): nat {
    if Cut(|Split(ledger).entries|, keep) > 0 then 1 else 0
  }

  lemma {:induction false} SlicesAreEntries(t: string, cut: nat)
    requires cut <= |Split(t).entries|
    ensures AllEntries(Split(t).entries[..cut]) && AllEntries(Split(t).entries[cut..])
  {
    EntriesAreEntries(t);
  }

  lemma ArchiveAfter(v: Vault, older: seq<string>)
    requires AllEntries(older)
    ensures !BareArchive(v) ==> Shown(Some(NewArchive(v.archive, older))) == Shown(v.archive) + Trimmed(older)
    ensures BareArchive(v) ==> |Shown(Some(NewArchive(v.archive, older)))| == |Shown(v.archive)| - 1 + |older|
  {
    match v.archive
    case None => NewArchiveFromNothing(older);
    case Some(existing) =>
      ArchiveEntries(existing, older);
      if BareArchive(v) { BareHeaderIsLost(existing); } else { TrimmedArchive(existing); }
  }

  lemma LedgerAfter(t: string, cut: nat, today: string, status: StatusReader)
    requires cut <= |Split(t).entries| && '\n' !in today && SingleLine(status)
    ensures Shown(Some(NewLedger(Split(t), cut, today, status)))
      == (if cut > 0 then [RStrip(Summary(Split(t).entries[..cut], today, status))] else [])
         + Trimmed(Split(t).entries[cut..])
  {
    var p := Split(t);
    var s := Summary(p.entries[..cut], today, status);
    SlicesAreEntries(t, cut);
    PreambleHasNoHeader(t);
    NoHeaderIsPreamble(p.preamble);
    Associate(p.preamble, s, "\n");
    if cut > 0 {
      PreambleIsClosed(t);
      SummaryIsEntry(p.entries[..cut], today, status);
      BehindPreamble(p.preamble, s, p.entries[cut..]);
    } else {
      assert p.preamble + "" == p.preamble;
      NewlineTrims(p.preamble);
      AppendJoined(p.preamble + "\n", p.entries[cut..]);
    }
  }

  lemma BehindPreamble(preamble: string, s: string, entries: seq<string>)
    requires Closed(preamble) && NoHeader(preamble) && IsEntry(s) && AllEntries(entries)
    ensures Trimmed(Split(preamble + (s + "\n") + Join(entries, "\n")).entries) == [RStrip(s)] + Trimmed(entries)
  {
    NewlineEntry(s);
    SplitConcat(preamble, s + "\n");
    AppendJoined(preamble + (s + "\n"), entries);
    RStripSnoc(s, '\n');
    assert Trimmed([s + "\n"]) == [RStrip(s)];
  }

  /** What a run that compresses does to the entries shown: the older ones move behind the
      archived ones, the others stay, and a summary comes first in the ledger. */
  ghost predicate Moved(v: Vault, after: Vault, cut: nat, head: seq<string>) {
    && cut <= |Shown(v.ledger)|
    && Shown(after.ledger) == head + Shown(v.ledger)[cut..]
    && (!BareArchive(v) ==> Shown(after.archive) == Shown(v.archive) + Shown(v.ledger)[..cut])
    && (BareArchive(v) ==> |Shown(after.archive)| == |Shown(v.archive)| - 1 + cut)
  }

  function SummaryOf(t: string, keep: int, today: string, status: StatusReader): seq<string> {
    var cut := Cut(|Split(t).entries|, keep);
    if cut > 0 then [RStrip(Summary(Split(t).entries[..cut], today, status))] else []
  }

  lemma TrimmedSlices(entries: seq<string>, cut: nat)
    requires cut <= |entries|
    ensures Trimmed(entries[..cut]) == Trimmed(entries)[..cut]
    ensures Trimmed(entries[cut..]) == Trimmed(entries)[cut..]
  {
  }

  lemma RunMoves(v: Vault, threshold: int, keep: int, today: string, status: StatusReader)
    requires v.ledger.Some? && Triggers(v.ledger.value, threshold, keep)
    requires '\n' !in today && SingleLine(status)
    ensures Moved(v, Compressed(v, threshold, keep, today, status), Cut(|Shown(v.ledger)|, keep),
                  SummaryOf(v.ledger.value, keep, today, status))
  {
    var t := v.ledger.value;
    var es := Split(t).entries;
    var cut := Cut(|es|, keep);
    SlicesAreEntries(t, cut);
    TrimmedSlices(es, cut);
    ArchiveAfter(v, es[..cut]);
    LedgerAfter(t, cut, today, status);
  }

  /** Conservation: the new archive's entries followed by the new ledger's, its summary left
      out, are the old archive's followed by the old ledger's. */
  ghost predicate Conserves(before: Vault, after: Vault, summaries: nat) {
    summaries <= |Shown(after.ledger)| && Shown(after.archive) + Shown(after.ledger)[summaries..] == History(before)
  }

  lemma MovedConservesIff(v: Vault, after: Vault, cut: nat, head: seq<string>)
    requires Moved(v, after, cut, head)
    ensures Conserves(v, after, |head|) <==> !BareArchive(v)
  {
    MovedWhole(head, Shown(v.archive), Shown(v.ledger), cut);
    if BareArchive(v) {
      assert |Shown(after.archive) + Shown(after.ledger)[|head|..]| == |History(v)| - 1;
    }
  }

  lemma MovedWhole<T>(head: seq<T>, archive: seq<T>, ledger: seq<T>, cut: nat)
    requires cut <= |ledger|
    ensures (head + ledger[cut..])[|head|..] == ledger[cut..]
    ensures (archive + ledger[..cut]) + ledger[cut..] == archive + ledger
  {
  }

  /** A run conserves the entries if and only if the archive does not end in an entry that shows
      nothing but "##": trimming the archive would close that entry. */
  lemma RunConservesIff(v: Vault, threshold: int, keep: int, today: string, status: StatusReader)
    requires v.ledger.Some? && Triggers(v.ledger.value, threshold, keep)
    requires '\n' !in today && SingleLine(status)
    ensures Conserves(v, Compressed(v, threshold, keep, today, status), Summaries(v.ledger.value, keep))
      <==> !BareArchive(v)
  {
    RunMoves(v, threshold, keep, today, status);
    MovedConservesIff(v, Compressed(v, threshold, keep, today, status), Cut(|Shown(v.ledger)|, keep),
                      SummaryOf(v.ledger.value, keep, today, status));
  }

  /** An archive of one header line with nothing but blanks after "## ". */
  lemma BlankHeader()
    ensures EndsInBareHeader("##  ")
  {
    var t := "##  ";
    assert t[1..] == "#  " && t[2..] == "  " && t[3..] == " " && t[4..] == "";
    assert LineEnd(" ") == 1 && LineEnd("  ") == 2 && LineEnd("#  ") == 3 && LineEnd(t) == 4;
    assert t[..4] == t;
    var none := Split("");
    assert none == Pieces("", []) && IsHeader(t);
    assert Cons(t, none) == Pieces("", [t + ""]) && t + "" == t;
    assert Split(t) == Cons(t, Split(t[4..]));
    assert t[..3] == "## " && t[..3][..2] == "##";
    assert RStrip("##") == "##" && RStrip("## ") == "##";
  }

  /** Whatever the ledger, a run that archives beside such an archive does not conserve. */
  lemma BlankHeaderIsLost(ledger: string, threshold: int, keep: int, today: string, status: StatusReader)
    requires Triggers(ledger, threshold, keep) && '\n' !in today && SingleLine(status)
    ensures var v := Vault(Some(ledger), Some("##  "));
      !Conserves(v, Compressed(v, threshold, keep, today, status), Summaries(ledger, keep))
  {
    BlankHeader();
    RunConservesIff(Vault(Some(ledger), Some("##  ")), threshold, keep, today, status);
  }

  /** With a window of at least one entry, exactly the newest `keep` entries stay. */
  lemma RunKeepsNewest(v: Vault, threshold: int, keep: int, today: string, status: StatusReader)
    requires v.ledger.Some? && Triggers(v.ledger.value, threshold, keep) && keep >= 1
    requires '\n' !in today && SingleLine(status)
    ensures var after := Compressed(v, threshold, keep, today, status);
      && |Shown(after.ledger)| == 1 + keep
      && Shown(after.ledger)[1..] == Shown(v.ledger)[|Shown(v.ledger)| - keep..]
  {
    RunMoves(v, threshold, keep, today, status);
  }

  // ---------------------------------------------------------------------------------------
  // Any number of runs
  // ---------------------------------------------------------------------------------------

  datatype Config = Config(threshold: int, keep: int, today: string, status: StatusReader)

  ghost predicate GoodConfigs(configs: seq<Config>) {
    forall i :: 0 <= i < |configs| ==> '\n' !in configs[i].today && SingleLine(configs[i].status)
  }

  function Runs(v: Vault, configs: seq<Config>): Vault {
    if configs == [] then v else
      var c := configs[|configs| - 1];
      Compressed(Runs(v, configs[..|configs| - 1]), c.threshold, c.keep, c.today, c.status)
  }

  ghost predicate IsSummaryText(e: string) { "## Archived (" <= e }

  /** `after` is `before` with the texts `extra` put in, one after the other. */
  ghost predicate Inserted(before: seq<string>, after: seq<string>, extra: seq<string>)
    decreases |extra|
  {
    if extra == [] then after == before
    else exists mid, p {:trigger InsertedAt(mid, after, extra[|extra| - 1], p)} ::
      InsertedAt(mid, after, extra[|extra| - 1], p) && Inserted(before, mid, extra[..|extra| - 1])
  }

  ghost predicate InsertedAt(mid: seq<string>, after: seq<string>, e: string, p: nat) {
    p <= |mid| && after == mid[..p] + [e] + mid[p..]
  }

  ghost predicate AllSummaries(extra: seq<string>) {
    forall i :: 0 <= i < |extra| ==> IsSummaryText(extra[i])
  }

  /** Every entry shows more than the two hashes of its header line. */
  ghost predicate Visible(v: Vault) {
    forall i :: 0 <= i < |History(v)| ==> History(v)[i] != "##"
  }

  lemma BareIsInHistory(v: Vault) returns (n: nat)
    requires BareArchive(v)
    ensures n < |History(v)| && History(v)[n] == "##"
  {
    n := |Shown(v.archive)| - 1;
    assert History(v)[n] == Shown(v.archive)[n];
  }

  lemma VisibleIsNotBare(v: Vault)
    requires Visible(v)
    ensures !BareArchive(v)
  {
    if BareArchive(v) { var n := BareIsInHistory(v); }
  }

  lemma TitleSurvivesTrimming(s: string)
    requires "## Archived (" <= s
    ensures "## Archived (" <= RStrip(s)
  {
    assert s[12] == "## Archived ("[12] == '(';
    assert !IsSpace(s[12]);
    assert |RStrip(s)| >= 13;
  }

  lemma SummaryOpens(entries: seq<string>, today: string, status: StatusReader)
    requires entries != []
    ensures IsSummaryText(RStrip(Summary(entries, today, status)))
  {
    var lines := SummaryHead(|entries|, today) + Bullets(entries, BulletWith(status)) + [""];
    OpensWithFirst(lines, "## Archived (");
    TitleSurvivesTrimming(Join(lines, "\n"));
  }

  lemma OpensWithFirst(lines: seq<string>, opening: string)
    requires lines != [] && opening <= lines[0]
    ensures opening <= Join(lines, "\n")
  {
  }

  predicate Compresses(v: Vault, c: Config) { v.ledger.Some? && Triggers(v.ledger.value, c.threshold, c.keep) }

  /** A run that compresses beside an archive whose last entry shows nothing but "##". */
  ghost predicate Loses(v: Vault, c: Config) { Compresses(v, c) && BareArchive(v) }

  /** How many summaries a run puts in, whether it compresses or not. */
  function Added(v: Vault, c: Config): (n: nat)
    ensures n <= 1
  {
    if Compresses(v, c) then Summaries(v.ledger.value, c.keep) else 0
  }

  /** A run that does not lose an entry puts its summary into the history and keeps the rest. */
  lemma RunInserts(v: Vault, c: Config) returns (extra: seq<string>)
    requires !Loses(v, c) && '\n' !in c.today && SingleLine(c.status)
    ensures Inserted(History(v), History(Compressed(v, c.threshold, c.keep, c.today, c.status)), extra)
    ensures |extra| == Added(v, c) && AllSummaries(extra)
  {
    extra := [];
    if Compresses(v, c) {
      RunMoves(v, c.threshold, c.keep, c.today, c.status);
      extra := SummaryOf(v.ledger.value, c.keep, c.today, c.status);
      MovedInserts(v, Compressed(v, c.threshold, c.keep, c.today, c.status), Cut(|Shown(v.ledger)|, c.keep), extra);
      SummaryTexts(v.ledger.value, c.keep, c.today, c.status);
    }
  }

  lemma RunSize(v: Vault, c: Config)
    requires '\n' !in c.today && SingleLine(c.status)
    ensures |History(Compressed(v, c.threshold, c.keep, c.today, c.status))| + (if Loses(v, c) then 1 else 0)
      == |History(v)| + Added(v, c)
  {
    if Compresses(v, c) { RunMoves(v, c.threshold, c.keep, c.today, c.status); }
  }

  lemma SummaryTexts(t: string, keep: int, today: string, status: StatusReader)
    ensures AllSummaries(SummaryOf(t, keep, today, status))
  {
    var cut := Cut(|Split(t).entries|, keep);
    if cut > 0 { SummaryOpens(Split(t).entries[..cut], today, status); }
  }

  lemma MovedInserts(v: Vault, after: Vault, cut: nat, head: seq<string>)
    requires Moved(v, after, cut, head) && !BareArchive(v) && |head| <= 1
    ensures Inserted(History(v), History(after), head)
  {
    ListInserts(Shown(v.archive), Shown(v.ledger), cut, head);
  }

  lemma ListInserts(a: seq<string>, older: seq<string>, cut: nat, head: seq<string>)
    requires cut <= |older| && |head| <= 1
    ensures Inserted(a + older, (a + older[..cut]) + (head + older[cut..]), head)
  {
    var x, y := older[..cut], older[cut..];
    assert older == x + y;
    Splice(a, x, y, head);
    if head != [] {
      assert head == [head[0]];
      PutIn(a + older, (a + x) + (head + y), head[0], |a| + |x|);
    }
  }

  lemma Splice(a: seq<string>, x: seq<string>, y: seq<string>, h: seq<string>)
    ensures (a + x) + (h + y) == (a + (x + y))[..|a| + |x|] + h + (a + (x + y))[|a| + |x|..]
    ensures h == [] ==> (a + x) + (h + y) == a + (x + y)
  {
    assert (a + (x + y))[..|a| + |x|] == a + x;
    assert (a + (x + y))[|a| + |x|..] == y;
  }

  lemma {:induction false} InsertedStaysVisible(before: seq<string>, after: seq<string>, extra: seq<string>)
    requires Inserted(before, after, extra) && AllSummaries(extra)
    requires forall i :: 0 <= i < |before| ==> before[i] != "##"
    ensures forall i :: 0 <= i < |after| ==> after[i] != "##"
    decreases |extra|
  {
    if extra != [] {
      var last := extra[|extra| - 1];
      var mid, p :| InsertedAt(mid, after, last, p) && Inserted(before, mid, extra[..|extra| - 1]);
      InsertedStaysVisible(before, mid, extra[..|extra| - 1]);
      assert IsSummaryText(last);
    }
  }

  lemma PutIn(before: seq<string>, after: seq<string>, s: string, p: nat)
    requires p <= |before| && after == before[..p] + [s] + before[p..]
    ensures Inserted(before, after, [s])
  {
    var extra := [s];
    assert InsertedAt(before, after, extra[|extra| - 1], p);
    assert extra[..|extra| - 1] == [];
  }

  function AddedBy(v: Vault, configs: seq<Config>): nat {
    if configs == [] then 0
    else AddedBy(v, configs[..|configs| - 1]) + Added(Runs(v, configs[..|configs| - 1]), configs[|configs| - 1])
  }

  ghost predicate NoneLoses(v: Vault, configs: seq<Config>) {
    configs == []
    || (NoneLoses(v, configs[..|configs| - 1])
        && !Loses(Runs(v, configs[..|configs| - 1]), configs[|configs| - 1]))
  }

  lemma FrontIsGood(configs: seq<Config>)
    requires configs != [] && GoodConfigs(configs)
    ensures GoodConfigs(configs[..|configs| - 1])
    ensures '\n' !in configs[|configs| - 1].today && SingleLine(configs[|configs| - 1].status)
  {
  }

  lemma {:induction false} RunsSize(v: Vault, configs: seq<Config>)
    requires GoodConfigs(configs)
    ensures |History(Runs(v, configs))| <= |History(v)| + AddedBy(v, configs)
    ensures |History(Runs(v, configs))| == |History(v)| + AddedBy(v, configs) ==> NoneLoses(v, configs)
  {
    if configs != [] {
      FrontIsGood(configs);
      RunsSize(v, configs[..|configs| - 1]);
      RunSize(Runs(v, configs[..|configs| - 1]), configs[|configs| - 1]);
    }
  }

  lemma {:induction false} InsertedSize(before: seq<string>, after: seq<string>, extra: seq<string>)
    requires Inserted(before, after, extra)
    ensures |after| == |before| + |extra|
    decreases |extra|
  {
    if extra != [] {
      var last := extra[|extra| - 1];
      var mid, p :| InsertedAt(mid, after, last, p) && Inserted(before, mid, extra[..|extra| - 1]);
      InsertedSize(before, mid, extra[..|extra| - 1]);
    }
  }

  /** Runs none of which loses an entry only add their summaries. */
  lemma {:induction false} RunsInsert(v: Vault, configs: seq<Config>) returns (extra: seq<string>)
    requires NoneLoses(v, configs) && GoodConfigs(configs)
    ensures Inserted(History(v), History(Runs(v, configs)), extra)
    ensures |extra| == AddedBy(v, configs) && AllSummaries(extra)
  {
    extra := [];
    if configs != [] {
      var front, c := configs[..|configs| - 1], configs[|configs| - 1];
      FrontIsGood(configs);
      extra := RunsInsert(v, front);
      var one := RunInserts(Runs(v, front), c);
      extra := InsertFurther(History(v), History(Runs(v, front)), History(Runs(v, configs)), extra, one);
    }
  }

  /** Every entry stays, in order, and `count` summaries come in. */
  ghost predicate OnlyGains(before: seq<string>, after: seq<string>, count: nat) {
    exists extra :: Inserted(before, after, extra) && |extra| == count && AllSummaries(extra)
  }

  /** Over any number of runs the history keeps every entry, in order, and gains the runs'
      summaries, if and only if no run compresses beside an archive ending in a bare header. */
  lemma RunsConserveIff(v: Vault, configs: seq<Config>)
    requires GoodConfigs(configs)
    ensures OnlyGains(History(v), History(Runs(v, configs)), AddedBy(v, configs)) <==> NoneLoses(v, configs)
  {
    if NoneLoses(v, configs) { var extra := RunsInsert(v, configs); }
    if OnlyGains(History(v), History(Runs(v, configs)), AddedBy(v, configs)) {
      var extra :| Inserted(History(v), History(Runs(v, configs)), extra) && |extra| == AddedBy(v, configs);
      InsertedSize(History(v), History(Runs(v, configs)), extra);
      RunsSize(v, configs);
    }
  }

  lemma {:induction false} VisibleRuns(v: Vault, configs: seq<Config>)
    requires Visible(v) && GoodConfigs(configs)
    ensures NoneLoses(v, configs) && AddedBy(v, configs) <= |configs|
  {
    if configs != [] {
      var front := configs[..|configs| - 1];
      FrontIsGood(configs);
      VisibleRuns(v, front);
      var extra := RunsInsert(v, front);
      InsertedStaysVisible(History(v), History(Runs(v, front)), extra);
      VisibleIsNotBare(Runs(v, front));
    }
  }

  /** In particular from files whose entries all show visible text. */
  lemma RunsConserve(v: Vault, configs: seq<Config>) returns (extra: seq<string>)
    requires Visible(v) && GoodConfigs(configs)
    ensures Inserted(History(v), History(Runs(v, configs)), extra)
    ensures |extra| <= |configs| && AllSummaries(extra)
  {
    VisibleRuns(v, configs);
    extra := RunsInsert(v, configs);
  }

  lemma InsertFurther(before: seq<string>, mid: seq<string>, after: seq<string>, extra: seq<string>, one: seq<string>)
    returns (all: seq<string>)
    requires Inserted(before, mid, extra) && Inserted(mid, after, one) && |one| <= 1
    requires AllSummaries(extra) && AllSummaries(one)
    ensures Inserted(before, after, all) && |all| == |extra| + |one| && AllSummaries(all)
  {
    all := extra + one;
    if one == [] {
      assert all == extra;
    } else {
      var m, p :| InsertedAt(m, after, one[0], p) && Inserted(mid, m, one[..0]);
      assert m == mid;
      assert all[..|all| - 1] == extra && all[|all| - 1] == one[0];
    }
  }
}
