/** What the texts of a compressed ledger keep besides the entries. */
module LedgerTexts {
  import opened Options
  import opened Text
  import opened Compressor
  import opened LedgerLaws
  import opened LedgerConservation

  // ---------------------------------------------------------------------------------------
  // Around the entries
  // ---------------------------------------------------------------------------------------

  /** A run that archives something keeps the ledger's preamble, character by character. */
  lemma PreambleStays(v: Vault, threshold: int, keep: int, today: string, status: StatusReader)
    requires v.ledger.Some? && Triggers(v.ledger.value, threshold, keep) && keep >= 1
    requires '\n' !in today && SingleLine(status)
    ensures var after := Compressed(v, threshold, keep, today, status);
      after.ledger.Some? && Split(after.ledger.value).preamble == Split(v.ledger.value).preamble
  {
    var p := Split(v.ledger.value);
    var cut := Cut(|p.entries|, keep);
    var s := Summary(p.entries[..cut], today, status);
    SlicesAreEntries(v.ledger.value, cut);
    PreambleHasNoHeader(v.ledger.value);
    PreambleIsClosed(v.ledger.value);
    SummaryIsEntry(p.entries[..cut], today, status);
    BeforeSummary(p.preamble, s, Join(p.entries[cut..], "\n"));
  }

  lemma BeforeSummary(preamble: string, s: string, rest: string)
    requires Closed(preamble) && NoHeader(preamble) && IsEntry(s)
    ensures Split(preamble + s + "\n" + rest).preamble == preamble
  {
    BeginsWithEntry(preamble, s, "\n" + rest);
    assert preamble + s + "\n" + rest == preamble + (s + ("\n" + rest));
  }

  lemma BeginsWithEntry(preamble: string, e: string, rest: string)
    requires Closed(preamble) && NoHeader(preamble) && IsEntry(e) && (rest == "" || rest[0] == '\n')
    ensures Split(preamble + (e + rest)).preamble == preamble
  {
    NoHeaderIsPreamble(preamble);
    SplitConcat(preamble, e + rest);
    EntryFirst(e, rest);
    assert preamble + "" == preamble;
  }

  lemma EntryFirst(e: string, rest: string)
    requires IsEntry(e) && (rest == "" || rest[0] == '\n')
    ensures Split(e + rest).preamble == ""
  {
    EntryShape(e);
    PrefixLineEnd(e + rest, e);
    var n, m := LineEnd(e), LineEnd(e + rest);
    assert e[..n] == (e + rest)[..n] && (e + rest)[..m][..n] == (e + rest)[..n];
    LongerHeader((e + rest)[..m], n);
  }

  lemma LongerHeader(line: string, n: nat)
    requires n <= |line| && IsHeader(line[..n])
    ensures IsHeader(line)
  {
  }

  /** The old archive, up to trailing white space, stays where it is; a first archive has a title. */
  lemma ArchiveStays(v: Vault, threshold: int, keep: int, today: string, status: StatusReader)
    requires v.ledger.Some? && Triggers(v.ledger.value, threshold, keep)
    ensures var after := Compressed(v, threshold, keep, today, status);
      && after.archive.Some?
      && (v.archive.Some? ==> RStrip(v.archive.value) <= after.archive.value)
      && (v.archive.None? ==> "# Ledger Archive\n\n" <= after.archive.value)
  {
    if v.archive.None? { TitleFirst(); }
  }

  lemma TitleFirst()
    ensures "# Ledger Archive\n\n" <= ARCHIVE_HEADER
  {
    var lines := [ARCHIVE_TITLE, "", ARCHIVE_NOTE, "", ""];
    assert lines[1..] == ["", ARCHIVE_NOTE, "", ""];
    assert lines[1..][1..] == [ARCHIVE_NOTE, "", ""];
    var rest := Join([ARCHIVE_NOTE, "", ""], "\n");
    assert Join(lines[1..], "\n") == "" + "\n" + rest;
    TitleBefore(rest);
  }

  lemma TitleBefore(rest: string)
    ensures "# Ledger Archive\n\n" <= "# Ledger Archive" + "\n" + ("" + "\n" + rest)
  {
    assert ("# Ledger Archive" + "\n" + ("" + "\n" + rest))[..18] == "# Ledger Archive\n\n";
  }

  // ---------------------------------------------------------------------------------------
  // The summary
  // ---------------------------------------------------------------------------------------

  ghost predicate Plain(lines: seq<string>) { forall i :: 0 <= i < |lines| ==> '\n' !in lines[i] }

  lemma {:induction false} LinesOfJoin(lines: seq<string>)
    requires lines != [] && Plain(lines)
    ensures SplitOn(Join(lines, "\n"), '\n') == lines
  {
    if |lines| == 1 {
      SplitOnAt(lines[0], '\n', "");
    } else {
      LinesOfJoin(lines[1..]);
      SplitOnAt(lines[0], '\n', Join(lines[1..], "\n"));
      assert Join(lines, "\n") == lines[0] + ['\n'] + Join(lines[1..], "\n");
      assert lines == [lines[0]] + lines[1..];
    }
  }

  /** The first line of an entry: no line feed, and the entry ends or goes on after one. */
  ghost predicate IsFirstLine(e: string, line: string) { '\n' !in line && (e == line || line + "\n" <= e) }

  lemma {:induction false} FirstLineIs(e: string)
    ensures IsFirstLine(e, FirstLine(e))
  {
    if e != "" && e[0] != '\n' {
      FirstLineIs(e[1..]);
      assert FirstLine(e) == [e[0]] + FirstLine(e[1..]) && e == [e[0]] + e[1..];
    }
  }

  /** The line of a summary that stands for an entry: its first line without blanks around it, and its
      status. */
  ghost predicate StandsFor(bullet: string, e: string, status: StatusReader) {
    exists line :: IsFirstLine(e, line) && bullet == "- " + Strip(line) + " \U{2014} " + status(e)
  }

  lemma Around(head: seq<string>, bullets: seq<string>, i: nat)
    requires i < |bullets|
    ensures (head + bullets + [""])[|head| + i] == bullets[i]
  {
  }

  ghost predicate Shows(lines: seq<string>, head: seq<string>, entries: seq<string>, status: StatusReader) {
    && |lines| == |head| + |entries| + 1 && lines[..|head|] == head && lines[|head| + |entries|] == ""
    && forall i :: 0 <= i < |entries| ==> StandsFor(lines[|head| + i], entries[i], status)
  }

  lemma LinesShow(head: seq<string>, bullets: seq<string>, entries: seq<string>, status: StatusReader)
    requires Plain(head) && Plain(bullets) && |bullets| == |entries|
    requires forall i :: 0 <= i < |entries| ==> StandsFor(bullets[i], entries[i], status)
    ensures Shows(SplitOn(Join(head + bullets + [""], "\n"), '\n'), head, entries, status)
  {
    var lines := head + bullets + [""];
    AllLinesPlain(head, bullets);
    LinesOfJoin(lines);
    forall i | 0 <= i < |entries| ensures StandsFor(lines[|head| + i], entries[i], status) { Around(head, bullets, i); }
  }

  /** A summary consists of a head, one line for every entry, and an empty line. */
  lemma SummaryLines(entries: seq<string>, today: string, status: StatusReader)
    requires entries != [] && '\n' !in today && SingleLine(status)
    ensures Shows(SplitOn(Summary(entries, today, status), '\n'), SummaryHead(|entries|, today), entries, status)
  {
    var bullets := Bullets(entries, BulletWith(status));
    HeadIsPlain(|entries|, today);
    forall i | 0 <= i < |entries| ensures '\n' !in bullets[i] && StandsFor(bullets[i], entries[i], status) {
      BulletIsPlain(entries[i], status);
      BulletStands(entries[i], status);
    }
    LinesShow(SummaryHead(|entries|, today), bullets, entries, status);
  }

  lemma BulletStands(e: string, status: StatusReader)
    ensures StandsFor(BulletWith(status)(e), e, status)
  {
    FirstLineIs(e);
  }

  lemma AllLinesPlain(head: seq<string>, bullets: seq<string>)
    requires Plain(head) && Plain(bullets)
    ensures Plain(head + bullets + [""])
  {
  }

  lemma HeadIsPlain(count: nat, today: string)
    requires '\n' !in today
    ensures Plain(SummaryHead(count, today))
  {
    SummaryTitle(count, today);
    DateLineIsPlain(count, today);
    var head := SummaryHead(count, today);
    forall i | 0 <= i < |head| ensures '\n' !in head[i] { if i > 0 { assert head[i] == head[1..][i - 1]; } }
  }

  /** The head names the number of entries and the date. */
  lemma HeadSays(count: nat, today: string)
    ensures SummaryHead(count, today)
      == ["## Archived (" + Decimal(count) + " entries)", "", "*Archived on " + today + "*", ""]
    ensures Parse(Decimal(count)) == count
  {
  }
}
