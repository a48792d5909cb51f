/** Ledger archival: splitting a ledger into entries, and moving the older ones to an archive. */
module Compressor {
  import opened Options
  import opened Text

  // ---------------------------------------------------------------------------------------
  // Entries
  // ---------------------------------------------------------------------------------------

  /** The first line reaches to here, its line feed included. */
  function LineEnd(t: string): (n: nat)
    ensures n <= |t| && (t != "" ==> n > 0)
    ensures n < |t| ==> n > 0 && t[n - 1] == '\n'
  {
    if t == "" then 0 else if t[0] == '\n' then 1 else 1 + LineEnd(t[1..])
  }

  /** A line that opens an entry: "## " and at least one more character. */
  predicate IsHeader(line: string) {
    |line| > 3 && line[0] == '#' && line[1] == '#' && line[2] == ' ' && line[3] != '\n'
  }

  datatype Pieces = Pieces(preamble: string, entries: seq<string>)

  /** The text before the first header line, and the blocks that header lines open. */
  function Split(t: string): Pieces
    decreases |t|
  {
    if t == "" then Pieces("", []) else
      Cons(t[..LineEnd(t)], Split(t[LineEnd(t)..]))
  }

  /** One more line in front. */
  function Cons(line: string, p: Pieces): Pieces {
    if IsHeader(line) then Pieces("", [line + p.preamble] + p.entries) else Pieces(line + p.preamble, p.entries)
  }

  /** What the header pattern's `split` and `findall` return: the texts between the headers and
      the headers themselves, without their line feeds. */
  datatype Matches = Matches(parts: seq<string>, headers: seq<string>)

  function Find(t: string): (m: Matches)
    ensures |m.parts| == |m.headers| + 1
    decreases |t|
  {
    if t == "" then Matches([""], []) else
      var line, rest := t[..LineEnd(t)], Find(t[LineEnd(t)..]);
      if IsHeader(line) then
        var cut := if line[|line| - 1] == '\n' then |line| - 1 else |line|;
        Matches(["", line[cut..] + rest.parts[0]] + rest.parts[1..], [line[..cut]] + rest.headers)
      else Matches([line + rest.parts[0]] + rest.parts[1..], rest.headers)
  }

  /** Every header with the text that follows it. */
  function Glue(m: Matches): (entries: seq<string>)
    requires |m.parts| == |m.headers| + 1
  {
    seq(|m.headers|, i requires 0 <= i < |m.headers| => m.headers[i] + m.parts[i + 1])
  }

  lemma GlueCons(h: string, body: string, m: Matches)
    requires |m.parts| == |m.headers| + 1
    ensures Glue(Matches(["", body] + m.parts[1..], [h] + m.headers)) == [h + body] + Glue(m)
  {
  }

  lemma GlueSame(first: string, m: Matches)
    requires |m.parts| == |m.headers| + 1
    ensures Glue(Matches([first] + m.parts[1..], m.headers)) == Glue(m)
  {
  }

  lemma {:induction false} FindIsSplit(t: string)
    ensures Split(t) == Pieces(Find(t).parts[0], Glue(Find(t)))
    decreases |t|
  {
    if t != "" {
      var line, rest := t[..LineEnd(t)], t[LineEnd(t)..];
      var m := Find(rest);
      FindIsSplit(rest);
      if IsHeader(line) {
        var cut := if line[|line| - 1] == '\n' then |line| - 1 else |line|;
        GlueCons(line[..cut], line[cut..] + m.parts[0], m);
        assert line[..cut] + (line[cut..] + m.parts[0]) == line + m.parts[0];
      } else {
        GlueSame(line + m.parts[0], m);
      }
    }
  }

  method SplitLedger(t: string) returns (preamble: string, entries: seq<string>)
    ensures Pieces(preamble, entries) == Split(t)
  {
    var found := Find(t);
    FindIsSplit(t);
    preamble, entries := found.parts[0], [];
    for i := 0 to |found.headers|
      invariant entries == Glue(found)[..i]
    {
      entries := entries + [found.headers[i] + found.parts[i + 1]];
    }
  }

  // ---------------------------------------------------------------------------------------
  // The summary left in the ledger
  // ---------------------------------------------------------------------------------------

  /** How a summary reads off an entry's status: the text after "Status:", or a dash.  The
      pattern's dot never matches a line feed. */
  type StatusReader = string -> string

  ghost predicate SingleLine(status: StatusReader) {
    forall e :: '\n' !in status(e)
  }

  function FirstLine(e: string): string {
    var n := LineEnd(e);
    if n > 0 && e[n - 1] == '\n' then e[..n - 1] else e[..n]
  }

  function Bullet(e: string, status: StatusReader): string {
    "- " + Strip(FirstLine(e)) + " \U{2014} " + status(e)
  }

  /** One bullet for every entry. */
  function Bullets(entries: seq<string>, bullet: string -> string): (lines: seq<string>)
    ensures |lines| == |entries|
    ensures forall i :: 0 <= i < |lines| ==> lines[i] == bullet(entries[i])
  {
    if entries == [] then [] else Bullets(entries[..|entries| - 1], bullet) + [bullet(entries[|entries| - 1])]
  }

  function BulletWith(status: StatusReader): string -> string { (e: string) => Bullet(e, status) }

  function SummaryHead(count: nat, today: string): seq<string> {
    ["## Archived (" + Decimal(count) + " entries)", "", "*Archived on " + today + "*", ""]
  }

  function Summary(entries: seq<string>, today: string, status: StatusReader): string {
    if entries == [] then "" else
      Join(SummaryHead(|entries|, today) + Bullets(entries, BulletWith(status)) + [""], "\n")
  }

  method SummarizeEntries(entries: seq<string>, today: string, status: StatusReader) returns (s: string)
    ensures s == Summary(entries, today, status)
  {
    if entries == [] { return ""; }
    var lines := AppendBullets(SummaryHead(|entries|, today), entries, BulletWith(status));
    s := Join(lines + [""], "\n");
  }

  method AppendBullets(head: seq<string>, entries: seq<string>, bullet: string -> string) returns (lines: seq<string>)
    ensures lines == head + Bullets(entries, bullet)
  {
    lines := head;
    for i := 0 to |entries|
      invariant lines == head + Bullets(entries[..i], bullet)
    {
      assert entries[..i + 1][..i] == entries[..i];
      lines := lines + [bullet(entries[i])];
    }
    assert entries[..|entries|] == entries;
  }

  // ---------------------------------------------------------------------------------------
  // One run
  // ---------------------------------------------------------------------------------------

  predicate BreaksLine(c: char) {
    var n := c as int;
    10 <= n <= 13 || 28 <= n <= 30 || n == 0x85 || n == 0x2028 || n == 0x2029
  }

  /** `len(text.splitlines())`; `open` tells whether a line has begun. */
  function LineCount(t: string, open: bool := false): nat
    decreases |t|
  {
    if t == "" then (if open then 1 else 0)
    else if |t| >= 2 && t[0] == '\r' && t[1] == '\n' then 1 + LineCount(t[2..], false)
    else if BreaksLine(t[0]) then 1 + LineCount(t[1..], false)
    else LineCount(t[1..], true)
  }

  datatype Vault = Vault(ledger: Option<string>, archive: Option<string>)

  const ARCHIVE_TITLE := "# Ledger Archive"
  const ARCHIVE_NOTE := "Archived ledger entries." + " See `LEDGER.md` for" + " current entries."
  const ARCHIVE_HEADER := Join([ARCHIVE_TITLE, "", ARCHIVE_NOTE, "", ""], "\n")

  /** Where the slices `entries[:-keep]` and `entries[-keep:]` meet. */
  function Cut(count: nat, keep: int): (n: nat)
    ensures n <= count
  {
    if keep > 0 then (if keep <= count then count - keep else 0)
    else if -keep <= count then -keep else count
  }

  /** Does a run archive anything, or only report? */
  predicate Triggers(ledger: string, threshold: int, keep: int) {
    var count := |Split(ledger).entries|;
    (LineCount(ledger) > threshold || count > keep * 2) && count > keep
  }

  function NewArchive(archive: Option<string>, older: seq<string>): string {
    match archive
    case Some(existing) => RStrip(existing) + "\n\n" + Join(older, "\n")
    case None => ARCHIVE_HEADER + Join(older, "\n")
  }

  function NewLedger(p: Pieces, cut: nat, today: string, status: StatusReader): string
    requires cut <= |p.entries|
  {
    p.preamble + Summary(p.entries[..cut], today, status) + "\n" + Join(p.entries[cut..], "\n")
  }

  /** The files after a run. */
  function Compressed(v: Vault, threshold: int, keep: int, today: string, status: StatusReader): Vault {
    if v.ledger.None? || !Triggers(v.ledger.value, threshold, keep) then v else
      var p := Split(v.ledger.value);
      var cut := Cut(|p.entries|, keep);
      Vault(Some(NewLedger(p, cut, today, status)), Some(NewArchive(v.archive, p.entries[..cut])))
  }

  datatype CompressResult = CompressResult(archived: nat, remaining: nat, wrote: bool)

  class LedgerFiles {
    var ledger: Option<string>
    var archive: Option<string>

    constructor (ledger: Option<string>, archive: Option<string>)
      ensures View() == Vault(ledger, archive)
    {
      this.ledger, this.archive := ledger, archive;
    }

    ghost function View(): Vault
      reads this
    {
      Vault(ledger, archive)
    }

    method RunCompress(threshold: int, keep: int, today: string, status: StatusReader) returns (r: CompressResult)
      modifies this
      ensures View() == Compressed(old(View()), threshold, keep, today, status)
      ensures r.wrote <==> old(ledger).Some? && Triggers(old(ledger).value, threshold, keep)
      ensures old(ledger).Some? ==> r.archived + r.remaining == |Split(old(ledger).value).entries|
      ensures r.wrote && keep >= 1 ==> r.remaining == keep
      ensures r.wrote && keep <= 0 ==> r.archived == -keep || (r.remaining == 0 && r.archived < -keep)
      ensures !r.wrote ==> r.archived == 0
    {
      if ledger.None? { return CompressResult(0, 0, false); }
      var text := ledger.value;
      var lineCount := LineCount(text);
      var preamble, entries := SplitLedger(text);
      var count := |entries|;
      if lineCount <= threshold && count <= keep * 2 { return CompressResult(0, count, false); }
      if count <= keep { return CompressResult(0, count, false); }

      var cut := Cut(count, keep);
      var toArchive, toKeep := entries[..cut], entries[cut..];
      archive := Some(NewArchive(archive, toArchive));
      var summary := SummarizeEntries(toArchive, today, status);
      ledger := Some(preamble + summary + "\n" + Join(toKeep, "\n"));
      r := CompressResult(|toArchive|, |toKeep|, true);
    }
  }
}
