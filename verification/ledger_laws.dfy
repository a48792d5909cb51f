/** What splitting and compressing a ledger conserve. */
module LedgerLaws {
  import opened Options
  import opened Text
  import opened Compressor

  // ---------------------------------------------------------------------------------------
  // Splitting loses nothing
  // ---------------------------------------------------------------------------------------

  function Flatten(entries: seq<string>): string {
    if entries == [] then "" else entries[0] + Flatten(entries[1..])
  }

  /** The preamble and the entries together are the text, character by character. */
  lemma {:induction false} SplitLosesNothing(t: string)
    ensures Split(t).preamble + Flatten(Split(t).entries) == t
    decreases |t|
  {
    if t != "" {
      var line, rest := t[..LineEnd(t)], t[LineEnd(t)..];
      SplitLosesNothing(rest);
      var p := Split(rest);
      if IsHeader(line) {
        assert ([line + p.preamble] + p.entries)[1..] == p.entries;
      }
      assert line + (p.preamble + Flatten(p.entries)) == (line + p.preamble) + Flatten(p.entries);
    }
  }

  // ---------------------------------------------------------------------------------------
  // Splitting and concatenation
  // ---------------------------------------------------------------------------------------

  ghost predicate Closed(t: string) {
    t == "" || t[|t| - 1] == '\n'
  }

  function Combine(x: Pieces, y: Pieces): Pieces {
    if x.entries == [] then Pieces(x.preamble + y.preamble, y.entries)
    else
      var n := |x.entries| - 1;
      Pieces(x.preamble, x.entries[..n] + [x.entries[n] + y.preamble] + y.entries)
  }

  lemma {:induction false} LineEndOfPrefix(a: string, b: string)
    requires a != "" && (a[LineEnd(a) - 1] == '\n' || b == "")
    ensures LineEnd(a + b) == LineEnd(a)
  {
    if b == "" {
      assert a + b == a;
    } else if a[0] != '\n' {
      assert (a + b)[1..] == a[1..] + b;
      LineEndOfPrefix(a[1..], b);
    }
  }

  lemma Associate(x: string, y: string, z: string)
    ensures (x + y) + z == x + (y + z)
  {
  }

  lemma Reassociate(a: string, n: nat, b: string)
    requires n <= |a|
    ensures a + b == a[..n] + (a[n..] + b)
  {
    assert a == a[..n] + a[n..];
    Associate(a[..n], a[n..], b);
  }

  /** A text up to the end of a line can be split on its own. */
  lemma {:induction false} SplitConcat(a: string, b: string)
    requires Closed(a)
    ensures Split(a + b) == Combine(Split(a), Split(b))
    decreases |a|
  {
    if a == "" {
      assert a + b == b;
    } else {
      var n := LineEnd(a);
      var line, rest := a[..n], a[n..];
      SplitConcat(rest, b);
      SplitLine(a, rest + b);
      Reassociate(a, n, b);
      CombineCons(line, Split(rest), Split(b));
    }
  }

  /** The first line of `t` put before another text is still a line, if it ends in a line feed or
      the other text is empty. */
  lemma SplitLine(t: string, p: string)
    requires t != "" && (p == "" || t[LineEnd(t) - 1] == '\n')
    ensures Split(t[..LineEnd(t)] + p) == Cons(t[..LineEnd(t)], Split(p))
  {
    var line := t[..LineEnd(t)];
    PrefixLineEnd(t, line);
    LineEndOfPrefix(line, p);
    assert (line + p)[..|line|] == line && (line + p)[|line|..] == p;
  }

  lemma CombineCons(line: string, x: Pieces, y: Pieces)
    ensures Combine(Cons(line, x), y) == Cons(line, Combine(x, y))
  {
    assert (line + x.preamble) + y.preamble == line + (x.preamble + y.preamble);
    if IsHeader(line) && x.entries != [] {
      var n := |x.entries| - 1;
      var c := [line + x.preamble] + x.entries;
      assert c[..n + 1] == [line + x.preamble] + x.entries[..n];
    }
  }

  /** Adding a line feed never opens or closes an entry. */
  lemma {:induction false} AppendNewline(t: string)
    ensures Split(t + "\n") == Combine(Split(t), Pieces("\n", []))
    decreases |t|
  {
    if t == "" {
      assert t + "\n" == "\n";
      OneLine("\n");
    } else {
      var n := LineEnd(t);
      var line, rest := t[..n], t[n..];
      if t[n - 1] == '\n' {
        AppendNewline(rest);
        SplitLine(t, rest + "\n");
        Reassociate(t, n, "\n");
        CombineCons(line, Split(rest), Pieces("\n", []));
      } else {
        OpenLine(t);
        OneLine(t + "\n");
        OneLine(t);
        CombineCons(t, Pieces("", []), Pieces("\n", []));
        HeaderNewline(t);
      }
    }
  }

  lemma HeaderNewline(t: string)
    requires '\n' !in t
    ensures Cons(t + "\n", Pieces("", [])) == Combine(Cons(t, Pieces("", [])), Pieces("\n", []))
  {
    assert |t| > 3 ==> t[3] in t;
    assert (t + "\n") + "" == t + "" + "\n";
  }

  lemma {:induction false} OpenLine(t: string)
    requires t != "" && t[LineEnd(t) - 1] != '\n'
    ensures LineEnd(t) == |t| && LineEnd(t + "\n") == |t| + 1 && '\n' !in t
  {
    if |t| > 1 {
      assert (t + "\n")[1..] == t[1..] + "\n";
      OpenLine(t[1..]);
    } else {
      assert (t + "\n")[1..] == "\n";
    }
  }

  lemma OneLine(t: string)
    requires t != "" && LineEnd(t) == |t|
    ensures Split(t) == Cons(t, Pieces("", []))
  {
    assert t[..|t|] == t && t[|t|..] == "";
  }

  // ---------------------------------------------------------------------------------------
  // Texts without header, and single entries
  // ---------------------------------------------------------------------------------------

  ghost predicate NoHeader(t: string) { Split(t).entries == [] }

  ghost predicate IsEntry(e: string) { Split(e) == Pieces("", [e]) }

  lemma NoHeaderIsPreamble(t: string)
    requires NoHeader(t)
    ensures Split(t) == Pieces(t, [])
  {
    SplitLosesNothing(t);
  }

  lemma EntryShape(e: string)
    ensures IsEntry(e) <==> e != "" && IsHeader(e[..LineEnd(e)]) && NoHeader(e[LineEnd(e)..])
  {
    if e != "" {
      var line, rest := e[..LineEnd(e)], e[LineEnd(e)..];
      if NoHeader(rest) { NoHeaderIsPreamble(rest); }
      assert line + rest == e;
    }
  }

  lemma {:induction false} PrefixLineEnd(t: string, q: string)
    requires q <= t && q != ""
    ensures LineEnd(q) == if |q| < LineEnd(t) then |q| else LineEnd(t)
  {
    if q[0] != '\n' && |q| > 1 {
      PrefixLineEnd(t[1..], q[1..]);
    }
  }

  /** Cutting a text short opens no entry. */
  lemma {:induction false} PrefixNoHeader(t: string, q: string)
    requires NoHeader(t) && q <= t
    ensures NoHeader(q)
    decreases |t|
  {
    if q != "" {
      PrefixLineEnd(t, q);
      var n := LineEnd(t);
      if |q| <= n {
        OneLine(q);
        assert IsHeader(q) ==> IsHeader(t[..n]);
      } else {
        assert q[..n] == t[..n] && q[n..] <= t[n..];
        PrefixNoHeader(t[n..], q[n..]);
      }
    }
  }

  lemma PrefixEntry(e: string, q: string)
    requires IsEntry(e) && q <= e && |q| >= 4
    ensures IsEntry(q)
  {
    EntryShape(e);
    EntryShape(q);
    PrefixLineEnd(e, q);
    var n := LineEnd(e);
    if |q| <= n {
      assert q[LineEnd(q)..] == "";
    } else {
      assert q[..n] == e[..n] && q[n..] <= e[n..];
      PrefixNoHeader(e[n..], q[n..]);
    }
  }

  lemma {:induction false} PreambleHasNoHeader(t: string)
    ensures NoHeader(Split(t).preamble)
    decreases |t|
  {
    if t != "" {
      var n := LineEnd(t);
      var line, rest := t[..n], t[n..];
      PreambleHasNoHeader(rest);
      if !IsHeader(line) {
        assert line[|line| - 1] == t[n - 1];
        SplitLine(t, Split(rest).preamble);
      }
    }
  }

  /** Every block a split returns is an entry of its own. */
  lemma {:induction false} EntriesAreEntries(t: string)
    ensures forall i :: 0 <= i < |Split(t).entries| ==> IsEntry(Split(t).entries[i])
    decreases |t|
  {
    if t != "" {
      var line, rest := t[..LineEnd(t)], t[LineEnd(t)..];
      EntriesAreEntries(rest);
      if IsHeader(line) {
        var p := Split(rest).preamble;
        PreambleHasNoHeader(rest);
        NoHeaderIsPreamble(p);
        SplitLine(t, p);
      }
    }
  }

  lemma {:induction false} PreambleIsClosed(t: string)
    requires Split(t).entries != []
    ensures Closed(Split(t).preamble)
    decreases |t|
  {
    var n := LineEnd(t);
    if !IsHeader(t[..n]) {
      PreambleIsClosed(t[n..]);
      assert n < |t|;
    }
  }

  /** The last entry can be taken off the end of the text. */
  lemma {:induction false} DropLast(t: string) returns (x: string, front: seq<string>, last: string)
    requires Split(t).entries != []
    ensures Split(t).entries == front + [last] && t == x + last
    ensures Closed(x) && Split(x) == Pieces(Split(t).preamble, front)
    decreases |t|
  {
    var n := LineEnd(t);
    var line, rest := t[..n], t[n..];
    if Split(rest).entries == [] {
      NoHeaderIsPreamble(rest);
      x, front, last := "", [], line + rest;
    } else {
      var y, fs;
      y, fs, last := DropLast(rest);
      x, front := line + y, Cons(line, Pieces(Split(rest).preamble, fs)).entries;
      DropLastAfter(t, y, fs, last);
    }
  }

  lemma DropLastAfter(t: string, y: string, fs: seq<string>, last: string)
    requires t != "" && LineEnd(t) < |t|
    requires var rest := t[LineEnd(t)..];
      Split(rest).entries == fs + [last] && rest == y + last && Closed(y)
        && Split(y) == Pieces(Split(rest).preamble, fs)
    ensures var line, rest := t[..LineEnd(t)], t[LineEnd(t)..];
      var front, x := Cons(line, Pieces(Split(rest).preamble, fs)).entries, line + y;
      && Split(t).entries == front + [last] && t == x + last
      && Closed(x) && Split(x) == Pieces(Split(t).preamble, front)
  {
    var line, rest := t[..LineEnd(t)], t[LineEnd(t)..];
    SplitLine(t, y);
    ConsFront(line, Split(rest).preamble, fs, last);
    assert t == line + rest;
    Associate(line, y, last);
    ClosedAfter(line, y);
  }

  lemma ClosedAfter(line: string, y: string)
    requires Closed(y) && (y == "" ==> Closed(line))
    ensures Closed(line + y)
  {
    if y == "" { assert line + y == line; }
  }

  lemma ConsFront(line: string, preamble: string, front: seq<string>, last: string)
    ensures Cons(line, Pieces(preamble, front + [last])).entries == Cons(line, Pieces(preamble, front)).entries + [last]
    ensures Cons(line, Pieces(preamble, front + [last])).preamble == Cons(line, Pieces(preamble, front)).preamble
  {
  }

  // ---------------------------------------------------------------------------------------
  // Entries up to trailing white space
  // ---------------------------------------------------------------------------------------

  function Trimmed(entries: seq<string>): (r: seq<string>)
    ensures |r| == |entries|
    ensures forall i :: 0 <= i < |r| ==> r[i] == RStrip(entries[i])
  {
    seq(|entries|, i requires 0 <= i < |entries| => RStrip(entries[i]))
  }

  lemma TrimmedConcat(a: seq<string>, b: seq<string>)
    ensures Trimmed(a + b) == Trimmed(a) + Trimmed(b)
  {
  }

  lemma RStripSnoc(t: string, c: char)
    ensures RStrip(t + [c]) == if IsSpace(c) then RStrip(t) else t + [c]
  {
    assert (t + [c])[..|t|] == t;
  }

  lemma {:induction false} RStripConcat(x: string, y: string)
    requires RStrip(y) != ""
    ensures RStrip(x + y) == x + RStrip(y)
  {
    var front, c := y[..|y| - 1], y[|y| - 1];
    assert y == front + [c];
    Associate(x, front, [c]);
    RStripSnoc(x + front, c);
    RStripSnoc(front, c);
    if IsSpace(c) { RStripConcat(x, front); }
  }

  lemma RStripTwice(t: string)
    ensures RStrip(RStrip(t)) == RStrip(t)
  {
  }

  /** A header line's text keeps its opening when trimmed, unless nothing but it is visible. */
  lemma TrimmedEntry(e: string)
    requires IsEntry(e)
    ensures RStrip(e) == "##" || (RStrip(e) != "" && IsEntry(RStrip(e)))
  {
    EntryShape(e);
    PrefixLineEnd(e, e[..LineEnd(e)]);
    var r := RStrip(e);
    assert IsHeader(e[..LineEnd(e)]);
    assert e[0] == '#' && e[1] == '#' && e[2] == ' ' && |e| >= 4;
    assert !IsSpace(e[0]) && !IsSpace(e[1]) && IsSpace(e[2]);
    assert |r| >= 2 && |r| != 3;
    if |r| == 2 {
      assert r == e[..2] == "##";
    } else {
      PrefixEntry(e, r);
    }
  }

  lemma NewlineEntry(e: string)
    requires IsEntry(e)
    ensures Split(e + "\n") == Pieces("", [e + "\n"])
  {
    AppendNewline(e);
  }

  /** Line feeds at the end of a text change its entries in trailing white space only. */
  lemma NewlineTrims(t: string)
    ensures Trimmed(Split(t + "\n").entries) == Trimmed(Split(t).entries)
    ensures Split(t).entries == [] ==> Split(t + "\n").entries == []
  {
    AppendNewline(t);
    var es := Split(t).entries;
    if es != [] {
      var front, last := es[..|es| - 1], es[|es| - 1];
      assert es == front + [last];
      assert Split(t + "\n").entries == front + [last + "\n"];
      LastNewlineTrims(front, last);
    }
  }

  lemma LastNewlineTrims(front: seq<string>, last: string)
    ensures Trimmed(front + [last + "\n"]) == Trimmed(front + [last])
  {
    RStripSnoc(last, '\n');
    TrimmedConcat(front, [last]);
    TrimmedConcat(front, [last + "\n"]);
  }

  // ---------------------------------------------------------------------------------------
  // Entries joined by line feeds
  // ---------------------------------------------------------------------------------------

  function Spaced(entries: seq<string>): seq<string> {
    if |entries| <= 1 then entries else [entries[0] + "\n"] + Spaced(entries[1..])
  }

  lemma {:induction false} SpacedTrims(entries: seq<string>)
    ensures Trimmed(Spaced(entries)) == Trimmed(entries)
  {
    if |entries| > 1 {
      SpacedTrims(entries[1..]);
      RStripSnoc(entries[0], '\n');
      TrimmedConcat([entries[0] + "\n"], Spaced(entries[1..]));
      assert entries == [entries[0]] + entries[1..];
    }
  }

  ghost predicate AllEntries(entries: seq<string>) {
    forall i :: 0 <= i < |entries| ==> IsEntry(entries[i])
  }

  /** Joining entries and splitting again gives the entries, spaced out. */
  lemma {:induction false} JoinSplits(entries: seq<string>)
    requires AllEntries(entries)
    ensures Split(Join(entries, "\n")) == Pieces("", Spaced(entries))
  {
    if |entries| > 1 {
      var e, rest := entries[0], entries[1..];
      JoinSplits(rest);
      NewlineEntry(e);
      SplitConcat(e + "\n", Join(rest, "\n"));
      CombineClosed("", [e + "\n"], Pieces("", Spaced(rest)));
    }
  }

  lemma CombineClosed(preamble: string, entries: seq<string>, y: Pieces)
    requires y.preamble == ""
    ensures Combine(Pieces(preamble, entries), y) == Pieces(preamble, entries + y.entries)
  {
    assert preamble + "" == preamble;
    if entries != [] {
      var n := |entries| - 1;
      assert entries[n] + "" == entries[n];
      assert entries[..n] + [entries[n]] == entries;
    }
  }

  // ---------------------------------------------------------------------------------------
  // The archive
  // ---------------------------------------------------------------------------------------

  /** The last entry shows nothing but the two hashes of its header line. */
  ghost predicate EndsInBareHeader(t: string) {
    Split(t).entries != [] && RStrip(Split(t).entries[|Split(t).entries| - 1]) == "##"
  }

  /** Trimming the archive keeps its entries, unless the last one shows nothing but "##". */
  lemma TrimmedArchive(t: string)
    requires !EndsInBareHeader(t)
    ensures Trimmed(Split(RStrip(t)).entries) == Trimmed(Split(t).entries)
  {
    if Split(t).entries == [] {
      NoHeaderIsPreamble(t);
      PrefixNoHeader(t, RStrip(t));
    } else {
      var x, front, last := DropLast(t);
      LastIsEntry(t, front, last);
      TrimmedEntry(last);
      RStripConcat(x, last);
      TrimmedLast(x, front, last);
    }
  }

  lemma TrimmedLast(x: string, front: seq<string>, last: string)
    requires Closed(x) && Split(x).entries == front && IsEntry(RStrip(last))
    ensures Trimmed(Split(x + RStrip(last)).entries) == Trimmed(front + [last])
  {
    var r := RStrip(last);
    SplitConcat(x, r);
    CombineClosed(Split(x).preamble, front, Pieces("", [r]));
    RStripTwice(last);
    TrimmedConcat(front, [last]);
    TrimmedConcat(front, [r]);
  }

  lemma LastIsEntry(t: string, front: seq<string>, last: string)
    requires Split(t).entries == front + [last]
    ensures IsEntry(last)
  {
    EntriesAreEntries(t);
    assert last == Split(t).entries[|front|];
  }

  /** A last entry that shows nothing but "##" stops being one. */
  lemma BareHeaderIsLost(t: string)
    requires EndsInBareHeader(t)
    ensures |Split(RStrip(t)).entries| == |Split(t).entries| - 1
  {
    var x, front, last := DropLast(t);
    RStripConcat(x, last);
    SplitConcat(x, "##");
    HashesAreNoHeader();
  }

  lemma HashesAreNoHeader()
    ensures Split("##") == Pieces("##", [])
  {
    assert LineEnd("##") == 2;
    OneLine("##");
  }

  /** What the archive shows after a run, given what its trimmed text showed before. */
  lemma ArchiveEntries(existing: string, older: seq<string>)
    requires AllEntries(older)
    ensures Trimmed(Split(NewArchive(Some(existing), older)).entries)
      == Trimmed(Split(RStrip(existing)).entries) + Trimmed(older)
  {
    var base := RStrip(existing);
    NewlineTrims(base);
    NewlineTrims(base + "\n");
    Associate(base, "\n", "\n");
    assert "\n" + "\n" == "\n\n";
    AppendJoined(base + "\n\n", older);
  }

  /** Entries joined behind a closed text are added to its entries. */
  lemma AppendJoined(t: string, entries: seq<string>)
    requires Closed(t) && AllEntries(entries)
    ensures Split(t + Join(entries, "\n")) == Pieces(Split(t).preamble, Split(t).entries + Spaced(entries))
    ensures Trimmed(Split(t + Join(entries, "\n")).entries) == Trimmed(Split(t).entries) + Trimmed(entries)
  {
    JoinSplits(entries);
    SplitConcat(t, Join(entries, "\n"));
    CombineClosed(Split(t).preamble, Split(t).entries, Pieces("", Spaced(entries)));
    SpacedTrims(entries);
    TrimmedConcat(Split(t).entries, Spaced(entries));
  }

  ghost predicate PlainLine(line: string) {
    '\n' !in line && (line == "" || line[0] != '#')
  }

  lemma {:induction false} LineEndAtBreak(line: string, rest: string)
    requires '\n' !in line
    ensures LineEnd(line) == |line| && LineEnd(line + "\n" + rest) == |line| + 1
  {
    if line == "" {
      assert line + "\n" + rest == "\n" + rest;
    } else {
      assert line == [line[0]] + line[1..];
      assert (line + "\n" + rest)[1..] == line[1..] + "\n" + rest;
      LineEndAtBreak(line[1..], rest);
    }
  }

  /** A line, a line feed and a text split like the line in front of the text. */
  lemma SplitLineBreak(line: string, rest: string)
    requires '\n' !in line
    ensures Split(line + "\n" + rest) == Cons(line + "\n", Split(rest))
  {
    LineEndAtBreak(line, rest);
    var t := line + "\n" + rest;
    assert t[..|line| + 1] == line + "\n" && t[|line| + 1..] == rest;
  }

  ghost predicate AllPlain(lines: seq<string>) {
    forall i :: 0 <= i < |lines| ==> PlainLine(lines[i])
  }

  lemma {:induction false} PlainLinesHaveNoHeader(lines: seq<string>)
    requires AllPlain(lines)
    ensures NoHeader(Join(lines, "\n"))
  {
    if |lines| == 1 {
      if lines[0] != "" {
        LineEndAtBreak(lines[0], "");
        OneLine(lines[0]);
      }
    } else if |lines| > 1 {
      PlainLinesHaveNoHeader(lines[1..]);
      SplitLineBreak(lines[0], Join(lines[1..], "\n"));
    }
  }

  lemma NewArchiveFromNothing(older: seq<string>)
    requires AllEntries(older)
    ensures Trimmed(Split(NewArchive(None, older)).entries) == Trimmed(older)
  {
    ArchiveHeaderHasNoEntry();
    AppendJoined(ARCHIVE_HEADER, older);
    assert Trimmed([]) + Trimmed(older) == Trimmed(older);
  }

  lemma ArchiveHeaderHasNoEntry()
    ensures NoHeader(ARCHIVE_HEADER) && Closed(ARCHIVE_HEADER)
  {
    assert AllPlain(["", ARCHIVE_NOTE, "", ""]) by { NoteIsPlain(); }
    PlainLinesHaveNoHeader(["", ARCHIVE_NOTE, "", ""]);
    TitledHasNoHeader(ARCHIVE_TITLE, ["", ARCHIVE_NOTE, "", ""]);
    JoinClosed([ARCHIVE_TITLE, "", ARCHIVE_NOTE, "", ""]);
  }

  lemma {:induction false} JoinClosed(lines: seq<string>)
    requires |lines| >= 2 && lines[|lines| - 1] == ""
    ensures Closed(Join(lines, "\n"))
  {
    if |lines| > 2 { JoinClosed(lines[1..]); }
  }

  lemma NoteIsPlain()
    ensures PlainLine(ARCHIVE_NOTE)
  {
  }

  lemma TitledHasNoHeader(title: string, lines: seq<string>)
    requires '\n' !in title && !IsHeader(title + "\n") && lines != [] && NoHeader(Join(lines, "\n"))
    ensures NoHeader(Join([title] + lines, "\n"))
  {
    assert ([title] + lines)[1..] == lines;
    SplitLineBreak(title, Join(lines, "\n"));
  }

  // ---------------------------------------------------------------------------------------
  // The ledger
  // ---------------------------------------------------------------------------------------

  lemma {:induction false} FirstLineIsOneLine(e: string)
    ensures '\n' !in FirstLine(e)
  {
    if e != "" && e[0] != '\n' {
      FirstLineIsOneLine(e[1..]);
      assert FirstLine(e) == [e[0]] + FirstLine(e[1..]);
    }
  }

  lemma {:induction false} LStripKeeps(t: string, c: char)
    requires c !in t
    ensures c !in LStrip(t)
  {
    if t != "" && IsSpace(t[0]) { LStripKeeps(t[1..], c); }
  }

  lemma BulletIsPlain(e: string, status: StatusReader)
    requires SingleLine(status)
    ensures PlainLine(BulletWith(status)(e))
  {
    FirstLineIsOneLine(e);
    LStripKeeps(RStrip(FirstLine(e)), '\n');
  }

  lemma BulletsArePlain(entries: seq<string>, bullet: string -> string)
    requires forall e :: PlainLine(bullet(e))
    ensures AllPlain(Bullets(entries, bullet))
  {
    forall i | 0 <= i < |entries| ensures PlainLine(Bullets(entries, bullet)[i]) {
      assert PlainLine(bullet(entries[i]));
    }
  }

  lemma DateLineIsPlain(count: nat, today: string)
    requires '\n' !in today
    ensures AllPlain(SummaryHead(count, today)[1..])
  {
    var line := "*Archived on " + today + "*";
    assert line[0] == '*';
    assert '\n' !in "*Archived on ";
    assert SummaryHead(count, today)[1..] == ["", line, ""];
  }

  /** A title that is a header, followed by plain lines, is one entry. */
  lemma TitledIsEntry(title: string, lines: seq<string>)
    requires '\n' !in title && IsHeader(title + "\n") && AllPlain(lines) && lines != []
    ensures IsEntry(Join([title] + lines, "\n"))
  {
    assert ([title] + lines)[1..] == lines;
    PlainLinesHaveNoHeader(lines);
    SplitLineBreak(title, Join(lines, "\n"));
    NoHeaderIsPreamble(Join(lines, "\n"));
  }

  /** The summary is one entry. */
  lemma SummaryIsEntry(entries: seq<string>, today: string, status: StatusReader)
    requires entries != [] && '\n' !in today && SingleLine(status)
    ensures IsEntry(Summary(entries, today, status))
  {
    forall e ensures PlainLine(BulletWith(status)(e)) { BulletIsPlain(e, status); }
    BulletsArePlain(entries, BulletWith(status));
    DateLineIsPlain(|entries|, today);
    SummaryTitle(|entries|, today);
    JoinedIsEntry(SummaryHead(|entries|, today), Bullets(entries, BulletWith(status)));
  }

  lemma JoinedIsEntry(head: seq<string>, bullets: seq<string>)
    requires head != [] && AllPlain(head[1..]) && AllPlain(bullets)
    requires '\n' !in head[0] && IsHeader(head[0] + "\n")
    ensures IsEntry(Join(head + bullets + [""], "\n"))
  {
    assert head + bullets + [""] == [head[0]] + (head[1..] + bullets + [""]);
    TitledIsEntry(head[0], head[1..] + bullets + [""]);
  }

  lemma SummaryTitle(count: nat, today: string)
    ensures '\n' !in SummaryHead(count, today)[0] && IsHeader(SummaryHead(count, today)[0] + "\n")
  {
    var digits := Decimal(count);
    assert '\n' !in digits by {
      forall i | 0 <= i < |digits| ensures digits[i] != '\n' { assert IsDigit(digits[i]); }
    }
  }

  // ---------------------------------------------------------------------------------------
  // When a run archives
  // ---------------------------------------------------------------------------------------

  /** With a window of at least one a run archives when the entries exceed twice the window, whatever
      the lines, and when the lines exceed the threshold and the entries the window, and not
      otherwise. */
  lemma ArchivesIff(ledger: string, threshold: int, keep: int)
    requires keep >= 1
    ensures var entries := |Split(ledger).entries|;
      && (entries > 2 * keep ==> Triggers(ledger, threshold, keep))
      && (LineCount(ledger) > threshold && entries > keep ==> Triggers(ledger, threshold, keep))
      && (entries <= keep ==> !Triggers(ledger, threshold, keep))
      && (LineCount(ledger) <= threshold && entries <= 2 * keep ==> !Triggers(ledger, threshold, keep))
  {
  }

  ghost predicate NoBreak(s: string) { forall i :: 0 <= i < |s| ==> !BreaksLine(s[i]) }

  function Lines(lines: seq<string>): string {
    if lines == [] then "" else lines[0] + "\n" + Lines(lines[1..])
  }

  lemma {:induction false} CountRest(s: string, rest: string, open: bool)
    requires NoBreak(s) && s != ""
    ensures LineCount(s + rest, open) == LineCount(rest, true)
  {
    assert (s + rest)[1..] == s[1..] + rest;
    assert !BreaksLine(s[0]);
    if |s| > 1 { CountRest(s[1..], rest, true); } else { assert s[1..] + rest == rest; }
  }

  /** Lines are counted by their breaks, and a last one without break counts too. */
  lemma {:induction false} LinesAreCounted(lines: seq<string>, last: string)
    requires NoBreak(last) && forall i :: 0 <= i < |lines| ==> NoBreak(lines[i])
    ensures LineCount(Lines(lines) + last) == |lines| + (if last == "" then 0 else 1)
  {
    if lines == [] {
      assert "" + last == last && last + "" == last;
      if last != "" { CountRest(last, "", false); }
    } else {
      var rest := Lines(lines[1..]) + last;
      LinesAreCounted(lines[1..], last);
      assert Lines(lines) + last == lines[0] + ("\n" + rest) && ("\n" + rest)[1..] == rest;
      if lines[0] == "" { assert "" + ("\n" + rest) == "\n" + rest; } else { CountRest(lines[0], "\n" + rest, false); }
    }
  }

  /** What ends a line: a line feed, a carriage return or both, and eight rarer characters. */
  predicate IsBreak(b: string) {
    || b == "\r\n" || b == "\n" || b == "\r"
    || (|b| == 1 && (b[0] as int) in {0x0B, 0x0C, 0x1C, 0x1D, 0x1E, 0x85, 0x2028, 0x2029})
  }

  /** Texts that count alike do so behind any text that does not end in a carriage return. */
  lemma {:induction false} CountBehind(x: string, p: string, q: string, open: bool)
    requires x == "" || x[|x| - 1] != '\r'
    requires forall o :: LineCount(p, o) == LineCount(q, o)
    ensures LineCount(x + p, open) == LineCount(x + q, open)
    decreases |x|
  {
    var s, t := x + p, x + q;
    if x == "" {
      assert s == p && t == q;
    } else if |x| >= 2 && x[0] == '\r' && x[1] == '\n' {
      assert s[2..] == x[2..] + p && t[2..] == x[2..] + q;
      CountBehind(x[2..], p, q, false);
    } else {
      assert s[1..] == x[1..] + p && t[1..] == x[1..] + q;
      assert |x| >= 2 ==> s[1] == x[1] && t[1] == x[1];
      CountBehind(x[1..], p, q, !BreaksLine(x[0]));
    }
  }

  lemma CountAtBreak(b: string, y: string, open: bool)
    requires IsBreak(b) && (b == "\r" ==> y == "" || y[0] != '\n')
    ensures LineCount(b + y, open) == 1 + LineCount(y, false)
  {
    assert (b + y)[|b|..] == y;
    if b == "\r" && y != "" { assert (b + y)[1] == y[0]; }
  }

  /** Each of them counts as one line feed does, unless a carriage return and a line feed meet at it. */
  lemma BreaksCountAlike(x: string, b: string, y: string)
    requires IsBreak(b) && (x == "" || x[|x| - 1] != '\r') && (b == "\r" ==> y == "" || y[0] != '\n')
    ensures LineCount(x + (b + y)) == LineCount(x + ("\n" + y))
  {
    forall o ensures LineCount(b + y, o) == LineCount("\n" + y, o) {
      CountAtBreak(b, y, o);
      CountAtBreak("\n", y, o);
    }
    CountBehind(x, b + y, "\n" + y, false);
  }
}
