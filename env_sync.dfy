/** The `.env` generator: it copies `env.txt` to `.env`, keeping only the lines
    that hold a `KEY=value` setting and dropping blank lines and `#` comments. */
module EnvSync {
  import opened Text
  import opened Seqs

  /** The line test: the trimmed line is non-empty, does not start with `#`,
      and contains `=`. */
  predicate KeepLine(line: string) {
    var t := Trim(line);
    t != [] && !StartsWith(t, "#") && Contains(t, "=")
  }

  /** The lines of `env.txt` that survive, untrimmed and in their order. */
  function KeptLines(content: string): seq<string> {
    Filter(KeepLine, Split(content, "\n"))
  }

  /** The text written to `.env`: the kept lines joined by newlines. */
  function FilterEnv(content: string): string {
    Join(KeptLines(content), "\n")
  }

  /** The count printed after the write: the number of newline-separated
      pieces of the written text. */
  function ReportedCount(written: string): nat {
    |Split(written, "\n")|
  }

  /** What reading `env.txt` gives. */
  datatype EnvTxt = Missing | Unreadable | Present(content: string)

  /** How a sync ends: skipped (exit 0, nothing written), failed (exit 1), or
      synced, with the text written to `.env` and the count reported. */
  datatype SyncOutcome = Skipped | Failed | Synced(written: string, reported: nat)

  /** One run of the sync; `writeOk` is whether writing `.env` succeeds. */
  function SyncEnvFile(input: EnvTxt, writeOk: bool): (r: SyncOutcome)
    ensures r.Skipped? <==> input.Missing?
    ensures r.Synced? <==> input.Present? && writeOk
    ensures r.Synced? ==> r.written == FilterEnv(input.content) && r.reported == ReportedCount(r.written)
  {
    match input
    case Missing => Skipped
    case Unreadable => Failed
    case Present(content) =>
      if writeOk then
        var written := FilterEnv(content);
        Synced(written, ReportedCount(written))
      else Failed
  }

  /** The line test in terms of the line itself: it has a first non-whitespace
      character, that character is not `#`, and the line contains `=`. */
  lemma KeepLineIff(line: string)
    ensures KeepLine(line) <==>
      (exists k :: 0 <= k < |line| && !IsWhitespace(line[k]) && line[k] != '#'
                   && (forall j :: 0 <= j < k ==> IsWhitespace(line[j])))
      && '=' in line
  {
    var t := Trim(line);
    TrimFacts(line);
    ContainsChar(t, '=');
    assert "=" == ['='];
    assert !IsWhitespace('=');
    if t != [] {
      var k :| 0 <= k < |line| && t[0] == line[k] && !IsWhitespace(line[k])
               && forall j :: 0 <= j < k ==> IsWhitespace(line[j]);
      assert StartsWith(t, "#") <==> t[0] == '#';
      forall k' | 0 <= k' < |line| && !IsWhitespace(line[k'])
                  && (forall j :: 0 <= j < k' ==> IsWhitespace(line[j]))
        ensures line[k'] == t[0]
      {
        assert k' == k;
      }
    }
  }

  /** Kept lines are exactly the input lines passing the test, in input order. */
  lemma KeptLinesSpec(content: string)
    ensures forall l :: l in KeptLines(content) <==> l in Split(content, "\n") && KeepLine(l)
    ensures IsSubsequence(KeptLines(content), Split(content, "\n"))
  {
    FilterIsSubsequence(KeepLine, Split(content, "\n"));
  }

  /** No kept line contains a newline. */
  lemma KeptLinesNewlineFree(content: string)
    ensures forall i :: 0 <= i < |KeptLines(content)| ==> '\n' !in KeptLines(content)[i]
  {
    assert "\n" == ['\n'];
    SplitPiecesFree(content, '\n');
    var kept := KeptLines(content);
    forall i | 0 <= i < |kept| ensures '\n' !in kept[i] {
      assert kept[i] in Split(content, "\n");
    }
  }

  /** The lines of the written text are the kept lines; when nothing is kept
      the written text is empty, which still splits into one empty line. */
  lemma WrittenLines(content: string)
    ensures Split(FilterEnv(content), "\n") ==
            if KeptLines(content) == [] then [""] else KeptLines(content)
  {
    assert "\n" == ['\n'];
    var kept := KeptLines(content);
    if kept == [] {
      assert FilterEnv(content) == "";
      assert Split("", "\n") == [""];
    } else {
      KeptLinesNewlineFree(content);
      SplitJoin(kept, '\n');
    }
  }

  /** Filtering the written text again writes the same text. */
  lemma FilterEnvIdempotent(content: string)
    ensures FilterEnv(FilterEnv(content)) == FilterEnv(content)
  {
    var kept := KeptLines(content);
    WrittenLines(content);
    if kept == [] {
      assert !KeepLine("") by { assert Trim("") == ""; }
      assert KeptLines(FilterEnv(content)) == Filter(KeepLine, [""]);
      assert Filter(KeepLine, [""]) == Filter(KeepLine, [""][1..]);
    } else {
      FilterIdempotent(KeepLine, Split(content, "\n"));
    }
  }

  /** The reported count equals the number of kept lines, except that it is 1
      when no line is kept. */
  lemma ReportedCountQuirk(content: string)
    ensures ReportedCount(FilterEnv(content)) ==
            if |KeptLines(content)| == 0 then 1 else |KeptLines(content)|
  {
    WrittenLines(content);
  }

  /** An `env.txt` holding only a comment writes an empty `.env` and reports
      one variable. */
  lemma CommentOnlyReportsOne()
    ensures SyncEnvFile(Present("# comment"), true) == Synced("", 1)
  {
    var line := "# comment";
    assert '\n' !in line;
    SplitNoSeparator(line, '\n');
    assert "\n" == ['\n'];
    assert Trim(line) == line;
    assert StartsWith(line, "#");
    assert KeptLines(line) == Filter(KeepLine, [line]);
    assert Filter(KeepLine, [line]) == Filter(KeepLine, [line][1..]);
    WrittenLines(line);
  }
}
