/** The keyword stage (filter_jsonl in regex_based_cleaning.py): a single
    pass over the lines of a JSONL file that keeps the records whose stripped
    "text" matches the keyword pattern. Blank lines and lines that do not
    decode are skipped; any other error inside the loop escapes it, so the
    pass stops at that line. The pattern itself is the abstract predicate
    `matches`, standing for DEPRESSION_REGEX.search. */
module KeywordStage {
  import opened Wrappers
  import opened Text
  import opened Paths
  import opened Json
  import opened Streams

  const TEXT_KEY := "text"
  const SUFFIX := "_regex_cleaned.jsonl"

  /** What the loop body does with one line. */
  datatype Step =
    | Blank                      // empty after stripping: skipped, not counted
    | Undecodable                // JSONDecodeError: skipped, not counted
    | Aborts                     // any other error: leaves the loop
    | Scanned(kept: Option<Json>) // counted; Some(record) when it is written

  /** The run as a whole: the records written (in order), the two counters,
      and whether the loop reached the end of the file. */
  datatype KeywordRun = KeywordRun(records: seq<Json>, total: nat, kept: nat, completed: bool)

  /** `data.get('text', '').strip()` succeeds: the value is a dict whose
      "text", if present, is a string. */
  predicate HasTextString(v: Json) {
    v.JObj? && StrField(v.fields, TEXT_KEY).Some?
  }

  /** The keep condition: a non-empty stripped text that the pattern matches. */
  predicate Keeps(v: Json, matches: string -> bool)
    requires HasTextString(v)
    ensures Keeps(v, matches) <==>
      exists t :: StripOf(StrField(v.fields, TEXT_KEY).value, t) && |t| > 0 && matches(t)
  {
    var raw := StrField(v.fields, TEXT_KEY).value;
    assert StripOf(raw, Strip(raw)) && forall t :: StripOf(raw, t) ==> t == Strip(raw) by {
      StripCharacterised(raw, Strip(raw));
      forall t | StripOf(raw, t) ensures t == Strip(raw) {
        StripCharacterised(raw, t);
      }
    }
    var t := Strip(raw);
    |t| > 0 && matches(t)
  }

  /** One iteration of the loop over the input file. */
  function ScanLine(line: string, parse: string -> Option<Json>, matches: string -> bool): (st: Step)
    ensures st.Blank? <==> AllSpace(line)
    ensures st.Undecodable? <==> !AllSpace(line) && parse(Strip(line)).None?
    ensures st.Aborts? <==> !AllSpace(line) && parse(Strip(line)).Some? && !HasTextString(parse(Strip(line)).value)
    ensures st.Scanned? ==> parse(Strip(line)).Some? && HasTextString(parse(Strip(line)).value)
    ensures st.Scanned? && st.kept.Some? ==> parse(Strip(line)) == st.kept
    ensures st.Scanned? ==> (st.kept.Some? <==> Keeps(parse(Strip(line)).value, matches))
  {
    var line := Strip(line);
    if |line| == 0 then Blank
    else match parse(line)
      case None => Undecodable
      case Some(data) =>
        if !HasTextString(data) then Aborts
        else Scanned(if Keeps(data, matches) then Some(data) else None)
  }

  /** The loop body as a function value, for the generic loop below. */
  function Scanner(parse: string -> Option<Json>, matches: string -> bool): (scan: string -> Step)
    ensures forall line :: scan(line) == ScanLine(line, parse, matches)
  {
    line => ScanLine(line, parse, matches)
  }

  /** The step for each line, in file order. */
  function Scans(lines: seq<string>, scan: string -> Step): (sts: seq<Step>)
    ensures |sts| == |lines|
  {
    if |lines| == 0 then []
    else Scans(lines[..|lines| - 1], scan) + [scan(lines[|lines| - 1])]
  }

  lemma {:induction false} ScansAt(lines: seq<string>, scan: string -> Step, i: nat)
    requires i < |lines|
    ensures Scans(lines, scan)[i] == scan(lines[i])
    decreases |lines|
  {
    if i < |lines| - 1 {
      ScansAt(lines[..|lines| - 1], scan, i);
    }
  }

  lemma ScansStep(lines: seq<string>, scan: string -> Step, i: nat)
    requires i < |lines|
    ensures Scans(lines[..i + 1], scan) == Scans(lines[..i], scan) + [scan(lines[i])]
  {
    assert lines[..i + 1][..i] == lines[..i];
  }

  lemma {:induction false} ScansAppend(a: seq<string>, b: seq<string>, scan: string -> Step)
    ensures Scans(a + b, scan) == Scans(a, scan) + Scans(b, scan)
    decreases |b|
  {
    if |b| == 0 {
      assert a + b == a;
    } else {
      assert (a + b)[..|a + b| - 1] == a + b[..|b| - 1];
      ScansAppend(a, b[..|b| - 1], scan);
    }
  }

  /** The position of the first aborting line, or |sts| when none aborts. */
  function FirstAbort(sts: seq<Step>): (n: nat)
    ensures n <= |sts|
    ensures forall k :: 0 <= k < n ==> !sts[k].Aborts?
    ensures n < |sts| ==> sts[n].Aborts?
    decreases |sts|
  {
    if |sts| == 0 then 0
    else if sts[0].Aborts? then 0
    else 1 + FirstAbort(sts[1..])
  }

  function Output(st: Step): Option<Json> {
    if st.Scanned? then st.kept else None
  }

  function Outputs(sts: seq<Step>): (os: seq<Option<Json>>)
    ensures |os| == |sts|
    ensures forall k :: 0 <= k < |sts| ==> os[k] == Output(sts[k])
  {
    seq(|sts|, k requires 0 <= k < |sts| => Output(sts[k]))
  }

  function Counted(sts: seq<Step>): (cs: seq<bool>)
    ensures |cs| == |sts|
    ensures forall k :: 0 <= k < |sts| ==> cs[k] == sts[k].Scanned?
  {
    seq(|sts|, k requires 0 <= k < |sts| => sts[k].Scanned?)
  }

  /** The outcome of a run, read off the whole sequence of steps: everything
      before the first aborting line is processed, nothing from it on. The
      records are the kept outputs in order and `total` counts the lines
      that decoded to a record with a string text. */
  function Run(sts: seq<Step>): (run: KeywordRun)
    ensures run.kept == |run.records| <= run.total <= |sts|
    ensures run.completed <==> forall k :: 0 <= k < |sts| ==> !sts[k].Aborts?
  {
    var n := FirstAbort(sts);
    var outs := Outputs(sts[..n]);
    var counted := Counted(sts[..n]);
    SomesWithinCount(outs, counted);
    KeywordRun(Somes(outs), CountTrue(counted), |Somes(outs)|, n == |sts|)
  }

  /** After a completed prefix, one more line changes the run exactly as the
      loop body says: skipped lines change nothing, a decoded line adds one
      to `total` and its record (if kept) to the output, an abort stops. */
  lemma RunExtend(x: seq<Step>, st: Step)
    requires Run(x).completed
    ensures Run(x + [st]).records == Run(x).records + (if Output(st).Some? then [Output(st).value] else [])
    ensures Run(x + [st]).total == Run(x).total + (if st.Scanned? then 1 else 0)
    ensures Run(x + [st]).completed == !st.Aborts?
  {
    if st.Aborts? {
      RunExtendAbort(x, st);
    } else {
      RunExtendGoesOn(x, st);
    }
  }

  /** An aborting line after a completed prefix leaves records and counts as
      they were and stops the run. */
  lemma RunExtendAbort(x: seq<Step>, st: Step)
    requires Run(x).completed && st.Aborts?
    ensures Run(x + [st]) == Run(x).(completed := false)
  {
    var y := x + [st];
    assert FirstAbort(x) == |x| && x[..|x|] == x;
    assert forall k :: 0 <= k < |x| ==> y[k] == x[k] && !y[k].Aborts?;
    assert y[|x|].Aborts?;
    assert FirstAbort(y) == |x|;
    assert y[..|x|] == x;
  }

  /** Any other line after a completed prefix adds its record and count. */
  lemma RunExtendGoesOn(x: seq<Step>, st: Step)
    requires Run(x).completed && !st.Aborts?
    ensures Run(x + [st]).records == Run(x).records + (if Output(st).Some? then [Output(st).value] else [])
    ensures Run(x + [st]).total == Run(x).total + (if st.Scanned? then 1 else 0)
    ensures Run(x + [st]).completed
  {
    var y := x + [st];
    assert FirstAbort(x) == |x| && x[..|x|] == x;
    FirstAbortAfter(x, [st]);
    assert FirstAbort(y) == |y| && y[..|y|] == y;
    OutputsAppend(x, [st]);
    SomesAppend(Outputs(x), Outputs([st]));
    CountTrueAppend(Counted(x), Counted([st]));
    assert Somes(Outputs([st])) == if st.Scanned? && st.kept.Some? then [st.kept.value] else [];
    assert CountTrue(Counted([st])) == if st.Scanned? then 1 else 0;
  }

  /** Once a line aborts, nothing after it changes the run. */
  lemma AbortIsFinal(x: seq<Step>, y: seq<Step>)
    requires !Run(x).completed
    ensures Run(x + y) == Run(x)
  {
    var n := FirstAbort(x);
    assert (x + y)[n] == x[n];
    assert forall k :: 0 <= k < n ==> (x + y)[k] == x[k];
    assert FirstAbort(x + y) == n;
    assert (x + y)[..n] == x[..n];
  }

  /** A blank or undecodable line can be removed from anywhere in the file
      without changing anything the stage writes or counts. */
  lemma SkippedLineInvisible(x: seq<Step>, st: Step, y: seq<Step>)
    requires st.Blank? || st.Undecodable?
    ensures Run(x + [st] + y) == Run(x + y)
  {
    if Run(x).completed {
      RunExtend(x, st);
      assert Run(x + [st]) == Run(x);
      RunAppend(x + [st], y);
      RunAppend(x, y);
    } else {
      assert x + [st] + y == x + ([st] + y);
      AbortIsFinal(x, [st] + y);
      AbortIsFinal(x, y);
    }
  }

  /** A file can be processed in two parts: after a part that completes,
      the run of the rest adds its records and counts. */
  lemma RunAppend(x: seq<Step>, y: seq<Step>)
    requires Run(x).completed
    ensures Run(x + y).records == Run(x).records + Run(y).records
    ensures Run(x + y).total == Run(x).total + Run(y).total
    ensures Run(x + y).completed == Run(y).completed
  {
    var m := FirstAbort(y);
    FirstAbortAfter(x, y);
    assert FirstAbort(x) == |x| && x[..|x|] == x;
    assert (x + y)[..|x| + m] == x + y[..m];
    OutputsAppend(x, y[..m]);
    SomesAppend(Outputs(x), Outputs(y[..m]));
    CountTrueAppend(Counted(x), Counted(y[..m]));
  }

  /** Past a prefix with no abort, the first abort is found in the rest. */
  lemma {:induction false} FirstAbortAfter(x: seq<Step>, y: seq<Step>)
    requires FirstAbort(x) == |x|
    ensures FirstAbort(x + y) == |x| + FirstAbort(y)
    decreases |x|
  {
    if |x| > 0 {
      assert (x + y)[0] == x[0];
      assert (x + y)[1..] == x[1..] + y;
      FirstAbortAfter(x[1..], y);
    } else {
      assert x + y == y;
    }
  }

  lemma OutputsAppend(a: seq<Step>, b: seq<Step>)
    ensures Outputs(a + b) == Outputs(a) + Outputs(b)
    ensures Counted(a + b) == Counted(a) + Counted(b)
  {
  }

  /** filter_jsonl: the loop over the input file, with ScanLine as the
      per-line body and the counters and output file kept here. An aborting
      line ends the loop early, as the exception escaping it does. */
  method FilterJsonl(input: string, lines: seq<string>, parse: string -> Option<Json>, matches: string -> bool)
    returns (outputPath: string, run: KeywordRun)
    ensures outputPath == OutputName(input)
    ensures run == Run(Scans(lines, Scanner(parse, matches)))
  {
    outputPath := OutputName(input);
    run := ScanFile(lines, Scanner(parse, matches));
  }

  /** The `for line in infile` loop. */
  method ScanFile(lines: seq<string>, scan: string -> Step)
    returns (run: KeywordRun)
    ensures run == Run(Scans(lines, scan))
  {
    var records: seq<Json> := [];
    var total: nat, kept: nat := 0, 0;
    var i := 0;
    while i < |lines|
      invariant 0 <= i <= |lines|
      invariant Run(Scans(lines[..i], scan)).completed
      invariant records == Run(Scans(lines[..i], scan)).records
      invariant total == Run(Scans(lines[..i], scan)).total
      invariant kept == |records|
    {
      var st := scan(lines[i]);
      NextLine(lines, scan, i);
      match st {
        case Blank =>
        case Undecodable =>
        case Aborts =>
          return KeywordRun(records, total, kept, false);
        case Scanned(out) =>
          total := total + 1;
          if out.Some? {
            records := records + [out.value];
            kept := kept + 1;
          }
      }
      i := i + 1;
    }
    assert lines[..i] == lines;
    run := KeywordRun(records, total, kept, true);
  }

  /** One more line of a file whose lines so far all completed: its step
      extends the run as RunExtend says, and an aborting line fixes the
      outcome of the whole file. */
  lemma NextLine(lines: seq<string>, scan: string -> Step, i: nat)
    requires i < |lines|
    requires Run(Scans(lines[..i], scan)).completed
    ensures
      var st, before, after := scan(lines[i]), Run(Scans(lines[..i], scan)), Run(Scans(lines[..i + 1], scan));
      && after.records == before.records + (if Output(st).Some? then [Output(st).value] else [])
      && after.total == before.total + (if st.Scanned? then 1 else 0)
      && after.completed == !st.Aborts?
      && (st.Aborts? ==> Run(Scans(lines, scan)) == after)
  {
    ScansStep(lines, scan, i);
    RunExtend(Scans(lines[..i], scan), scan(lines[i]));
    if scan(lines[i]).Aborts? {
      AbortingLine(lines, scan, i);
    }
  }

  lemma AbortingLine(lines: seq<string>, scan: string -> Step, i: nat)
    requires i < |lines|
    requires !Run(Scans(lines[..i + 1], scan)).completed
    ensures Run(Scans(lines, scan)) == Run(Scans(lines[..i + 1], scan))
  {
    var x, y := Scans(lines[..i + 1], scan), Scans(lines[i + 1..], scan);
    ScansAppend(lines[..i + 1], lines[i + 1..], scan);
    SplitAt(lines, i + 1);
    AbortIsFinal(x, y);
  }

  /** A line that is blank after stripping, or that does not decode, can be
      inserted anywhere in the file without changing the records written or
      either counter. */
  lemma SkippedLineChangesNothing(a: seq<string>, line: string, c: seq<string>, parse: string -> Option<Json>, matches: string -> bool)
    requires AllSpace(line) || parse(Strip(line)).None?
    ensures Run(Scans(a + [line] + c, Scanner(parse, matches))) == Run(Scans(a + c, Scanner(parse, matches)))
  {
    var scan := Scanner(parse, matches);
    ScansAppend(a + [line], c, scan);
    ScansAppend(a, [line], scan);
    ScansAppend(a, c, scan);
    assert Scans([line], scan) == [scan(line)];
    SkippedLineInvisible(Scans(a, scan), scan(line), Scans(c, scan));
  }

  /** The run completes exactly when no line raises anything but a decode
      error: every non-blank line that decodes is a dict whose "text", if
      present, is a string. */
  lemma CompletesIffNoError(lines: seq<string>, parse: string -> Option<Json>, matches: string -> bool)
    ensures Run(Scans(lines, Scanner(parse, matches))).completed <==>
      forall i :: 0 <= i < |lines| ==>
        AllSpace(lines[i]) || parse(Strip(lines[i])).None? || HasTextString(parse(Strip(lines[i])).value)
  {
    var scan := Scanner(parse, matches);
    var sts := Scans(lines, scan);
    forall i | 0 <= i < |lines| ensures sts[i] == ScanLine(lines[i], parse, matches) {
      ScansAt(lines, scan, i);
    }
  }

  /** `idx` lists, in increasing order, the lines that produced the records:
      line idx[k] decoded to exactly records[k], and that record's stripped
      text is non-empty and matches. */
  ghost predicate Selected(lines: seq<string>, records: seq<Json>, idx: seq<nat>, parse: string -> Option<Json>, matches: string -> bool) {
    && |idx| == |records|
    && (forall k :: 0 <= k < |idx| ==> idx[k] < |lines|)
    && (forall k, l :: 0 <= k < l < |idx| ==> idx[k] < idx[l])
    && (forall k :: 0 <= k < |idx| ==>
          && parse(Strip(lines[idx[k]])) == Some(records[k])
          && HasTextString(records[k]) && Keeps(records[k], matches))
  }

  /** At the level of steps: the records are the kept outputs of the steps
      before the first abort, in order, one per step. */
  lemma RunSelects(sts: seq<Step>)
    ensures
      var n := FirstAbort(sts);
      var idx, recs := SomeIndices(Outputs(sts[..n])), Run(sts).records;
      && |idx| == |recs|
      && (forall k :: 0 <= k < |idx| ==> idx[k] < n && sts[idx[k]] == Scanned(Some(recs[k])))
      && (forall k, l :: 0 <= k < l < |idx| ==> idx[k] < idx[l])
      && (forall i :: 0 <= i < n && Output(sts[i]).Some? ==> i in idx)
  {
    var n := FirstAbort(sts);
    var os := Outputs(sts[..n]);
    StableSelection(os);
    assert forall i :: 0 <= i < n ==> os[i] == Output(sts[i]);
  }

  /** The output is a stable selection of the input: one record per kept
      line, unchanged and in file order, and every line before the stopping
      point whose record qualifies is among them. */
  lemma KeptRecordsFollowInput(lines: seq<string>, parse: string -> Option<Json>, matches: string -> bool)
    ensures
      var sts := Scans(lines, Scanner(parse, matches));
      var n := FirstAbort(sts);
      var idx := SomeIndices(Outputs(sts[..n]));
      && Selected(lines, Run(sts).records, idx, parse, matches)
      && (forall i :: 0 <= i < n && Output(ScanLine(lines[i], parse, matches)).Some? ==> i in idx)
  {
    var scan := Scanner(parse, matches);
    var sts := Scans(lines, scan);
    var n := FirstAbort(sts);
    var idx, recs := SomeIndices(Outputs(sts[..n])), Run(sts).records;
    RunSelects(sts);
    forall k | 0 <= k < |idx|
      ensures parse(Strip(lines[idx[k]])) == Some(recs[k])
      ensures HasTextString(recs[k]) && Keeps(recs[k], matches)
    {
      ScansAt(lines, scan, idx[k]);
    }
    forall i | 0 <= i < n && Output(ScanLine(lines[i], parse, matches)).Some?
      ensures i in idx
    {
      ScansAt(lines, scan, i);
    }
  }

  /** The name written to: the input's file name without its extension,
      plus the suffix, in the working directory. */
  function OutputName(input: string): (r: string)
    ensures |r| >= |SUFFIX| && r[|r| - |SUFFIX|..] == SUFFIX
    ensures SEP !in r
    ensures r[..|r| - |SUFFIX|] + Splitext(Basename(input)).1 == Basename(input)
  {
    assert SEP !in SUFFIX;
    StemWith(input, SUFFIX)
  }

  lemma OutputNameOfJsonl(dir: string, name: string)
    requires |name| > 0 && SEP !in name && EXTSEP !in name
    ensures OutputName(dir + [SEP] + name + ".jsonl") == name + SUFFIX
  {
    StemWithOfJsonl(dir, name, SUFFIX);
  }
}
