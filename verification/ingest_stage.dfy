/** The ingest stage (skinny_extraction in ingest.py): each line of the raw
    dump becomes at most one slim record {"text", "date", "year"}, where the
    text joins the post's title and body. An exception in the loop body only
    skips that line. The date conversion (datetime.fromtimestamp and strftime,
    which depend on the local time zone) is the abstract `toDate`; `repr`
    renders non-string values inside the f-string. */
module IngestStage {
  import opened Wrappers
  import opened Text
  import opened Paths
  import opened Json
  import opened Streams

  const TITLE_KEY := "title"
  const BODY_KEY := "selftext"
  const TIME_KEY := "created_utc"
  const INTERIM_DIR := "data/interim"
  const SUFFIX := "_result.jsonl"

  /** What the date conversion yields for a timestamp: the day as
      dd-mm-yyyy and the year. None stands for any exception it raises. */
  datatype DateParts = DateParts(date: string, year: int)

  /** The post text: title and body joined by one space, then stripped; a
      missing key reads as "". */
  function PostText(fs: seq<Field>, repr: Json -> string): (t: string)
    ensures IsStripped(t)
  {
    var title := Format(Get(fs, TITLE_KEY).GetOr(JStr("")), repr);
    var body := Format(Get(fs, BODY_KEY).GetOr(JStr("")), repr);
    Strip(title + " " + body)
  }

  /** The post text is the strip of title, space, body, with a missing
      key read as the empty string. */
  lemma PostTextJoins(fs: seq<Field>, repr: Json -> string)
    ensures
      var title := if TITLE_KEY in Keys(fs) then Format(Get(fs, TITLE_KEY).value, repr) else "";
      var body := if BODY_KEY in Keys(fs) then Format(Get(fs, BODY_KEY).value, repr) else "";
      StripOf(title + " " + body, PostText(fs, repr))
  {
    var title := Format(Get(fs, TITLE_KEY).GetOr(JStr("")), repr);
    var body := Format(Get(fs, BODY_KEY).GetOr(JStr("")), repr);
    StripCharacterised(title + " " + body, PostText(fs, repr));
  }

  /** The slim record, with its keys in the order the dict literal gives. */
  function Skinny(text: string, d: DateParts): (r: Json)
    ensures r.JObj? && Keys(r.fields) == ["text", "date", "year"]
    ensures Get(r.fields, "text") == Some(JStr(text))
    ensures Get(r.fields, "date") == Some(JStr(d.date))
    ensures Get(r.fields, "year") == Some(JInt(d.year))
  {
    var fs := [Field("text", JStr(text)), Field("date", JStr(d.date)), Field("year", JInt(d.year))];
    assert fs[1..] == [Field("date", JStr(d.date)), Field("year", JInt(d.year))];
    assert fs[1..][1..] == [Field("year", JInt(d.year))];
    assert Keys(fs[1..][1..]) == ["year"];
    assert Get(fs[1..][1..], "year") == Some(JInt(d.year));
    assert Keys(fs) == ["text", "date", "year"];
    assert "text" != "date" && "text" != "year" && "date" != "year";
    JObj(fs)
  }

  /** The emit condition of the loop body: the line decodes to a dict, the
      joined text is non-empty, `created_utc` is present and truthy, and the
      date conversion succeeds. */
  predicate Emits(line: string, parse: string -> Option<Json>, repr: Json -> string, toDate: Json -> Option<DateParts>)
  {
    && parse(line).Some? && parse(line).value.JObj?
    && var fs := parse(line).value.fields;
    && |PostText(fs, repr)| > 0
    && TIME_KEY in Keys(fs) && Truthy(Get(fs, TIME_KEY).value)
    && toDate(Get(fs, TIME_KEY).value).Some?
  }

  /** The emit condition in the terms a caller sees: the joined title and
      body strip to something non-empty, and the timestamp is present and
      none of Python's falsy values. */
  lemma EmitsIff(line: string, parse: string -> Option<Json>, repr: Json -> string, toDate: Json -> Option<DateParts>)
    ensures Emits(line, parse, repr, toDate) <==>
      && parse(line).Some? && parse(line).value.JObj?
      && var fs := parse(line).value.fields;
      && var title := if TITLE_KEY in Keys(fs) then Format(Get(fs, TITLE_KEY).value, repr) else "";
      && var body := if BODY_KEY in Keys(fs) then Format(Get(fs, BODY_KEY).value, repr) else "";
      && (exists t :: StripOf(title + " " + body, t) && |t| > 0)
      && TIME_KEY in Keys(fs) && Get(fs, TIME_KEY).value !in FALSY
      && toDate(Get(fs, TIME_KEY).value).Some?
  {
    if parse(line).Some? && parse(line).value.JObj? {
      var fs := parse(line).value.fields;
      var title := if TITLE_KEY in Keys(fs) then Format(Get(fs, TITLE_KEY).value, repr) else "";
      var body := if BODY_KEY in Keys(fs) then Format(Get(fs, BODY_KEY).value, repr) else "";
      var joined := title + " " + body;
      PostTextJoins(fs, repr);
      assert StripOf(joined, PostText(fs, repr));
      forall t | StripOf(joined, t) ensures t == PostText(fs, repr) {
        StripOfUnique(joined, t, PostText(fs, repr));
      }
    }
  }

  /** One iteration of the loop: the record written for a line, if any. */
  function Extract(line: string, parse: string -> Option<Json>, repr: Json -> string, toDate: Json -> Option<DateParts>): (r: Option<Json>)
    ensures r.Some? <==> Emits(line, parse, repr, toDate)
    ensures r.Some? ==> r.value.JObj? && Keys(r.value.fields) == ["text", "date", "year"]
    ensures r.Some? ==>
      var fs := parse(line).value.fields;
      var d := toDate(Get(fs, TIME_KEY).value).value;
      && Get(r.value.fields, "text") == Some(JStr(PostText(fs, repr)))
      && Get(r.value.fields, "date") == Some(JStr(d.date))
      && Get(r.value.fields, "year") == Some(JInt(d.year))
  {
    // a decode error, or .get on a value that is not a dict, skips the line
    if !(parse(line).Some? && parse(line).value.JObj?) then None
    else
      var fs := parse(line).value.fields;
      var text := PostText(fs, repr);
      if |text| > 0 && TIME_KEY in Keys(fs) && Truthy(Get(fs, TIME_KEY).value) && toDate(Get(fs, TIME_KEY).value).Some?
      then Some(Skinny(text, toDate(Get(fs, TIME_KEY).value).value))
      else None
  }

  /** The loop body as a function value, for the generic loop below. */
  function Extractor(parse: string -> Option<Json>, repr: Json -> string, toDate: Json -> Option<DateParts>): (extract: string -> Option<Json>)
    ensures forall line :: extract(line) == Extract(line, parse, repr, toDate)
  {
    line => Extract(line, parse, repr, toDate)
  }

  /** skinny_extraction: derive the output path, then write one slim record
      per emitting line. */
  method SkinnyExtraction(
    input: string, lines: seq<string>,
    parse: string -> Option<Json>, repr: Json -> string, toDate: Json -> Option<DateParts>)
    returns (outputPath: string, records: seq<Json>, count: nat)
    ensures outputPath == OutputPath(input)
    ensures records == Somes(Map(lines, Extractor(parse, repr, toDate)))
    ensures count == |records| <= |lines|
  {
    outputPath := OutputPath(input);
    records, count := ExtractFile(lines, Extractor(parse, repr, toDate));
  }

  /** The `for line in infile` loop. */
  method ExtractFile(lines: seq<string>, extract: string -> Option<Json>) returns (records: seq<Json>, count: nat)
    ensures records == Somes(Map(lines, extract))
    ensures count == |records|
  {
    ghost var ds := Map(lines, extract);
    records, count := [], 0;
    var i := 0;
    while i < |lines|
      invariant 0 <= i <= |lines|
      invariant records == Somes(ds[..i])
      invariant count == |records|
    {
      SomesStep(ds, i);
      var skinny := extract(lines[i]);
      if skinny.Some? {
        records := records + [skinny.value];
        count := count + 1;
      }
      i := i + 1;
    }
    assert ds[..i] == ds;
  }

  /** A post with no timestamp, or a falsy one (0, null, ""), is skipped
      whatever its text. */
  lemma UntimedPostSkipped(line: string, parse: string -> Option<Json>, repr: Json -> string, toDate: Json -> Option<DateParts>)
    requires parse(line).Some? && parse(line).value.JObj?
    requires var fs := parse(line).value.fields; TIME_KEY !in Keys(fs) || !Truthy(Get(fs, TIME_KEY).value)
    ensures Extract(line, parse, repr, toDate) == None
  {
  }

  /** A post with neither title nor body is skipped: the joined text " "
      strips to nothing. */
  lemma EmptyPostSkipped(line: string, parse: string -> Option<Json>, repr: Json -> string, toDate: Json -> Option<DateParts>)
    requires parse(line).Some? && parse(line).value.JObj?
    requires var fs := parse(line).value.fields; TITLE_KEY !in Keys(fs) && BODY_KEY !in Keys(fs)
    ensures Extract(line, parse, repr, toDate) == None
  {
    var fs := parse(line).value.fields;
    assert AllSpace("" + " " + "");
    assert |PostText(fs, repr)| == 0;
  }

  /** A post with only a title (already stripped, non-empty) keeps the title
      as its text: the separator space is stripped away again. */
  lemma TitleOnlyPost(fs: seq<Field>, title: string, repr: Json -> string)
    requires Get(fs, TITLE_KEY) == Some(JStr(title)) && BODY_KEY !in Keys(fs)
    requires |title| > 0 && IsStripped(title)
    ensures PostText(fs, repr) == title
  {
    var x := title + " " + "";
    assert x[..|title|] == title && x[|title|..] == " ";
    assert CutAt(x, title, 0);
    StripCharacterised(x, title);
  }

  /** The output is a stable selection of the input: record k is the slim
      record of line idx[k], the positions increase, every emitting line is
      among them, and every record has the three keys and a non-empty,
      stripped text. */
  lemma RecordsFollowInput(lines: seq<string>, parse: string -> Option<Json>, repr: Json -> string, toDate: Json -> Option<DateParts>)
    ensures
      var ds := Map(lines, Extractor(parse, repr, toDate));
      var idx, recs := SomeIndices(ds), Somes(ds);
      && |idx| == |recs|
      && (forall k :: 0 <= k < |idx| ==> idx[k] < |lines| && Extract(lines[idx[k]], parse, repr, toDate) == Some(recs[k]))
      && (forall k, l :: 0 <= k < l < |idx| ==> idx[k] < idx[l])
      && (forall i :: 0 <= i < |lines| && Emits(lines[i], parse, repr, toDate) ==> i in idx)
      && (forall k :: 0 <= k < |recs| ==> recs[k].JObj? && Keys(recs[k].fields) == ["text", "date", "year"])
      && (forall k :: 0 <= k < |recs| ==>
            exists t :: Get(recs[k].fields, "text") == Some(JStr(t)) && |t| > 0 && IsStripped(t))
  {
    var ds := Map(lines, Extractor(parse, repr, toDate));
    assert forall i :: 0 <= i < |lines| ==> ds[i] == Extract(lines[i], parse, repr, toDate);
    StableSelection(ds);
    RecordsAreSlim(lines, parse, repr, toDate);
  }

  /** Every record written has the three slim keys and a non-empty,
      stripped text. */
  lemma RecordsAreSlim(lines: seq<string>, parse: string -> Option<Json>, repr: Json -> string, toDate: Json -> Option<DateParts>)
    ensures
      var recs := Somes(Map(lines, Extractor(parse, repr, toDate)));
      && (forall k :: 0 <= k < |recs| ==> recs[k].JObj? && Keys(recs[k].fields) == ["text", "date", "year"])
      && (forall k :: 0 <= k < |recs| ==>
            exists t :: Get(recs[k].fields, "text") == Some(JStr(t)) && |t| > 0 && IsStripped(t))
  {
    var ds := Map(lines, Extractor(parse, repr, toDate));
    var idx, recs := SomeIndices(ds), Somes(ds);
    StableSelection(ds);
    forall k | 0 <= k < |recs|
      ensures recs[k].JObj? && Keys(recs[k].fields) == ["text", "date", "year"]
      ensures exists t :: Get(recs[k].fields, "text") == Some(JStr(t)) && |t| > 0 && IsStripped(t)
    {
      var line := lines[idx[k]];
      assert Extract(line, parse, repr, toDate) == Some(recs[k]);
      var t := PostText(parse(line).value.fields, repr);
      assert Get(recs[k].fields, "text") == Some(JStr(t));
    }
  }

  /** os.path.join("data/interim", stem + "_result.jsonl"), with the stem the
      input's file name without its extension. */
  function OutputPath(input: string): (r: string)
    ensures r == INTERIM_DIR + [SEP] + StemWith(input, SUFFIX)
  {
    var name := StemWith(input, SUFFIX);
    ResultNameIsRelative(input);
    assert INTERIM_DIR[|INTERIM_DIR| - 1] != SEP;
    Join(INTERIM_DIR, name)
  }

  /** The result file name is a bare name: it has no separator, so it does
      not start with one. */
  lemma ResultNameIsRelative(input: string)
    ensures var name := StemWith(input, SUFFIX); |name| > 0 && name[0] != SEP && SEP !in name
  {
    assert SEP !in SUFFIX by {
      forall k | 0 <= k < |SUFFIX| ensures SUFFIX[k] != SEP { }
    }
    var name := StemWith(input, SUFFIX);
    assert name[0] in name;
  }

  lemma OutputPathOfJsonl(dir: string, name: string)
    requires |name| > 0 && SEP !in name && EXTSEP !in name
    ensures OutputPath(dir + [SEP] + name + ".jsonl") == INTERIM_DIR + [SEP] + (name + SUFFIX)
  {
    StemWithOfJsonl(dir, name, SUFFIX);
  }
}
