/** Stage 3: the classifier filter. Every line of the input becomes a dataset
    item (windowed text plus the raw line); items are classified in fixed-size
    batches; items whose predicted class is in the keep set are written as the
    original record plus a "depression_label" field.

    The tokenizer, the model and the argmax are one abstract function
    `classify` from the item text to a class index; `parse` stands for
    json.loads (None: the line does not decode). */
module ClassifierStage {
  import opened Wrappers
  import opened Text
  import opened Paths
  import opened Json
  import opened Streams
  import opened Window

  const LABEL_KEY: string := "depression_label"
  const OUTPUT_DIR: string := "/kaggle/working/"
  const NEGATION: string := "not"

  /** A dataset item: the text handed to the classifier and the line the
      record is rebuilt from when it is kept. */
  datatype Item = Item(text: string, original: string)

  /** What a line that cannot be read becomes. */
  const PLACEHOLDER: Item := Item("", "{}")

  datatype ClassifierRun =
    | Finished(records: seq<Json>, total: nat, kept: nat)
    | BadBatchSize

  /** The line decodes to an object whose "text" is a string or is absent,
      so that `data.get('text', '').strip()` succeeds. */
  predicate Readable(line: string, parse: string -> Option<Json>) {
    && parse(line).Some?
    && parse(line).value.JObj?
    && StrField(parse(line).value.fields, "text").Some?
  }

  /** JSONLDataset.__getitem__ */
  function GetItem(line: string, parse: string -> Option<Json>): (it: Item)
    ensures Readable(line, parse) ==> it.original == line
    ensures Readable(line, parse) ==>
      exists s :: StripOf(StrField(parse(line).value.fields, "text").value, s) && it.text == TextForModel(s)
    ensures !Readable(line, parse) ==> it == PLACEHOLDER
    ensures IsStripped(it.text)
    ensures |it.text| <= FRONT_CHARS + BACK_CHARS + 1
  {
    match parse(line)
    case Some(JObj(fs)) =>
      (match StrField(fs, "text")
       case Some(t) =>
         WindowKeepsStripped(Strip(t));
         StripCharacterised(t, Strip(t));
         Item(TextForModel(Strip(t)), line)
       case None => PLACEHOLDER)
    case _ => PLACEHOLDER
  }

  /** The label contains "not" in any mix of upper and lower case. */
  ghost predicate MentionsNot(l: string) {
    exists k :: 0 <= k && k + 3 <= |l| && NotAt(l, k)
  }

  /** "not", ignoring case, starts at position k of l. */
  ghost predicate NotAt(l: string, k: nat)
    requires k + 3 <= |l|
  {
    Lower(l[k]) == 'n' && Lower(l[k + 1]) == 'o' && Lower(l[k + 2]) == 't'
  }

  lemma LoweredNotTest(name: string)
    ensures HasSubstring(LowerStr(name), NEGATION) <==> MentionsNot(name)
  {
    var low := LowerStr(name);
    forall k | 0 <= k && k + 3 <= |name|
      ensures OccursAt(low, NEGATION, k) <==> NotAt(name, k)
    {
      var w := low[k..k + 3];
      assert w[0] == low[k] && w[1] == low[k + 1] && w[2] == low[k + 2];
      assert w == NEGATION <==> (w[0] == 'n' && w[1] == 'o' && w[2] == 't');
    }
    if HasSubstring(low, NEGATION) {
      var k :| OccursAt(low, NEGATION, k);
      assert NotAt(name, k);
    }
    if MentionsNot(name) {
      var k :| 0 <= k && k + 3 <= |name| && NotAt(name, k);
      assert OccursAt(low, NEGATION, k);
    }
  }

  /** keep_ids: the class indices whose label, lower-cased, does not contain "not". */
  function KeepIds(id2label: map<nat, string>): (keep: set<nat>)
    ensures forall i :: i in keep <==> i in id2label && !MentionsNot(id2label[i])
  {
    forall i | i in id2label ensures HasSubstring(LowerStr(id2label[i]), NEGATION) <==> MentionsNot(id2label[i]) {
      LoweredNotTest(id2label[i]);
    }
    set i | i in id2label && !HasSubstring(LowerStr(id2label[i]), NEGATION)
  }

  /** What the write step does with one item and its prediction: a kept
      prediction re-reads the stored line and records the label on it.
      `keep` is the keep_ids list, drawn from the label map. */
  function Emit(item: Item, pred: nat, keep: set<nat>, id2label: map<nat, string>, parse: string -> Option<Json>): (r: Option<Json>)
    requires keep <= id2label.Keys
    ensures r.Some? <==> pred in keep && parse(item.original).Some? && parse(item.original).value.JObj?
    ensures r.Some? ==> r.value.JObj? && Get(r.value.fields, LABEL_KEY) == Some(JStr(id2label[pred]))
    ensures r.Some? ==> forall k :: k != LABEL_KEY ==> Get(r.value.fields, k) == Get(parse(item.original).value.fields, k)
    ensures r.Some? ==>
      var ks := Keys(parse(item.original).value.fields);
      Keys(r.value.fields) == if LABEL_KEY in ks then ks else ks + [LABEL_KEY]
  {
    if pred !in keep then None
    else match parse(item.original)
      case Some(JObj(fs)) =>
        PutKeyOrder(fs, LABEL_KEY, JStr(id2label[pred]));
        Some(JObj(Put(fs, LABEL_KEY, JStr(id2label[pred]))))
      case _ => None
  }

  /** The dataset: one item per input line, in order. */
  function Items(lines: seq<string>, parse: string -> Option<Json>): (items: seq<Item>)
    ensures |items| == |lines|
    ensures forall i :: 0 <= i < |lines| ==> items[i] == GetItem(lines[i], parse)
  {
    Map(lines, line => GetItem(line, parse))
  }

  /** The output, if any, that one input line leads to. */
  function Decide(line: string, parse: string -> Option<Json>, classify: string -> nat, id2label: map<nat, string>): (r: Option<Json>)
    ensures r.Some? ==> classify(GetItem(line, parse).text) in KeepIds(id2label)
    ensures r.Some? ==>
      r.value.JObj? && Get(r.value.fields, LABEL_KEY) == Some(JStr(id2label[classify(GetItem(line, parse).text)]))
    ensures Readable(line, parse) ==>
      (r.Some? <==> classify(GetItem(line, parse).text) in KeepIds(id2label))
    ensures Readable(line, parse) && r.Some? ==>
      forall k :: k != LABEL_KEY ==> Get(r.value.fields, k) == Get(parse(line).value.fields, k)
  {
    var item := GetItem(line, parse);
    Emit(item, classify(item.text), KeepIds(id2label), id2label, parse)
  }

  /** The write decision for each item, in order (see DecisionsAt). */
  function Decisions(items: seq<Item>, parse: string -> Option<Json>, classify: string -> nat, keep: set<nat>, id2label: map<nat, string>): (ds: seq<Option<Json>>)
    requires keep <= id2label.Keys
    ensures |ds| == |items|
    decreases |items|
  {
    if |items| == 0 then []
    else
      var last := items[|items| - 1];
      Decisions(items[..|items| - 1], parse, classify, keep, id2label) + [Emit(last, classify(last.text), keep, id2label, parse)]
  }

  /** The j-th decision is the one for the j-th item on its own. */
  lemma {:induction false} DecisionsAt(items: seq<Item>, j: nat, parse: string -> Option<Json>, classify: string -> nat, keep: set<nat>, id2label: map<nat, string>)
    requires keep <= id2label.Keys && j < |items|
    ensures Decisions(items, parse, classify, keep, id2label)[j] == Emit(items[j], classify(items[j].text), keep, id2label, parse)
    decreases |items|
  {
    if j < |items| - 1 {
      DecisionsAt(items[..|items| - 1], j, parse, classify, keep, id2label);
    }
  }

  /** Deciding two runs of items is deciding their concatenation. */
  lemma {:induction false} DecisionsAppend(a: seq<Item>, b: seq<Item>, parse: string -> Option<Json>, classify: string -> nat, keep: set<nat>, id2label: map<nat, string>)
    requires keep <= id2label.Keys
    ensures Decisions(a + b, parse, classify, keep, id2label)
         == Decisions(a, parse, classify, keep, id2label) + Decisions(b, parse, classify, keep, id2label)
    decreases |b|
  {
    if |b| > 0 {
      var b' := b[..|b| - 1];
      assert (a + b)[..|a + b| - 1] == a + b';
      DecisionsAppend(a, b', parse, classify, keep, id2label);
    } else {
      assert a + b == a;
    }
  }

  /** The records the stage writes for the given input lines, in order. */
  function Expected(lines: seq<string>, parse: string -> Option<Json>, classify: string -> nat, id2label: map<nat, string>): (records: seq<Json>)
    ensures |records| <= |lines|
    ensures forall k :: 0 <= k < |records| ==>
      records[k].JObj? && exists i :: i in KeepIds(id2label) && Get(records[k].fields, LABEL_KEY) == Some(JStr(id2label[i]))
  {
    var ds := Decisions(Items(lines, parse), parse, classify, KeepIds(id2label), id2label);
    OutputsFollowInput(lines, parse, classify, id2label);
    assert forall k :: 0 <= k < |Somes(ds)| ==>
      var pred := classify(GetItem(lines[SomeIndices(ds)[k]], parse).text);
      pred in KeepIds(id2label) && Get(Somes(ds)[k].fields, LABEL_KEY) == Some(JStr(id2label[pred]));
    Somes(ds)
  }

  /** One pass of the inner loop: predict the batch, then write every item
      whose prediction is kept, in batch order. */
  method WriteBatch(
    batch: seq<Item>, keep: set<nat>,
    parse: string -> Option<Json>, classify: string -> nat, id2label: map<nat, string>)
    returns (written: seq<Json>)
    requires keep <= id2label.Keys
    ensures written == Somes(Decisions(batch, parse, classify, keep, id2label))
  {
    written := [];
    var j := 0;
    while j < |batch|
      invariant 0 <= j <= |batch|
      invariant written == Somes(Decisions(batch[..j], parse, classify, keep, id2label))
    {
      var pred := classify(batch[j].text);
      DecisionsStep(batch, j, parse, classify, keep, id2label);
      if pred in keep {
        var meta := parse(batch[j].original);
        if meta.Some? && meta.value.JObj? {
          written := written + [JObj(Put(meta.value.fields, LABEL_KEY, JStr(id2label[pred])))];
        }
      }
      j := j + 1;
    }
    assert batch[..j] == batch;
  }

  /** Deciding one more item of a batch adds its output, if any, at the end. */
  lemma DecisionsStep(batch: seq<Item>, j: nat, parse: string -> Option<Json>, classify: string -> nat, keep: set<nat>, id2label: map<nat, string>)
    requires keep <= id2label.Keys && j < |batch|
    ensures
      var d := Emit(batch[j], classify(batch[j].text), keep, id2label, parse);
      Somes(Decisions(batch[..j + 1], parse, classify, keep, id2label))
        == Somes(Decisions(batch[..j], parse, classify, keep, id2label)) + if d.Some? then [d.value] else []
  {
    var ds := Decisions(batch[..j], parse, classify, keep, id2label);
    var d := Emit(batch[j], classify(batch[j].text), keep, id2label, parse);
    assert batch[..j + 1][..j] == batch[..j];
    assert Decisions(batch[..j + 1], parse, classify, keep, id2label) == ds + [d];
    assert (ds + [d])[..|ds|] == ds;
  }

  /** slm_filter_depression_posts: set up, then run the batch / predict /
      write loop over the dataset. */
  method FilterDepressionPosts(
    lines: seq<string>, batchSize: int,
    parse: string -> Option<Json>, classify: string -> nat, id2label: map<nat, string>)
    returns (run: ClassifierRun)
    ensures run.BadBatchSize? <==> batchSize <= 0
    ensures run.Finished? ==> run.total == |lines|
    ensures run.Finished? ==> run.records == Expected(lines, parse, classify, id2label)
    ensures run.Finished? ==> run.kept == |run.records| <= run.total
  {
    if batchSize <= 0 {
      return BadBatchSize;
    }
    var keep := KeepIds(id2label);
    var items := Items(lines, parse);
    var batches := Chunk(items, batchSize);
    ChunkFlattens(items, batchSize);
    var records, total, kept := ProcessBatches(items, batches, keep, parse, classify, id2label);
    return Finished(records, total, kept);
  }

  /** The loop over batches: `total` counts every prediction, `kept` every
      record written. Any batching whose concatenation is the dataset gives
      the same records. */
  method ProcessBatches(
    items: seq<Item>, batches: seq<seq<Item>>, keep: set<nat>,
    parse: string -> Option<Json>, classify: string -> nat, id2label: map<nat, string>)
    returns (records: seq<Json>, total: nat, kept: nat)
    requires Flatten(batches) == items
    requires keep <= id2label.Keys
    ensures total == |items|
    ensures kept == |records|
    ensures records == Somes(Decisions(items, parse, classify, keep, id2label))
  {
    records := [];
    total, kept := 0, 0;
    var b := 0;
    while b < |batches|
      invariant 0 <= b <= |batches|
      invariant total == |Flatten(batches[..b])|
      invariant records == Somes(Decisions(Flatten(batches[..b]), parse, classify, keep, id2label))
      invariant kept == |records|
    {
      var batch := batches[b];
      FlattenStep(batches, b);
      var written := NextBatch(Flatten(batches[..b]), batch, keep, parse, classify, id2label);
      records := records + written;
      kept := kept + |written|;
      total := total + |batch|;
      b := b + 1;
    }
    assert batches[..b] == batches;
  }

  /** One turn of the loop over batches: the records a batch writes extend
      the records written so far exactly as the batch extends the items seen. */
  method NextBatch(
    seen: seq<Item>, batch: seq<Item>, keep: set<nat>,
    parse: string -> Option<Json>, classify: string -> nat, id2label: map<nat, string>)
    returns (written: seq<Json>)
    requires keep <= id2label.Keys
    ensures Somes(Decisions(seen, parse, classify, keep, id2label)) + written
         == Somes(Decisions(seen + batch, parse, classify, keep, id2label))
  {
    written := WriteBatch(batch, keep, parse, classify, id2label);
    DecisionsAppend(seen, batch, parse, classify, keep, id2label);
    SomesAppend(Decisions(seen, parse, classify, keep, id2label), Decisions(batch, parse, classify, keep, id2label));
  }

  /** Given that "{}" decodes to an object, a line leads to an output exactly
      when its predicted class is in the keep set: the write step's error
      branch never fires. */
  lemma WrittenIffKept(line: string, parse: string -> Option<Json>, classify: string -> nat, id2label: map<nat, string>)
    requires parse(PLACEHOLDER.original).Some? && parse(PLACEHOLDER.original).value.JObj?
    ensures Decide(line, parse, classify, id2label).Some?
        <==> classify(GetItem(line, parse).text) in KeepIds(id2label)
  {
    var item := GetItem(line, parse);
    if Readable(line, parse) {
      assert item.original == line;
    } else {
      assert item == PLACEHOLDER;
    }
  }

  /** A line that does not decode is not dropped: it is classified as the
      empty text and, when that lands in the keep set, written as a record
      holding nothing but the label. */
  lemma UnreadableLineStillLabelled(line: string, parse: string -> Option<Json>, classify: string -> nat, id2label: map<nat, string>)
    requires !Readable(line, parse)
    requires parse(PLACEHOLDER.original) == Some(JObj([]))
    requires classify("") in KeepIds(id2label)
    ensures Decide(line, parse, classify, id2label) == Some(JObj([Field(LABEL_KEY, JStr(id2label[classify("")]))]))
  {
  }

  /** Outputs correspond one-to-one, in input order, with the lines whose
      decision is to write; each is the record its line leads to, carrying
      the label of its line's prediction. */
  lemma OutputsFollowInput(lines: seq<string>, parse: string -> Option<Json>, classify: string -> nat, id2label: map<nat, string>)
    ensures
      var ds := Decisions(Items(lines, parse), parse, classify, KeepIds(id2label), id2label);
      var idx, out := SomeIndices(ds), Somes(ds);
      && |idx| == |out|
      && (forall k, l :: 0 <= k < l < |idx| ==> idx[k] < idx[l])
      && (forall i :: 0 <= i < |lines| && ds[i].Some? ==> i in idx)
      && (forall k :: 0 <= k < |idx| ==>
            && idx[k] < |lines|
            && Decide(lines[idx[k]], parse, classify, id2label) == Some(out[k])
            && var pred := classify(GetItem(lines[idx[k]], parse).text);
            && pred in KeepIds(id2label)
            && out[k].JObj?
            && Get(out[k].fields, LABEL_KEY) == Some(JStr(id2label[pred])))
  {
    var items := Items(lines, parse);
    var ds := Decisions(items, parse, classify, KeepIds(id2label), id2label);
    StableSelection(ds);
    forall i | 0 <= i < |lines|
      ensures ds[i] == Decide(lines[i], parse, classify, id2label)
    {
      DecisionsAt(items, i, parse, classify, KeepIds(id2label), id2label);
    }
    var idx, out := SomeIndices(ds), Somes(ds);
    forall k | 0 <= k < |idx|
      ensures idx[k] < |lines| && Decide(lines[idx[k]], parse, classify, id2label) == Some(out[k])
    {
      assert ds[idx[k]] == Some(out[k]);
    }
  }

  /** The output file: the input's basename with every ".jsonl" replaced by
      "_filtered.jsonl", directly inside /kaggle/working/. */
  function OutputPath(input: string): (r: string)
    ensures |r| >= |OUTPUT_DIR| && r[..|OUTPUT_DIR|] == OUTPUT_DIR
    ensures SEP !in r[|OUTPUT_DIR|..]
  {
    var name := ReplaceAll(Basename(input), ".jsonl", "_filtered.jsonl");
    assert SEP !in "_filtered.jsonl";
    assert (OUTPUT_DIR + name)[|OUTPUT_DIR|..] == name;
    OUTPUT_DIR + name
  }

  lemma OutputPathOfJsonl(dir: string, name: string)
    requires SEP !in name && EXTSEP !in name
    ensures OutputPath(dir + [SEP] + name + ".jsonl") == OUTPUT_DIR + name + "_filtered.jsonl"
  {
    assert dir + [SEP] + name + ".jsonl" == dir + [SEP] + (name + ".jsonl");
    BasenameAfterSeparator(dir, name + ".jsonl");
    ReplaceSkipsPrefix(name, ".jsonl", ".jsonl", "_filtered.jsonl");
    ReplaceWholePattern(".jsonl", "_filtered.jsonl");
  }

  /** A basename without ".jsonl" is kept as it is. */
  lemma OutputPathWithoutJsonl(dir: string, name: string)
    requires SEP !in name && !HasSubstring(name, ".jsonl")
    ensures OutputPath(dir + [SEP] + name) == OUTPUT_DIR + name
  {
    BasenameAfterSeparator(dir, name);
  }
}
