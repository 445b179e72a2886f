/** Building one benchmark record: the needles are shuffled, spliced into the
    long document after randomly chosen sentence terminators, and the spliced
    document is wrapped in a prompt with a document prefix and a question. */
module NiahBuild {
  import opened TextBasics
  import opened NeedleSplit

  /** Fewer terminators than this plus one make the document too short. */
  const MinTerminators: nat := 80

  /** `insert_strings_to_random_position(long_text, insert_strings, lang)` with
      the draw of `random.sample` as the parameter `sample`. */
  function Placement(longText: Text, strings: seq<Text>, lang: Lang, sample: seq<nat>): Result<Text>
    requires SampleFits(longText, lang, |strings|, sample)
  {
    var pp := PeriodPositions(longText, lang);
    if |pp| == 0 then Err(NoTerminator)
    else if |pp| <= MinTerminators then Err(TooFewTerminators)
    else if |strings| > |pp| then Err(SampleTooLarge)
    else Ok(Interleave(PyShards(longText, SortedNat(sample)), strings))
  }

  /** The imperative original: scan, the two error checks, the sample, the
      in-place sort, the shard loop and the accumulation loop. */
  method InsertStringsToRandomPosition(longText: Text, insertStrings: seq<Text>, lang: Lang, sample: seq<nat>)
    returns (r: Result<Text>)
    requires SampleFits(longText, lang, |insertStrings|, sample)
    ensures r == Placement(longText, insertStrings, lang, sample)
  {
    var periodPositions := PeriodPositions(longText, lang);
    if |periodPositions| == 0 {
      return Err(NoTerminator);
    }
    if |periodPositions| <= MinTerminators {
      return Err(TooFewTerminators);
    }
    var numStrings := |insertStrings|;
    if numStrings > |periodPositions| {
      return Err(SampleTooLarge);
    }
    var insertPosition := SortedNat(sample);
    var shardText := CutShards(longText, insertPosition);
    var newText := SpliceShards(shardText, insertStrings);
    return Ok(newText);
  }

  /** The errors are exactly the three cases the original raises in. */
  lemma PlacementErrors(longText: Text, strings: seq<Text>, lang: Lang, sample: seq<nat>)
    requires SampleFits(longText, lang, |strings|, sample)
    ensures var pp := PeriodPositions(longText, lang); var r := Placement(longText, strings, lang, sample);
      && (r == Err(NoTerminator) <==> |pp| == 0)
      && (r == Err(TooFewTerminators) <==> 0 < |pp| <= 80)
      && (r == Err(SampleTooLarge) <==> 80 < |pp| < |strings|)
      && (r.Ok? <==> 80 < |pp| && |strings| <= |pp|)
  {
  }

  /** What a successful placement produced: at least 81 terminators were seen,
      and the text is the interleave of |strings| + 1 shards that concatenate to
      the document, each but the last closed by its cut terminator. */
  lemma PlacementShards(longText: Text, strings: seq<Text>, lang: Lang, sample: seq<nat>)
    requires SampleFits(longText, lang, |strings|, sample)
    requires Placement(longText, strings, lang, sample).Ok?
    ensures |PeriodPositions(longText, lang)| > MinTerminators
    ensures var shards := PyShards(longText, SortedNat(sample));
      && |shards| == |strings| + 1
      && Concat(shards) == longText
      && (forall i :: 0 <= i < |strings| ==> |shards[i]| > 0 && shards[i][|shards[i]| - 1] == Terminator(lang))
      && Placement(longText, strings, lang, sample).value == Interleave(shards, strings)
  {
    var pp := PeriodPositions(longText, lang);
    assert |pp| > MinTerminators && |strings| <= |pp|;
    var cuts := SortedNat(sample);
    SampleSorted(longText, lang, |strings|, sample);
    ShardsConcat(longText, cuts);
    TerminatedShards(longText, cuts, lang);
  }

  /** The placed text grows by exactly the wrapped needles: sum of |n_i| + 2. */
  lemma PlacementLength(longText: Text, strings: seq<Text>, lang: Lang, sample: seq<nat>)
    requires SampleFits(longText, lang, |strings|, sample)
    requires Placement(longText, strings, lang, sample).Ok?
    ensures |Placement(longText, strings, lang, sample).value| == |longText| + WrapTotal(strings)
  {
    var cuts := SortedNat(sample);
    SampleSorted(longText, lang, |strings|, sample);
    ShardsConcat(longText, cuts);
    InterleaveLength(PyShards(longText, cuts), strings);
  }

  /** With no needles a successful placement returns the document unchanged. */
  lemma PlacementNoNeedles(longText: Text, lang: Lang, sample: seq<nat>)
    requires SampleFits(longText, lang, 0, sample)
    requires Placement(longText, [], lang, sample).Ok?
    ensures Placement(longText, [], lang, sample).value == longText
  {
    var cuts := SortedNat(sample);
    SampleSorted(longText, lang, 0, sample);
    ShardsConcat(longText, cuts);
    InterleaveNoNeedles(PyShards(longText, cuts));
  }

  /** The split used by the noise scripts recovers the shards of a placement and
      its concatenation check accepts them, when no shard or needle can be
      confused with a wrapped needle or with the marker. */
  lemma PlacementRoundTrip(longText: Text, strings: seq<Text>, lang: Lang, sample: seq<nat>)
    requires SampleFits(longText, lang, |strings|, sample)
    requires Placement(longText, strings, lang, sample).Ok?
    requires Clean(PyShards(longText, SortedNat(sample)), strings)
    ensures CutByNeedles(strings, Placement(longText, strings, lang, sample).value)
         == PyShards(longText, SortedNat(sample))
    ensures CheckRawLongText(CutByNeedles(strings, Placement(longText, strings, lang, sample).value), longText)
  {
    var shards := PyShards(longText, SortedNat(sample));
    PlacementShards(longText, strings, lang, sample);
    RoundTrip(shards, strings);
  }

  // ---------------------------------------------------------------------
  // build_data: shuffling and prompt assembly.

  /** The document prefixes offered by the document-first prompt layout. */
  function DocPrefixes(lang: Lang): (r: seq<Text>)
    ensures |r| == 5
    ensures r[4] == ""
  {
    match lang
    case Zh => ["文档：", "文档：\n", "文档:", "文档:\n", ""]
    case En => ["Document: ", "Document: \n", "Document:", "Document:\n", ""]
  }

  /** The question prefixes offered by the document-first prompt layout. */
  function QuestionPrefixes(lang: Lang): (r: seq<Text>)
    ensures |r| == 5
    ensures forall i :: 0 <= i < |r| ==> |r[i]| > 0
  {
    match lang
    case Zh => ["问题：", "问题：\n", "问题:", "问题:\n", "回答以下问题：\n"]
    case En => ["Question: ", "Question: \n", "Question:", "Question:\n", "Please answer the question:\n"]
  }

  /** The fields of the output record this model keeps. */
  datatype Record = Record(
    input: Text,
    textWithNeedles: Text,
    lang: Lang,
    numNeedles: nat,
    rawNeedles: seq<Text>,
    needles: seq<Text>)

  /** `build_data(QA, long_text, lang)`: `shuffled` is the order `random.shuffle`
      leaves the needles in; `docChoice` and `questionChoice` are the indices the
      two `random.choice` calls pick. */
  method BuildData(question: Text, needles: seq<Text>, rawText: Text, lang: Lang,
                   shuffled: seq<Text>, sample: seq<nat>, docChoice: nat, questionChoice: nat)
    returns (r: Result<Record>)
    requires multiset(shuffled) == multiset(needles)
    requires SampleFits(rawText, lang, |shuffled|, sample)
    requires docChoice < 5 && questionChoice < 5
    ensures Placement(rawText, shuffled, lang, sample).Err? ==>
              r == Err(Placement(rawText, shuffled, lang, sample).error)
    ensures Placement(rawText, shuffled, lang, sample).Ok? ==> r.Ok?
    ensures r.Ok? ==>
      && r.value.textWithNeedles == Placement(rawText, shuffled, lang, sample).value
      && r.value.input == DocPrefixes(lang)[docChoice] + r.value.textWithNeedles + "\n\n"
                          + QuestionPrefixes(lang)[questionChoice] + question
      && IsEmbedding(r.value.input, r.value.textWithNeedles, |DocPrefixes(lang)[docChoice]|)
      && r.value.rawNeedles == needles && r.value.needles == shuffled
      && multiset(r.value.needles) == multiset(r.value.rawNeedles)
      && r.value.numNeedles == |needles| && r.value.lang == lang
  {
    var rawNeedles := needles;
    var current := shuffled;
    assert |current| == |needles| by {
      assert |multiset(current)| == |multiset(needles)|;
    }
    var placed := InsertStringsToRandomPosition(rawText, current, lang, sample);
    if placed.Err? {
      return Err(placed.error);
    }
    var textWithNeedles := placed.value;
    var docPrefix := DocPrefixes(lang)[docChoice];
    var inputContent := docPrefix + textWithNeedles + "\n\n" + QuestionPrefixes(lang)[questionChoice] + question;
    PromptEmbedding(inputContent, docPrefix, textWithNeedles, "\n\n", QuestionPrefixes(lang)[questionChoice], question);
    r := Ok(Record(inputContent, textWithNeedles, lang, |current|, rawNeedles, current));
  }

  /** The document sits in the prompt right after its prefix. */
  lemma PromptEmbedding(prompt: Text, p: Text, t: Text, a: Text, b: Text, c: Text)
    requires prompt == p + t + a + b + c
    ensures IsEmbedding(prompt, t, |p|)
  {
    assert prompt == p + t + (a + b + c);
    assert prompt[|p|..|p| + |t|] == t;
  }

  /** The two coordinate frames of a record: the spliced prompt is what splicing
      the needles into the unspliced prompt would give at the document cuts
      shifted by the length of the document prefix. */
  lemma PromptFrames(question: Text, rawText: Text, lang: Lang, strings: seq<Text>,
                     sample: seq<nat>, docChoice: nat, questionChoice: nat)
    requires SampleFits(rawText, lang, |strings|, sample)
    requires Placement(rawText, strings, lang, sample).Ok?
    requires docChoice < 5 && questionChoice < 5
    ensures var p := DocPrefixes(lang)[docChoice];
      var s := "\n\n" + QuestionPrefixes(lang)[questionChoice] + question;
      p + Placement(rawText, strings, lang, sample).value + s
        == Interleave(PyShards(p + rawText + s, Shift(SortedNat(sample), |p|)), strings)
  {
    var p := DocPrefixes(lang)[docChoice];
    var s := "\n\n" + QuestionPrefixes(lang)[questionChoice] + question;
    SampleSorted(rawText, lang, |strings|, sample);
    SpliceTwoFrames(p, rawText, s, SortedNat(sample), strings);
  }
}
