/** The semantic-noise script: a noise sentence, wrapped in newlines, is put
    right after a terminator inside a few chosen shards, in the document frame
    and, shifted by the offset of the document, in the prompt frame; then the
    shards and the needles are re-joined with newlines. */
module SemNoise {
  import opened TextBasics

  // ---------------------------------------------------------------------
  // insert_after_random_period

  /** The `random.choice(periods)` draw: a terminator position of the shard
      whenever there is one. */
  predicate PeriodPick(text: Text, lang: Lang, pick: nat)
  {
    Terminator(lang) in text ==> pick < |text| && text[pick] == Terminator(lang)
  }

  /** The draw is an element of the scanned list whenever that list is not empty. */
  lemma PeriodPickIsChoice(text: Text, lang: Lang, pick: nat)
    ensures PeriodPick(text, lang, pick)
        <==> (|PeriodPositions(text, lang)| > 0 ==> pick in PeriodPositions(text, lang))
  {
    var pp := PeriodPositions(text, lang);
    PeriodPositionsSpec(text, lang);
    if |pp| > 0 {
      assert text[pp[0]] in text;
    }
    if Terminator(lang) in text {
      var i :| 0 <= i < |text| && text[i] == Terminator(lang);
      assert i in pp;
    }
  }

  /** `t[:at] + "\n{noise}\n" + t[at:]` */
  function SpliceAt(t: Text, at: nat, noiseNeedle: Text): Text
  {
    PySlice(t, 0, at) + Wrap(noiseNeedle) + PySlice(t, at, |t|)
  }

  lemma SpliceAtInside(t: Text, at: nat, noiseNeedle: Text)
    requires at <= |t|
    ensures SpliceAt(t, at, noiseNeedle) == t[..at] + Wrap(noiseNeedle) + t[at..]
  {
  }

  /** `insert_after_random_period(input_text, text, noise_needle, lang, start_idx)`
      with the chosen terminator position as `pick`: the pair
      (`result_1`, `result_2`). */
  function InsertAfterRandomPeriod(inputText: Text, text: Text, noiseNeedle: Text, lang: Lang,
                                   startIdx: nat, pick: nat): (r: Result<(Text, Text)>)
    ensures r.Err? <==> Terminator(lang) !in text
    ensures r.Err? ==> r.error == NoPeriods
  {
    PeriodPositionsFound(text, lang);
    if |PeriodPositions(text, lang)| == 0 then Err(NoPeriods)
    else Ok((SpliceAt(inputText, pick + startIdx + 1, noiseNeedle), SpliceAt(text, pick + 1, noiseNeedle)))
  }

  /** Whatever the pick, a successful insertion loses no character of either
      shard and adds exactly the wrapped noise to each. */
  lemma InsertAfterPeriodKeeps(inputText: Text, text: Text, noiseNeedle: Text, lang: Lang,
                               startIdx: nat, pick: nat)
    requires InsertAfterRandomPeriod(inputText, text, noiseNeedle, lang, startIdx, pick).Ok?
    ensures var r := InsertAfterRandomPeriod(inputText, text, noiseNeedle, lang, startIdx, pick).value;
      && multiset(r.0) == multiset(inputText) + multiset(Wrap(noiseNeedle))
      && multiset(r.1) == multiset(text) + multiset(Wrap(noiseNeedle))
  {
    var r := InsertAfterRandomPeriod(inputText, text, noiseNeedle, lang, startIdx, pick);
    assert r.value == (SpliceAt(inputText, pick + startIdx + 1, noiseNeedle), SpliceAt(text, pick + 1, noiseNeedle));
    SpliceAtKeeps(inputText, pick + startIdx + 1, noiseNeedle);
    SpliceAtKeeps(text, pick + 1, noiseNeedle);
  }

  /** The scan finds something exactly when the text holds a terminator. */
  lemma PeriodPositionsFound(text: Text, lang: Lang)
    ensures |PeriodPositions(text, lang)| > 0 <==> Terminator(lang) in text
  {
    var pp := PeriodPositions(text, lang);
    PeriodPositionsSpec(text, lang);
    if |pp| > 0 {
      assert text[pp[0]] == Terminator(lang);
    }
    if Terminator(lang) in text {
      var i :| 0 <= i < |text| && text[i] == Terminator(lang);
      assert i in pp;
    }
  }

  /** Splicing at any offset loses no character of the text and adds exactly
      the wrapped noise. */
  lemma SpliceAtKeeps(t: Text, at: nat, noiseNeedle: Text)
    ensures multiset(SpliceAt(t, at, noiseNeedle)) == multiset(t) + multiset(Wrap(noiseNeedle))
  {
    var a := if at <= |t| then at else |t|;
    assert SpliceAt(t, at, noiseNeedle) == t[..a] + Wrap(noiseNeedle) + t[a..];
    InsertKeeps(t, a, Wrap(noiseNeedle));
  }

  /** Putting `w` between the two halves of `t` adds exactly `w`'s characters. */
  lemma InsertKeeps(t: Text, a: nat, w: Text)
    requires a <= |t|
    ensures multiset(t[..a] + w + t[a..]) == multiset(t) + multiset(w)
  {
    assert t == t[..a] + t[a..];
  }

  lemma PeriodPickAt(text: Text, lang: Lang, pick: nat)
    requires PeriodPick(text, lang, pick) && |PeriodPositions(text, lang)| > 0
    ensures pick < |text| && text[pick] == Terminator(lang)
  {
    var pp := PeriodPositions(text, lang);
    PeriodPositionsSpec(text, lang);
    assert text[pp[0]] in text;
  }

  /** A successful insertion splices both texts after the chosen terminator. */
  lemma InsertAfterPeriodOk(inputText: Text, text: Text, noiseNeedle: Text, lang: Lang,
                            startIdx: nat, pick: nat)
    requires PeriodPick(text, lang, pick)
    requires InsertAfterRandomPeriod(inputText, text, noiseNeedle, lang, startIdx, pick).Ok?
    ensures pick < |text| && text[pick] == Terminator(lang)
    ensures InsertAfterRandomPeriod(inputText, text, noiseNeedle, lang, startIdx, pick)
         == Ok((SpliceAt(inputText, pick + startIdx + 1, noiseNeedle), SpliceAt(text, pick + 1, noiseNeedle)))
  {
    PeriodPickAt(text, lang, pick);
  }

  /** The only error: the shard holds no terminator at all. The scan looks at
      the document shard only, never at the prompt shard. */
  lemma InsertAfterPeriodErrors(inputText: Text, text: Text, noiseNeedle: Text, lang: Lang,
                                startIdx: nat, pick: nat)
    requires PeriodPick(text, lang, pick)
    ensures var r := InsertAfterRandomPeriod(inputText, text, noiseNeedle, lang, startIdx, pick);
      && (r.Err? <==> forall i :: 0 <= i < |text| ==> text[i] != Terminator(lang))
      && (r.Err? ==> r.error == NoPeriods)
  {
    var pp := PeriodPositions(text, lang);
    PeriodPositionsSpec(text, lang);
    if |pp| > 0 {
      assert text[pp[0]] == Terminator(lang);
    }
  }

  /** `result_2` is the shard with the wrapped noise just after the chosen
      terminator: cutting the wrap out gives the shard back, and the shard
      grows by |noise| + 2. */
  lemma InsertAfterPeriodDoc(inputText: Text, text: Text, noiseNeedle: Text, lang: Lang,
                             startIdx: nat, pick: nat)
    requires PeriodPick(text, lang, pick)
    requires InsertAfterRandomPeriod(inputText, text, noiseNeedle, lang, startIdx, pick).Ok?
    ensures var r2 := InsertAfterRandomPeriod(inputText, text, noiseNeedle, lang, startIdx, pick).value.1;
      var w := Wrap(noiseNeedle);
      && pick < |text| && text[pick] == Terminator(lang)
      && |r2| == |text| + |noiseNeedle| + 2
      && r2[pick] == Terminator(lang)
      && r2[pick + 1..pick + 1 + |w|] == w
      && r2[..pick + 1] + r2[pick + 1 + |w|..] == text
  {
    PeriodPickAt(text, lang, pick);
    var w := Wrap(noiseNeedle);
    assert InsertAfterRandomPeriod(inputText, text, noiseNeedle, lang, startIdx, pick).value.1
        == text[..pick + 1] + w + text[pick + 1..] by {
      SpliceAtInside(text, pick + 1, noiseNeedle);
    }
    SplicedParts(text, pick + 1, w);
  }

  /** The pieces of a text with `w` spliced in at `at`. */
  lemma SplicedParts(text: Text, at: nat, w: Text)
    requires at <= |text|
    ensures var r := text[..at] + w + text[at..];
      && |r| == |text| + |w|
      && (at > 0 ==> r[at - 1] == text[at - 1])
      && r[at..at + |w|] == w
      && r[..at] + r[at + |w|..] == text
  {
    var r := text[..at] + w + text[at..];
    assert r[..at] == text[..at];
    assert r[at + |w|..] == text[at..];
    assert text[..at] + text[at..] == text;
  }

  /** Splicing inside the middle part of `p + t + s`. */
  lemma SpliceAtFrame(input: Text, p: Text, t: Text, s: Text, at: nat, m: nat, noiseNeedle: Text)
    requires input == p + t + s && m <= |t| && at == |p| + m
    ensures SpliceAt(input, at, noiseNeedle) == p + SpliceAt(t, m, noiseNeedle) + s
  {
    var w := Wrap(noiseNeedle);
    assert SpliceAt(t, m, noiseNeedle) == t[..m] + w + t[m..] by {
      SpliceAtInside(t, m, noiseNeedle);
    }
    assert SpliceAt(input, at, noiseNeedle) == (p + t[..m]) + w + (t[m..] + s) by {
      SpliceAtInside(input, at, noiseNeedle);
      FrameCut(input, p, t, s, at, m);
    }
    Regroup(p, t[..m], w, t[m..], s);
  }

  lemma FrameCut(input: Text, p: Text, t: Text, s: Text, at: nat, m: nat)
    requires input == p + t + s && m <= |t| && at == |p| + m
    ensures input[..at] == p + t[..m]
    ensures input[at..] == t[m..] + s
  {
  }

  /** The two frames: when the prompt shard is the document shard between a
      prefix of length `start_idx` and a suffix, `result_1` is `result_2`
      between them. */
  lemma InsertAfterPeriodFrames(p: Text, text: Text, s: Text, noiseNeedle: Text, lang: Lang, pick: nat)
    requires PeriodPick(text, lang, pick)
    requires InsertAfterRandomPeriod(p + text + s, text, noiseNeedle, lang, |p|, pick).Ok?
    ensures var r := InsertAfterRandomPeriod(p + text + s, text, noiseNeedle, lang, |p|, pick).value;
      r.0 == p + r.1 + s
  {
    InsertAfterPeriodOk(p + text + s, text, noiseNeedle, lang, |p|, pick);
    PairFrame(p, text, s, noiseNeedle, pick + 1,
              InsertAfterRandomPeriod(p + text + s, text, noiseNeedle, lang, |p|, pick).value);
  }

  /** The pair of splices at the same place of the document, in both frames. */
  lemma PairFrame(p: Text, text: Text, s: Text, noiseNeedle: Text, m: nat, r: (Text, Text))
    requires m <= |text|
    requires r == (SpliceAt(p + text + s, |p| + m, noiseNeedle), SpliceAt(text, m, noiseNeedle))
    ensures r.0 == p + r.1 + s
  {
    SpliceAtFrame(p + text + s, p, text, s, |p| + m, m, noiseNeedle);
  }

  // ---------------------------------------------------------------------
  // insert_needles_to_text_new

  /** `range(n)` */
  function ShardIds(n: nat): (r: seq<nat>)
    ensures |r| == n
    ensures forall i :: 0 <= i < n ==> r[i] == i
  {
    seq(n, i requires 0 <= i < n => i as nat)
  }

  /** The `random.sample(range(len(text_list)), len(noise_needles))` draw,
      whenever the call does not raise. */
  predicate TargetsFit(n: nat, noiseNeedles: seq<Text>, targets: seq<nat>)
  {
    |noiseNeedles| <= n ==> IsSample(targets, ShardIds(n), |noiseNeedles|)
  }

  /** The `random.choice(periods)` draws, one per shard. */
  predicate PicksFit(textList: seq<Text>, lang: Lang, picks: seq<nat>)
  {
    |picks| == |textList| && forall i :: 0 <= i < |textList| ==> PeriodPick(textList[i], lang, picks[i])
  }

  /** `{index: noise_needle for index, noise_needle in zip(targets, noise_needles)}` */
  function NoiseDict(targets: seq<nat>, noiseNeedles: seq<Text>): map<nat, Text>
    requires |targets| == |noiseNeedles|
  {
    if |targets| == 0 then map[]
    else NoiseDict(targets[..|targets| - 1], noiseNeedles[..|targets| - 1])[targets[|targets| - 1] := noiseNeedles[|targets| - 1]]
  }

  /** With distinct targets the dictionary maps the k-th target to the k-th
      noise sentence and has no other key. */
  lemma {:induction false} NoiseDictAt(targets: seq<nat>, noiseNeedles: seq<Text>)
    requires |targets| == |noiseNeedles| && Distinct(targets)
    ensures forall x :: x in NoiseDict(targets, noiseNeedles) <==> x in targets
    ensures forall k :: 0 <= k < |targets| ==> NoiseDict(targets, noiseNeedles)[targets[k]] == noiseNeedles[k]
  {
    if |targets| > 0 {
      var n := |targets| - 1;
      var front, noiseFront := targets[..n], noiseNeedles[..n];
      assert Distinct(front);
      NoiseDictAt(front, noiseFront);
      var d := NoiseDict(targets, noiseNeedles);
      assert d == NoiseDict(front, noiseFront)[targets[n] := noiseNeedles[n]];
      assert targets == front + [targets[n]];
      forall k | 0 <= k < |targets| ensures d[targets[k]] == noiseNeedles[k] {
        if k < n {
          assert targets[k] != targets[n];
          assert front[k] == targets[k] && noiseFront[k] == noiseNeedles[k];
        }
      }
    }
  }

  /** The offset passed for shard `i`: only the first shard carries the prefix. */
  function StartFor(i: nat, startIndex: nat): nat
  {
    if i == 0 then startIndex else 0
  }

  /** One pass of the loop body: shard `i` gets its noise sentence if it is a target. */
  function NoisyShard(inputShard: Text, shard: Text, i: nat, targets: seq<nat>, noiseDict: map<nat, Text>,
                      start: nat, lang: Lang, pick: nat): Result<(Text, Text)>
    requires i in targets ==> i in noiseDict
  {
    if i in targets then InsertAfterRandomPeriod(inputShard, shard, noiseDict[i], lang, start, pick)
    else Ok((inputShard, shard))
  }

  /** Every key the loop looks up is in the dictionary. */
  predicate Covers(targets: seq<nat>, noiseDict: map<nat, Text>)
  {
    forall x :: x in targets ==> x in noiseDict
  }

  /** The first `n` shards of both frames after the noise pass; the first
      shard without a terminator that is a target raises. */
  function NoisyAll(inputTextList: seq<Text>, textList: seq<Text>, targets: seq<nat>, noiseDict: map<nat, Text>,
                    startIndex: nat, lang: Lang, picks: seq<nat>, n: nat): (r: Result<(seq<Text>, seq<Text>)>)
    requires |inputTextList| == |textList| && |picks| == |textList| && n <= |textList|
    requires Covers(targets, noiseDict)
    ensures r.Ok? ==> |r.value.0| == n && |r.value.1| == n
  {
    if n == 0 then Ok(([], []))
    else
      var prev := NoisyAll(inputTextList, textList, targets, noiseDict, startIndex, lang, picks, n - 1);
      if prev.Err? then prev
      else
        var cur := NoisyShard(inputTextList[n - 1], textList[n - 1], n - 1, targets, noiseDict,
                              StartFor(n - 1, startIndex), lang, picks[n - 1]);
        if cur.Err? then Err(cur.error)
        else Ok((prev.value.0 + [cur.value.0], prev.value.1 + [cur.value.1]))
  }

  /** `str_list`: each shard followed by its needle, the empty needle (the
      appended `""`, or any empty needle of the caller) being skipped. */
  function Weave(shards: seq<Text>, needles: seq<Text>): (r: seq<Text>)
    requires |shards| == |needles|
    ensures |r| >= |shards|
  {
    if |shards| == 0 then []
    else [shards[0]] + Kept(needles[0]) + Weave(shards[1..], needles[1..])
  }

  /** A needle as it enters `str_list`: `if needle != ""`. */
  function Kept(needle: Text): seq<Text>
  {
    if needle != "" then [needle] else []
  }

  /** The noise pass over all shards, with the dictionary built from the targets. */
  function Noisy(inputTextList: seq<Text>, textList: seq<Text>, noiseNeedles: seq<Text>, startIndex: nat, lang: Lang,
                 targets: seq<nat>, picks: seq<nat>): Result<(seq<Text>, seq<Text>)>
    requires |inputTextList| == |textList| && |noiseNeedles| <= |textList|
    requires TargetsFit(|textList|, noiseNeedles, targets) && PicksFit(textList, lang, picks)
  {
    NoiseDictAt(targets, noiseNeedles);
    NoisyAll(inputTextList, textList, targets, NoiseDict(targets, noiseNeedles), startIndex, lang, picks, |textList|)
  }

  /** `insert_needles_to_text_new(input_text_list, text_list, needles,
      noise_needles, start_index, lang)` with the sample of target shards as
      `targets` and the terminator chosen in each shard as `picks`. */
  function NoiseSplice(inputTextList: seq<Text>, textList: seq<Text>, needles: seq<Text>, noiseNeedles: seq<Text>,
                       startIndex: nat, lang: Lang, targets: seq<nat>, picks: seq<nat>): Result<(Text, Text)>
    requires TargetsFit(|textList|, noiseNeedles, targets) && PicksFit(textList, lang, picks)
  {
    if |inputTextList| != |textList| then Err(FrameCountMismatch)
    else if |textList| != |needles| + 1 then Err(ShardCountMismatch)
    else if |noiseNeedles| > |textList| then Err(SampleTooLarge)
    else
      var shards := Noisy(inputTextList, textList, noiseNeedles, startIndex, lang, targets, picks);
      if shards.Err? then Err(shards.error)
      else Ok((JoinLines(Weave(shards.value.0, needles + [""])), JoinLines(Weave(shards.value.1, needles + [""]))))
  }

  // ---------------------------------------------------------------------
  // The imperative original

  lemma {:induction false} WeaveSnoc(a: seq<Text>, b: seq<Text>, x: Text, y: Text)
    requires |a| == |b|
    ensures Weave(a + [x], b + [y]) == Weave(a, b) + [x] + Kept(y)
  {
    var a', b' := a + [x], b + [y];
    if |a| > 0 {
      var h := [a[0]] + Kept(b[0]);
      var rest := Weave(a[1..], b[1..]);
      assert Weave(a'[1..], b'[1..]) == rest + [x] + Kept(y) by {
        assert a'[1..] == a[1..] + [x] && b'[1..] == b[1..] + [y];
        WeaveSnoc(a[1..], b[1..], x, y);
      }
      assert a'[0] == a[0] && b'[0] == b[0];
      WeaveCons(a', b', h, rest + [x] + Kept(y));
      WeaveCons(a, b, h, rest);
      PartsAssoc(h, rest, [x], Kept(y));
    } else {
      assert a' == [x] && b' == [y];
      assert Weave(a', b') == [x] + Kept(y) + Weave([], []);
    }
  }

  /** The weave is the head shard, its kept needle, and the weave of the rest. */
  lemma WeaveCons(a: seq<Text>, b: seq<Text>, h: seq<Text>, rest: seq<Text>)
    requires |a| == |b| > 0 && h == [a[0]] + Kept(b[0]) && Weave(a[1..], b[1..]) == rest
    ensures Weave(a, b) == h + rest
  {
  }

  lemma PartsAssoc(h: seq<Text>, r: seq<Text>, u: seq<Text>, v: seq<Text>)
    ensures h + (r + u + v) == h + r + u + v
  {
  }

  /** An error met at some shard is the error of the whole pass. */
  lemma {:induction false} NoisyAllErrStays(inputTextList: seq<Text>, textList: seq<Text>, targets: seq<nat>,
                                            noiseDict: map<nat, Text>, startIndex: nat, lang: Lang, picks: seq<nat>,
                                            n: nat, m: nat)
    requires |inputTextList| == |textList| && |picks| == |textList| && n <= m <= |textList|
    requires Covers(targets, noiseDict)
    requires NoisyAll(inputTextList, textList, targets, noiseDict, startIndex, lang, picks, n).Err?
    ensures NoisyAll(inputTextList, textList, targets, noiseDict, startIndex, lang, picks, m)
         == NoisyAll(inputTextList, textList, targets, noiseDict, startIndex, lang, picks, n)
    decreases m - n
  {
    if n < m {
      NoisyAllErrStays(inputTextList, textList, targets, noiseDict, startIndex, lang, picks, n, m - 1);
    }
  }

  /** One loop iteration: the shard of both frames, with its noise sentence
      if it is a target, then its needle unless empty. */
  method NoiseStep(inputTextList: seq<Text>, textList: seq<Text>, targets: seq<nat>, noiseDict: map<nat, Text>,
                   startIndex: nat, lang: Lang, picks: seq<nat>, ext: seq<Text>, i: nat,
                   strListInput: seq<Text>, strListText: seq<Text>)
    returns (r: Result<(seq<Text>, seq<Text>)>)
    requires |inputTextList| == |textList| == |ext| && |picks| == |textList| && i < |textList|
    requires Covers(targets, noiseDict)
    requires NoisyAll(inputTextList, textList, targets, noiseDict, startIndex, lang, picks, i).Ok?
    requires strListInput == Weave(NoisyAll(inputTextList, textList, targets, noiseDict, startIndex, lang, picks, i).value.0, ext[..i])
    requires strListText == Weave(NoisyAll(inputTextList, textList, targets, noiseDict, startIndex, lang, picks, i).value.1, ext[..i])
    ensures var next := NoisyAll(inputTextList, textList, targets, noiseDict, startIndex, lang, picks, i + 1);
      && (r.Err? <==> next.Err?)
      && (r.Err? ==> r.error == next.error)
      && (r.Ok? ==> r.value.0 == Weave(next.value.0, ext[..i + 1]) && r.value.1 == Weave(next.value.1, ext[..i + 1]))
  {
    ghost var prev := NoisyAll(inputTextList, textList, targets, noiseDict, startIndex, lang, picks, i).value;
    ghost var cur := NoisyShard(inputTextList[i], textList[i], i, targets, noiseDict, StartFor(i, startIndex), lang, picks[i]);
    NoisyAllNext(inputTextList, textList, targets, noiseDict, startIndex, lang, picks, i);
    var subInputText := inputTextList[i];
    var subText := textList[i];
    if i in targets {
      var inserted;
      if i == 0 {
        inserted := InsertAfterRandomPeriod(subInputText, subText, noiseDict[i], lang, startIndex, picks[i]);
      } else {
        inserted := InsertAfterRandomPeriod(subInputText, subText, noiseDict[i], lang, 0, picks[i]);
      }
      assert inserted == cur;
      if inserted.Err? {
        return Err(inserted.error);
      }
      subInputText, subText := inserted.value.0, inserted.value.1;
    }
    assert cur == Ok((subInputText, subText));
    var strInput := strListInput + [subInputText];
    var strText := strListText + [subText];
    if ext[i] != "" {
      strInput := strInput + [ext[i]];
      strText := strText + [ext[i]];
    }
    assert ext[..i + 1] == ext[..i] + [ext[i]];
    WeaveSnoc(prev.0, ext[..i], subInputText, ext[i]);
    WeaveSnoc(prev.1, ext[..i], subText, ext[i]);
    return Ok((strInput, strText));
  }

  /** One more shard of the noise pass, after a pass over the first `i` that succeeded. */
  lemma NoisyAllNext(inputTextList: seq<Text>, textList: seq<Text>, targets: seq<nat>, noiseDict: map<nat, Text>,
                     startIndex: nat, lang: Lang, picks: seq<nat>, i: nat)
    requires |inputTextList| == |textList| && |picks| == |textList| && i < |textList|
    requires Covers(targets, noiseDict)
    requires NoisyAll(inputTextList, textList, targets, noiseDict, startIndex, lang, picks, i).Ok?
    ensures var prev := NoisyAll(inputTextList, textList, targets, noiseDict, startIndex, lang, picks, i).value;
      var cur := NoisyShard(inputTextList[i], textList[i], i, targets, noiseDict, StartFor(i, startIndex), lang, picks[i]);
      NoisyAll(inputTextList, textList, targets, noiseDict, startIndex, lang, picks, i + 1)
        == if cur.Err? then Err(cur.error) else Ok((prev.0 + [cur.value.0], prev.1 + [cur.value.1]))
  {
  }

  /** The two `str_list`s of a pass over all shards, or its error. */
  function Woven(all: Result<(seq<Text>, seq<Text>)>, ext: seq<Text>): (r: Result<(seq<Text>, seq<Text>)>)
    requires all.Ok? ==> |all.value.0| == |ext| && |all.value.1| == |ext|
    ensures r.Err? <==> all.Err?
    ensures r.Err? ==> r.error == all.error
  {
    if all.Err? then Err(all.error) else Ok((Weave(all.value.0, ext), Weave(all.value.1, ext)))
  }

  /** The loop over the shards: `str_list_input` and `str_list_text`. */
  method NoiseLoop(inputTextList: seq<Text>, textList: seq<Text>, targets: seq<nat>, noiseDict: map<nat, Text>,
                   startIndex: nat, lang: Lang, picks: seq<nat>, ext: seq<Text>)
    returns (r: Result<(seq<Text>, seq<Text>)>)
    requires |inputTextList| == |textList| == |ext| && |picks| == |textList|
    requires Covers(targets, noiseDict)
    ensures r == Woven(NoisyAll(inputTextList, textList, targets, noiseDict, startIndex, lang, picks, |textList|), ext)
  {
    var strListInput: seq<Text> := [];
    var strListText: seq<Text> := [];
    ghost var done: (seq<Text>, seq<Text>) := ([], []);
    var i := 0;
    while i < |textList|
      invariant 0 <= i <= |textList|
      invariant NoisyAll(inputTextList, textList, targets, noiseDict, startIndex, lang, picks, i) == Ok(done)
      invariant strListInput == Weave(done.0, ext[..i]) && strListText == Weave(done.1, ext[..i])
    {
      var step := NoiseStep(inputTextList, textList, targets, noiseDict, startIndex, lang, picks, ext, i,
                            strListInput, strListText);
      if step.Err? {
        NoisyAllErrStays(inputTextList, textList, targets, noiseDict, startIndex, lang, picks, i + 1, |textList|);
        return Err(step.error);
      }
      strListInput, strListText := step.value.0, step.value.1;
      done := NoisyAll(inputTextList, textList, targets, noiseDict, startIndex, lang, picks, i + 1).value;
      i := i + 1;
    }
    assert ext[..i] == ext;
    return Ok((strListInput, strListText));
  }

  /** The imperative original: the two assertions, the sample of targets, the
      noise dictionary, the loop over the shards and the two newline joins. */
  method InsertNeedlesToTextNew(inputTextList: seq<Text>, textList: seq<Text>, needles: seq<Text>,
                                noiseNeedles: seq<Text>, startIndex: nat, lang: Lang,
                                targets: seq<nat>, picks: seq<nat>)
    returns (r: Result<(Text, Text)>)
    requires TargetsFit(|textList|, noiseNeedles, targets) && PicksFit(textList, lang, picks)
    ensures r == NoiseSplice(inputTextList, textList, needles, noiseNeedles, startIndex, lang, targets, picks)
  {
    if |inputTextList| != |textList| {
      return Err(FrameCountMismatch);
    }
    if |textList| != |needles| + 1 {
      return Err(ShardCountMismatch);
    }
    if |noiseNeedles| > |textList| {
      return Err(SampleTooLarge);
    }
    var noiseInsertIdList := targets;
    var noiseDict := NoiseDict(noiseInsertIdList, noiseNeedles);
    NoiseDictAt(noiseInsertIdList, noiseNeedles);
    var strLists := NoiseLoop(inputTextList, textList, noiseInsertIdList, noiseDict, startIndex, lang, picks, needles + [""]);
    if strLists.Err? {
      return Err(strLists.error);
    }
    var inputTextWithNeedles := JoinLines(strLists.value.0);
    var textWithNeedles := JoinLines(strLists.value.1);
    return Ok((inputTextWithNeedles, textWithNeedles));
  }

  // ---------------------------------------------------------------------
  // Properties of the noise pass

  /** Shard `i` of a successful pass is what the loop body makes of shard `i`. */
  lemma {:induction false} NoisyAllAt(inputTextList: seq<Text>, textList: seq<Text>, targets: seq<nat>,
                                      noiseDict: map<nat, Text>, startIndex: nat, lang: Lang, picks: seq<nat>,
                                      n: nat, i: nat)
    requires |inputTextList| == |textList| && |picks| == |textList| && n <= |textList|
    requires Covers(targets, noiseDict) && i < n
    requires NoisyAll(inputTextList, textList, targets, noiseDict, startIndex, lang, picks, n).Ok?
    ensures var cur := NoisyShard(inputTextList[i], textList[i], i, targets, noiseDict, StartFor(i, startIndex), lang, picks[i]);
      var all := NoisyAll(inputTextList, textList, targets, noiseDict, startIndex, lang, picks, n).value;
      && cur.Ok? && all.0[i] == cur.value.0 && all.1[i] == cur.value.1
  {
    if i < n - 1 {
      NoisyAllAt(inputTextList, textList, targets, noiseDict, startIndex, lang, picks, n - 1, i);
    }
  }

  /** The pass fails exactly when some target shard has no terminator, and
      then with `NoPeriods`. */
  lemma {:induction false} NoisyAllErr(inputTextList: seq<Text>, textList: seq<Text>, targets: seq<nat>,
                                       noiseDict: map<nat, Text>, startIndex: nat, lang: Lang, picks: seq<nat>, n: nat)
    requires |inputTextList| == |textList| && |picks| == |textList| && n <= |textList|
    requires Covers(targets, noiseDict)
    ensures var r := NoisyAll(inputTextList, textList, targets, noiseDict, startIndex, lang, picks, n);
      && (r.Err? <==> exists i :: 0 <= i < n && i in targets && |PeriodPositions(textList[i], lang)| == 0)
      && (r.Err? ==> r.error == NoPeriods)
  {
    if n > 0 {
      NoisyAllErr(inputTextList, textList, targets, noiseDict, startIndex, lang, picks, n - 1);
    }
  }

  /** With no empty needle the skipping weave is the plain alternation. */
  lemma {:induction false} WeaveAlternate(shards: seq<Text>, needles: seq<Text>)
    requires |shards| == |needles| + 1
    requires forall j :: 0 <= j < |needles| ==> needles[j] != ""
    ensures Weave(shards, needles + [""]) == Alternate(shards, needles)
    decreases |needles|
  {
    if |needles| == 0 {
      assert shards[1..] == [];
    } else {
      assert (needles + [""])[1..] == needles[1..] + [""];
      WeaveAlternate(shards[1..], needles[1..]);
    }
  }

  lemma JoinLinesHead(parts: seq<Text>, p: Text)
    requires |parts| > 0
    ensures JoinLines(parts[0 := p + parts[0]]) == p + JoinLines(parts)
  {
    assert parts[0 := p + parts[0]][1..] == parts[1..];
  }

  lemma {:induction false} JoinLinesLast(parts: seq<Text>, s: Text)
    requires |parts| > 0
    ensures JoinLines(parts[|parts| - 1 := parts[|parts| - 1] + s]) == JoinLines(parts) + s
  {
    var q := parts[|parts| - 1 := parts[|parts| - 1] + s];
    if |parts| > 1 {
      assert q[1..] == parts[1..][|parts| - 2 := parts[1..][|parts| - 2] + s];
      JoinLinesLast(parts[1..], s);
    }
  }

  lemma WeaveHead(shards: seq<Text>, needles: seq<Text>, p: Text)
    requires |shards| == |needles| > 0
    ensures Weave(shards, needles)[0] == shards[0]
    ensures Weave(shards[0 := p + shards[0]], needles)
         == Weave(shards, needles)[0 := p + Weave(shards, needles)[0]]
  {
    assert shards[0 := p + shards[0]][1..] == shards[1..];
  }

  lemma {:induction false} WeaveLast(shards: seq<Text>, needles: seq<Text>, s: Text)
    requires |shards| == |needles| > 0 && needles[|needles| - 1] == ""
    ensures var w := Weave(shards, needles);
      && w[|w| - 1] == shards[|shards| - 1]
      && Weave(shards[|shards| - 1 := shards[|shards| - 1] + s], needles) == w[|w| - 1 := w[|w| - 1] + s]
  {
    var n := |shards| - 1;
    var q := shards[n := shards[n] + s];
    if n > 0 {
      assert q[1..] == shards[1..][n - 1 := shards[1..][n - 1] + s];
      WeaveLast(shards[1..], needles[1..], s);
    } else {
      assert q[1..] == [] && shards[1..] == [];
    }
  }

  /** Joining the weave of embedded shards gives the prefix, the joined weave
      and the suffix. */
  lemma JoinWeaveEmbed(shards: seq<Text>, needles: seq<Text>, p: Text, s: Text)
    requires |shards| == |needles| > 0 && needles[|needles| - 1] == ""
    ensures JoinLines(Weave(Embed(shards, p, s), needles)) == p + JoinLines(Weave(shards, needles)) + s
  {
    var b := shards[0 := p + shards[0]];
    assert Embed(shards, p, s) == b[|b| - 1 := b[|b| - 1] + s];
    WeaveLast(b, needles, s);
    JoinLinesLast(Weave(b, needles), s);
    WeaveHead(shards, needles, p);
    JoinLinesHead(Weave(shards, needles), p);
  }

  /** The frames of one shard. */
  lemma NoisyShardFrame(inputShard: Text, p: Text, shard: Text, s: Text, i: nat, targets: seq<nat>,
                        noiseDict: map<nat, Text>, lang: Lang, pick: nat)
    requires PeriodPick(shard, lang, pick) && (i in targets ==> i in noiseDict)
    requires inputShard == p + shard + s
    requires NoisyShard(inputShard, shard, i, targets, noiseDict, |p|, lang, pick).Ok?
    ensures var r := NoisyShard(inputShard, shard, i, targets, noiseDict, |p|, lang, pick).value;
      r.0 == p + r.1 + s
  {
    if i in targets {
      InsertAfterPeriodFrames(p, shard, s, noiseDict[i], lang, pick);
    }
  }

  /** Shard `i` of the prompt frame, written with one prefix and one suffix. */
  lemma EmbedAt(shards: seq<Text>, p: Text, s: Text, i: nat)
    requires i < |shards|
    ensures Embed(shards, p, s)[i] == (if i == 0 then p else []) + shards[i] + (if i == |shards| - 1 then s else [])
  {
    var e := Embed(shards, p, s);
    if i == 0 && i == |shards| - 1 {
      assert e[i] == p + shards[i] + s;
    } else if i == 0 {
      assert e[i] == p + shards[i];
      assert p + shards[i] + [] == p + shards[i];
    } else if i == |shards| - 1 {
      assert e[i] == shards[i] + s;
      assert [] + shards[i] + s == shards[i] + s;
    } else {
      assert e[i] == shards[i];
      assert [] + shards[i] + [] == shards[i];
    }
  }

  /** The frames of shard `i` of the pass. */
  lemma NoisyFrameAt(inputTextList: seq<Text>, textList: seq<Text>, targets: seq<nat>, noiseDict: map<nat, Text>,
                     p: Text, s: Text, lang: Lang, picks: seq<nat>, i: nat)
    requires |textList| > 0 && inputTextList == Embed(textList, p, s) && PicksFit(textList, lang, picks)
    requires Covers(targets, noiseDict) && i < |textList|
    requires NoisyAll(inputTextList, textList, targets, noiseDict, |p|, lang, picks, |textList|).Ok?
    ensures var all := NoisyAll(inputTextList, textList, targets, noiseDict, |p|, lang, picks, |textList|).value;
      all.0[i] == (if i == 0 then p else []) + all.1[i] + (if i == |textList| - 1 then s else [])
  {
    var n := |textList|;
    NoisyAllAt(inputTextList, textList, targets, noiseDict, |p|, lang, picks, n, i);
    var pre: Text := if i == 0 then p else [];
    var post: Text := if i == n - 1 then s else [];
    EmbedAt(textList, p, s, i);
    NoisyShardFrame(inputTextList[i], pre, textList[i], post, i, targets, noiseDict, lang, picks[i]);
  }

  /** The frames of the whole pass: when the prompt shards embed the document
      shards and `start_index` is the length of the prefix, the noisy prompt
      shards embed the noisy document shards. */
  lemma NoisyFrames(inputTextList: seq<Text>, textList: seq<Text>, targets: seq<nat>, noiseDict: map<nat, Text>,
                    p: Text, s: Text, lang: Lang, picks: seq<nat>)
    requires |textList| > 0 && inputTextList == Embed(textList, p, s) && PicksFit(textList, lang, picks)
    requires Covers(targets, noiseDict)
    requires NoisyAll(inputTextList, textList, targets, noiseDict, |p|, lang, picks, |textList|).Ok?
    ensures var all := NoisyAll(inputTextList, textList, targets, noiseDict, |p|, lang, picks, |textList|).value;
      all.0 == Embed(all.1, p, s)
  {
    var n := |textList|;
    var all := NoisyAll(inputTextList, textList, targets, noiseDict, |p|, lang, picks, n).value;
    var e := Embed(all.1, p, s);
    forall i | 0 <= i < n ensures all.0[i] == e[i] {
      NoisyFrameAt(inputTextList, textList, targets, noiseDict, p, s, lang, picks, i);
    }
  }

  /** The errors of `insert_needles_to_text_new`: the two assertions, a sample
      larger than the shard list, and a target shard without a terminator. */
  lemma NoiseSpliceErrors(inputTextList: seq<Text>, textList: seq<Text>, needles: seq<Text>, noiseNeedles: seq<Text>,
                          startIndex: nat, lang: Lang, targets: seq<nat>, picks: seq<nat>)
    requires TargetsFit(|textList|, noiseNeedles, targets) && PicksFit(textList, lang, picks)
    ensures var r := NoiseSplice(inputTextList, textList, needles, noiseNeedles, startIndex, lang, targets, picks);
      var counts := |inputTextList| == |textList| && |textList| == |needles| + 1;
      var barren := exists k :: 0 <= k < |targets| && targets[k] < |textList| && |PeriodPositions(textList[targets[k]], lang)| == 0;
      && (r == Err(FrameCountMismatch) <==> |inputTextList| != |textList|)
      && (r == Err(ShardCountMismatch) <==> |inputTextList| == |textList| && |textList| != |needles| + 1)
      && (r == Err(SampleTooLarge) <==> counts && |noiseNeedles| > |textList|)
      && (r == Err(NoPeriods) <==> counts && |noiseNeedles| <= |textList| && barren)
      && (r.Ok? <==> counts && |noiseNeedles| <= |textList| && !barren)
  {
    if |inputTextList| == |textList| && |textList| == |needles| + 1 && |noiseNeedles| <= |textList| {
      NoiseDictAt(targets, noiseNeedles);
      var n := |textList|;
      NoisyAllErr(inputTextList, textList, targets, NoiseDict(targets, noiseNeedles), startIndex, lang, picks, n);
      forall k | 0 <= k < |targets| ensures targets[k] < n {
        assert targets[k] in ShardIds(n);
      }
    }
  }

  /** A successful call ran the noise pass to the end over distinct target
      shards, one per noise sentence. */
  lemma NoiseSpliceOk(inputTextList: seq<Text>, textList: seq<Text>, needles: seq<Text>, noiseNeedles: seq<Text>,
                      startIndex: nat, lang: Lang, targets: seq<nat>, picks: seq<nat>)
    requires TargetsFit(|textList|, noiseNeedles, targets) && PicksFit(textList, lang, picks)
    requires NoiseSplice(inputTextList, textList, needles, noiseNeedles, startIndex, lang, targets, picks).Ok?
    ensures |inputTextList| == |textList| == |needles| + 1
    ensures |noiseNeedles| == |targets| <= |textList| && Distinct(targets)
    ensures forall k :: 0 <= k < |targets| ==> targets[k] < |textList|
    ensures Noisy(inputTextList, textList, noiseNeedles, startIndex, lang, targets, picks).Ok?
  {
    forall k | 0 <= k < |targets| ensures targets[k] < |textList| {
      assert targets[k] in ShardIds(|textList|);
    }
  }

  /** Shards that are not targets come out unchanged in both frames. */
  lemma NoiseSpliceUntouched(inputTextList: seq<Text>, textList: seq<Text>, needles: seq<Text>, noiseNeedles: seq<Text>,
                             startIndex: nat, lang: Lang, targets: seq<nat>, picks: seq<nat>, i: nat)
    requires TargetsFit(|textList|, noiseNeedles, targets) && PicksFit(textList, lang, picks)
    requires NoiseSplice(inputTextList, textList, needles, noiseNeedles, startIndex, lang, targets, picks).Ok?
    requires i < |textList| && i !in targets
    ensures |inputTextList| == |textList| && |noiseNeedles| <= |textList|
    ensures var all := Noisy(inputTextList, textList, noiseNeedles, startIndex, lang, targets, picks);
      all.Ok? && all.value.0[i] == inputTextList[i] && all.value.1[i] == textList[i]
  {
    NoiseSpliceOk(inputTextList, textList, needles, noiseNeedles, startIndex, lang, targets, picks);
    NoiseDictAt(targets, noiseNeedles);
    NoisyAllAt(inputTextList, textList, targets, NoiseDict(targets, noiseNeedles), startIndex, lang, picks, |textList|, i);
  }

  /** Target shard `targets[k]` holds `noise_needles[k]`, wrapped, right after
      its chosen terminator, in both frames. */
  lemma NoiseSpliceTarget(inputTextList: seq<Text>, textList: seq<Text>, needles: seq<Text>, noiseNeedles: seq<Text>,
                          startIndex: nat, lang: Lang, targets: seq<nat>, picks: seq<nat>, k: nat)
    requires TargetsFit(|textList|, noiseNeedles, targets) && PicksFit(textList, lang, picks)
    requires NoiseSplice(inputTextList, textList, needles, noiseNeedles, startIndex, lang, targets, picks).Ok?
    requires k < |targets|
    ensures |inputTextList| == |textList| && |noiseNeedles| == |targets| <= |textList|
    ensures targets[k] < |textList| && Noisy(inputTextList, textList, noiseNeedles, startIndex, lang, targets, picks).Ok?
    ensures var t := targets[k]; picks[t] < |textList[t]| && textList[t][picks[t]] == Terminator(lang)
    ensures var t := targets[k]; var all := Noisy(inputTextList, textList, noiseNeedles, startIndex, lang, targets, picks).value;
      all.1[t] == textList[t][..picks[t] + 1] + Wrap(noiseNeedles[k]) + textList[t][picks[t] + 1..]
    ensures var t := targets[k]; var all := Noisy(inputTextList, textList, noiseNeedles, startIndex, lang, targets, picks).value;
      all.0[t] == SpliceAt(inputTextList[t], picks[t] + StartFor(t, startIndex) + 1, noiseNeedles[k])
  {
    var t := targets[k];
    var dict := NoiseDict(targets, noiseNeedles);
    NoiseSpliceShape(inputTextList, textList, needles, noiseNeedles, startIndex, lang, targets, picks, k);
    NoisyTarget(inputTextList, textList, targets, dict, startIndex, lang, picks, t,
                Noisy(inputTextList, textList, noiseNeedles, startIndex, lang, targets, picks).value);
  }

  /** What a successful noise splice tells about the `k`-th target: it is a
      shard, its noise is the `k`-th noise sentence, its pick is a terminator,
      and the noisy shard lists come from the loop over all shards. */
  lemma NoiseSpliceShape(inputTextList: seq<Text>, textList: seq<Text>, needles: seq<Text>, noiseNeedles: seq<Text>,
                         startIndex: nat, lang: Lang, targets: seq<nat>, picks: seq<nat>, k: nat)
    requires TargetsFit(|textList|, noiseNeedles, targets) && PicksFit(textList, lang, picks)
    requires NoiseSplice(inputTextList, textList, needles, noiseNeedles, startIndex, lang, targets, picks).Ok?
    requires k < |targets|
    ensures var t := targets[k]; var dict := NoiseDict(targets, noiseNeedles);
      var noisy := Noisy(inputTextList, textList, noiseNeedles, startIndex, lang, targets, picks);
      && |inputTextList| == |textList| && |noiseNeedles| == |targets| <= |textList| && t < |textList|
      && |picks| == |textList|
      && t in targets && Covers(targets, dict) && dict[t] == noiseNeedles[k]
      && noisy == NoisyAll(inputTextList, textList, targets, dict, startIndex, lang, picks, |textList|)
      && noisy.Ok? && PeriodPick(textList[t], lang, picks[t])
  {
    NoiseSpliceOk(inputTextList, textList, needles, noiseNeedles, startIndex, lang, targets, picks);
    NoiseDictAt(targets, noiseNeedles);
    var t := targets[k];
    assert PeriodPick(textList[t], lang, picks[t]);
  }

  /** A target shard of a successful pass has its noise sentence spliced in
      after its chosen terminator, in both frames. */
  lemma NoisyTarget(inputTextList: seq<Text>, textList: seq<Text>, targets: seq<nat>, noiseDict: map<nat, Text>,
                    startIndex: nat, lang: Lang, picks: seq<nat>, t: nat, all: (seq<Text>, seq<Text>))
    requires |inputTextList| == |textList| && |picks| == |textList| && t < |textList|
    requires Covers(targets, noiseDict) && t in targets && PeriodPick(textList[t], lang, picks[t])
    requires NoisyAll(inputTextList, textList, targets, noiseDict, startIndex, lang, picks, |textList|) == Ok(all)
    ensures picks[t] < |textList[t]| && textList[t][picks[t]] == Terminator(lang)
    ensures t < |all.0| && t < |all.1|
    ensures all.1[t] == textList[t][..picks[t] + 1] + Wrap(noiseDict[t]) + textList[t][picks[t] + 1..]
    ensures all.0[t] == SpliceAt(inputTextList[t], picks[t] + StartFor(t, startIndex) + 1, noiseDict[t])
  {
    var cur := NoisyShard(inputTextList[t], textList[t], t, targets, noiseDict, StartFor(t, startIndex), lang, picks[t]);
    NoisyAllAt(inputTextList, textList, targets, noiseDict, startIndex, lang, picks, |textList|, t);
    assert cur == InsertAfterRandomPeriod(inputTextList[t], textList[t], noiseDict[t], lang, StartFor(t, startIndex), picks[t]);
    InsertedShard(inputTextList[t], textList[t], noiseDict[t], lang, StartFor(t, startIndex), picks[t], cur.value);
  }

  /** A successful insertion, stated on its result pair. */
  lemma InsertedShard(inputText: Text, text: Text, noiseNeedle: Text, lang: Lang, startIdx: nat, pick: nat,
                      out: (Text, Text))
    requires PeriodPick(text, lang, pick)
    requires InsertAfterRandomPeriod(inputText, text, noiseNeedle, lang, startIdx, pick) == Ok(out)
    ensures pick < |text| && text[pick] == Terminator(lang)
    ensures out.1 == text[..pick + 1] + Wrap(noiseNeedle) + text[pick + 1..]
    ensures out.0 == SpliceAt(inputText, pick + startIdx + 1, noiseNeedle)
  {
    PeriodPickAt(text, lang, pick);
    SpliceAtInside(text, pick + 1, noiseNeedle);
  }

  /** With no empty needle the needles sit between the noisy shards in their
      order, in both frames. */
  lemma NoiseSpliceInterleave(inputTextList: seq<Text>, textList: seq<Text>, needles: seq<Text>, noiseNeedles: seq<Text>,
                              startIndex: nat, lang: Lang, targets: seq<nat>, picks: seq<nat>)
    requires TargetsFit(|textList|, noiseNeedles, targets) && PicksFit(textList, lang, picks)
    requires NoiseSplice(inputTextList, textList, needles, noiseNeedles, startIndex, lang, targets, picks).Ok?
    requires forall j :: 0 <= j < |needles| ==> needles[j] != ""
    ensures |inputTextList| == |textList| && |noiseNeedles| <= |textList|
    ensures var all := Noisy(inputTextList, textList, noiseNeedles, startIndex, lang, targets, picks);
      var r := NoiseSplice(inputTextList, textList, needles, noiseNeedles, startIndex, lang, targets, picks).value;
      && all.Ok?
      && r == (Interleave(all.value.0, needles), Interleave(all.value.1, needles))
  {
    NoiseSpliceOk(inputTextList, textList, needles, noiseNeedles, startIndex, lang, targets, picks);
    var all := Noisy(inputTextList, textList, noiseNeedles, startIndex, lang, targets, picks).value;
    WeaveAlternate(all.0, needles);
    WeaveAlternate(all.1, needles);
    JoinAlternate(all.0, needles);
    JoinAlternate(all.1, needles);
  }

  /** Without noise sentences and with no empty needle the call is the plain
      splice of both shard lists. */
  lemma NoiseSpliceNoNoise(inputTextList: seq<Text>, textList: seq<Text>, needles: seq<Text>,
                           startIndex: nat, lang: Lang, targets: seq<nat>, picks: seq<nat>)
    requires TargetsFit(|textList|, [], targets) && PicksFit(textList, lang, picks)
    requires |inputTextList| == |textList| == |needles| + 1
    requires forall j :: 0 <= j < |needles| ==> needles[j] != ""
    ensures NoiseSplice(inputTextList, textList, needles, [], startIndex, lang, targets, picks)
         == Ok((Interleave(inputTextList, needles), Interleave(textList, needles)))
  {
    NoiseSpliceErrors(inputTextList, textList, needles, [], startIndex, lang, targets, picks);
    NoiseSpliceInterleave(inputTextList, textList, needles, [], startIndex, lang, targets, picks);
    var all := Noisy(inputTextList, textList, [], startIndex, lang, targets, picks).value;
    forall i | 0 <= i < |textList| ensures all.0[i] == inputTextList[i] && all.1[i] == textList[i] {
      NoiseSpliceUntouched(inputTextList, textList, needles, [], startIndex, lang, targets, picks, i);
    }
    assert all.0 == inputTextList;
    assert all.1 == textList;
  }

  /** The two frames of `insert_needles_to_text_new`: only the first shard
      is given `start_index`, so when the prompt shards embed the document
      shards between a prefix of that length and a suffix, the prompt result
      is the document result between them. */
  lemma NoiseSpliceFrames(textList: seq<Text>, needles: seq<Text>, noiseNeedles: seq<Text>,
                          p: Text, s: Text, lang: Lang, targets: seq<nat>, picks: seq<nat>)
    requires |textList| == |needles| + 1
    requires TargetsFit(|textList|, noiseNeedles, targets) && PicksFit(textList, lang, picks)
    requires NoiseSplice(Embed(textList, p, s), textList, needles, noiseNeedles, |p|, lang, targets, picks).Ok?
    ensures var r := NoiseSplice(Embed(textList, p, s), textList, needles, noiseNeedles, |p|, lang, targets, picks).value;
      r.0 == p + r.1 + s
  {
    var input := Embed(textList, p, s);
    NoiseSpliceOk(input, textList, needles, noiseNeedles, |p|, lang, targets, picks);
    NoiseDictAt(targets, noiseNeedles);
    var dict := NoiseDict(targets, noiseNeedles);
    NoisyFrames(input, textList, targets, dict, p, s, lang, picks);
    var all := NoisyAll(input, textList, targets, dict, |p|, lang, picks, |textList|).value;
    JoinWeaveEmbed(all.1, needles + [""], p, s);
  }
}
