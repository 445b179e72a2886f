/** Shared vocabulary of the needle-placement engine: languages and their sentence
    terminators, the boundary scan, the error kinds, Python-style slicing of a text
    into shards at cut positions, the needle interleave, and the embedding of a
    document inside a prompt (the two coordinate frames). */
module TextBasics {

  type Text = seq<char>

  /** The two supported languages; each has its own sentence terminator. */
  datatype Lang = Zh | En

  /** The exceptions the scripts raise (ValueError, IndexError, AssertionError),
      one constructor per kind of failure, and `DrawsExhausted` for a reshuffle
      loop that has not stopped within the draws it was given. */
  datatype Error =
    | NoTerminator        // no terminator at all in the text
    | TooFewTerminators   // 80 or fewer terminators
    | SampleTooLarge      // random.sample asked for more items than the population
    | ShardCountMismatch  // an `assert len(...) == len(needles) + 1` failed
    | FrameCountMismatch  // `assert len(input_text_list) == len(text_list)` failed
    | NotATerminator      // period_positions.index(cut) found no such position
    | EmptyBox            // indexing or choosing from an empty index box
    | NoPeriods           // insert_after_random_period found no terminator in its shard
    | DrawsExhausted      // every given shuffle equals the anchor: the source keeps shuffling, it raises nothing

  datatype Result<T> = Ok(value: T) | Err(error: Error)

  function Terminator(lang: Lang): char
  {
    if lang == Zh then '。' else '.'
  }

  predicate StrictlyIncreasing(s: seq<int>)
  {
    forall i, j :: 0 <= i < j < |s| ==> s[i] < s[j]
  }

  predicate Distinct(s: seq<int>)
  {
    forall i, j :: 0 <= i < j < |s| ==> s[i] != s[j]
  }

  /** Every index of `text` holding the terminator of `lang`, in ascending order
      (the `re.finditer` / comprehension scan). */
  function PeriodPositions(text: Text, lang: Lang): (r: seq<nat>)
    ensures |r| <= |text|
  {
    if |text| == 0 then []
    else
      var front := PeriodPositions(text[..|text| - 1], lang);
      front + (if text[|text| - 1] == Terminator(lang) then [|text| - 1] else [])
  }

  /** The scan finds the terminators of the text, each once, in ascending order. */
  lemma {:induction false} PeriodPositionsSpec(text: Text, lang: Lang)
    ensures var r := PeriodPositions(text, lang);
      && StrictlyIncreasing(r)
      && (forall k :: 0 <= k < |r| ==> r[k] < |text| && text[r[k]] == Terminator(lang))
      && (forall i: nat :: i < |text| && text[i] == Terminator(lang) ==> i in r)
    decreases |text|
  {
    if |text| > 0 {
      var n := |text| - 1;
      var front := text[..n];
      PeriodPositionsSpec(front, lang);
      var f := PeriodPositions(front, lang);
      var r := PeriodPositions(text, lang);
      assert r == f + (if text[n] == Terminator(lang) then [n] else []);
      assert forall i: nat :: i < n ==> front[i] == text[i];
      assert forall k :: 0 <= k < |f| ==> f[k] < n;
    }
  }

  /** `''.join(parts)` */
  function Concat(parts: seq<Text>): Text
  {
    if |parts| == 0 then [] else parts[0] + Concat(parts[1..])
  }

  lemma {:induction false} ConcatSnoc(parts: seq<Text>, x: Text)
    ensures Concat(parts + [x]) == Concat(parts) + x
  {
    if |parts| == 0 {
      assert parts + [x] == [x];
    } else {
      assert (parts + [x])[1..] == parts[1..] + [x];
      ConcatSnoc(parts[1..], x);
    }
  }

  lemma {:induction false} ConcatAppend(a: seq<Text>, b: seq<Text>)
    ensures Concat(a + b) == Concat(a) + Concat(b)
    decreases |a|
  {
    if |a| == 0 {
      assert a + b == b;
    } else {
      assert (a + b)[1..] == a[1..] + b;
      ConcatAppend(a[1..], b);
    }
  }

  /** Python's `t[lo:hi]` for non-negative bounds: both bounds are clamped to the
      length and a reversed range is empty. */
  function PySlice(t: Text, lo: nat, hi: nat): Text
  {
    var a := if lo <= |t| then lo else |t|;
    var b := if hi <= |t| then hi else |t|;
    if a <= b then t[a..b] else []
  }

  /** The newline wrapping a needle receives when it is spliced in. */
  function Wrap(needle: Text): Text
  {
    "\n" + needle + "\n"
  }

  /** shard0 + "\n"+n0+"\n" + shard1 + ... + shard_k */
  function Interleave(shards: seq<Text>, needles: seq<Text>): Text
    requires |shards| == |needles| + 1
    decreases |needles|
  {
    if |needles| == 0 then shards[0]
    else shards[0] + Wrap(needles[0]) + Interleave(shards[1..], needles[1..])
  }

  /** Total number of characters the wrapped needles add: sum of |n_i| + 2. */
  function WrapTotal(needles: seq<Text>): nat
  {
    if |needles| == 0 then 0 else |needles[0]| + 2 + WrapTotal(needles[1..])
  }

  lemma {:induction false} InterleaveLength(shards: seq<Text>, needles: seq<Text>)
    requires |shards| == |needles| + 1
    ensures |Interleave(shards, needles)| == |Concat(shards)| + WrapTotal(needles)
  {
    if |needles| == 0 {
      assert shards[1..] == [];
    } else {
      InterleaveLength(shards[1..], needles[1..]);
    }
  }

  /** With no needle the interleave is the single shard. */
  lemma InterleaveNoNeedles(shards: seq<Text>)
    requires |shards| == 1
    ensures Interleave(shards, []) == Concat(shards)
  {
    assert shards[1..] == [];
  }

  // ---------------------------------------------------------------------
  // Turning cut positions into shards (`long_text[s+1:e+1]` over
  // [-1] + cuts + [len-1]).

  /** Start of shard i: 0, or just past the previous cut. */
  function Lo(cuts: seq<nat>, i: nat): nat
    requires i <= |cuts|
  {
    if i == 0 then 0 else cuts[i - 1] + 1
  }

  /** End (exclusive) of shard i: just past its own cut, or the end of the text. */
  function Hi(t: Text, cuts: seq<nat>, i: nat): nat
    requires i <= |cuts|
  {
    if i == |cuts| then |t| else cuts[i] + 1
  }

  /** The |cuts| + 1 shards the scripts build, each cut terminator closing its shard. */
  function PyShards(t: Text, cuts: seq<nat>): (r: seq<Text>)
    ensures |r| == |cuts| + 1
  {
    seq(|cuts| + 1, i requires 0 <= i <= |cuts| => PySlice(t, Lo(cuts, i), Hi(t, cuts, i)))
  }

  predicate CutsBelow(cuts: seq<nat>, n: nat)
  {
    forall k :: 0 <= k < |cuts| ==> cuts[k] < n
  }

  lemma SliceOfPrefix(t: Text, m: nat, lo: nat, hi: nat)
    requires m <= |t| && hi <= m
    ensures PySlice(t, lo, hi) == PySlice(t[..m], lo, hi)
  {
  }

  lemma ShardsSnoc(t: Text, cs: seq<nat>, c: nat)
    requires c < |t|
    requires forall k :: 0 <= k < |cs| ==> cs[k] <= c
    ensures PyShards(t, cs + [c]) == PyShards(t[..c + 1], cs) + [t[c + 1..]]
  {
    var cuts := cs + [c];
    var a := PyShards(t, cuts);
    var b := PyShards(t[..c + 1], cs) + [t[c + 1..]];
    forall i | 0 <= i < |a| ensures a[i] == b[i] {
      if i < |cs| {
        assert Lo(cuts, i) == Lo(cs, i);
        assert Hi(t, cuts, i) == cs[i] + 1 == Hi(t[..c + 1], cs, i);
        SliceOfPrefix(t, c + 1, Lo(cs, i), cs[i] + 1);
      } else if i == |cs| {
        assert Lo(cuts, i) == Lo(cs, i);
        assert Hi(t, cuts, i) == c + 1 == Hi(t[..c + 1], cs, i);
        SliceOfPrefix(t, c + 1, Lo(cs, i), c + 1);
      } else {
        assert Lo(cuts, i) == c + 1 && Hi(t, cuts, i) == |t|;
      }
    }
  }

  /** The round-trip law of a placement: the shards of strictly increasing cuts
      inside the text concatenate back to the text. */
  lemma {:induction false} ShardsConcat(t: Text, cuts: seq<nat>)
    requires StrictlyIncreasing(cuts) && CutsBelow(cuts, |t|)
    ensures Concat(PyShards(t, cuts)) == t
    decreases |cuts|
  {
    if |cuts| == 0 {
      assert PyShards(t, cuts)[0] == PySlice(t, 0, |t|) == t;
      assert PyShards(t, cuts) == [t];
      assert Concat([t]) == t + Concat([]);
    } else {
      var n := |cuts| - 1;
      var cs, c := cuts[..n], cuts[n];
      assert cuts == cs + [c];
      ShardsSnoc(t, cs, c);
      ShardsConcat(t[..c + 1], cs);
      ConcatSnoc(PyShards(t[..c + 1], cs), t[c + 1..]);
      assert t[..c + 1] + t[c + 1..] == t;
    }
  }

  /** Every shard but the last is non-empty and ends with its own cut character. */
  lemma ShardEndsAtCut(t: Text, cuts: seq<nat>, i: nat)
    requires StrictlyIncreasing(cuts) && CutsBelow(cuts, |t|)
    requires i < |cuts|
    ensures |PyShards(t, cuts)[i]| > 0
    ensures PyShards(t, cuts)[i][|PyShards(t, cuts)[i]| - 1] == t[cuts[i]]
  {
    assert i > 0 ==> cuts[i - 1] < cuts[i];
    assert PyShards(t, cuts)[i] == t[Lo(cuts, i)..cuts[i] + 1];
  }

  /** When every cut is a terminator, every shard but the last ends with one. */
  lemma TerminatedShards(t: Text, cuts: seq<nat>, lang: Lang)
    requires StrictlyIncreasing(cuts) && CutsBelow(cuts, |t|)
    requires forall k :: 0 <= k < |cuts| ==> t[cuts[k]] == Terminator(lang)
    ensures forall i :: 0 <= i < |cuts| ==>
      |PyShards(t, cuts)[i]| > 0 && PyShards(t, cuts)[i][|PyShards(t, cuts)[i]| - 1] == Terminator(lang)
  {
    forall i | 0 <= i < |cuts|
      ensures |PyShards(t, cuts)[i]| > 0
      ensures PyShards(t, cuts)[i][|PyShards(t, cuts)[i]| - 1] == Terminator(lang)
    {
      ShardEndsAtCut(t, cuts, i);
    }
  }

  /** The shard loop: `shard_text.append(long_text[s+1:e+1])` over consecutive
      bounds of `[-1] + cuts + [len(long_text)-1]`. */
  method CutShards(t: Text, cuts: seq<nat>) returns (shards: seq<Text>)
    ensures shards == PyShards(t, cuts)
  {
    var bounds: seq<int> := [-1] + cuts + [|t| - 1];
    assert forall k :: 0 <= k < |bounds| ==> bounds[k] >= -1;
    shards := [];
    var i := 0;
    while i < |bounds| - 1
      invariant 0 <= i <= |cuts| + 1
      invariant shards == PyShards(t, cuts)[..i]
    {
      var s, e := bounds[i], bounds[i + 1];
      assert s + 1 == Lo(cuts, i) && e + 1 == Hi(t, cuts, i);
      shards := shards + [PySlice(t, s + 1, e + 1)];
      i := i + 1;
    }
  }

  lemma InterleaveAt(shards: seq<Text>, needles: seq<Text>, i: nat)
    requires |shards| == |needles| + 1 && i < |needles|
    ensures Interleave(shards[i..], needles[i..])
         == shards[i] + Wrap(needles[i]) + Interleave(shards[i + 1..], needles[i + 1..])
  {
    assert shards[i..][1..] == shards[i + 1..];
    assert needles[i..][1..] == needles[i + 1..];
  }

  /** The accumulation loop: `new_text += shard + '\n' + needle + '\n'` over all
      but the last shard, then the last shard. */
  method SpliceShards(shards: seq<Text>, needles: seq<Text>) returns (newText: Text)
    requires |shards| == |needles| + 1
    ensures newText == Interleave(shards, needles)
  {
    newText := "";
    var i := 0;
    while i < |needles|
      invariant 0 <= i <= |needles|
      invariant newText + Interleave(shards[i..], needles[i..]) == Interleave(shards, needles)
    {
      InterleaveAt(shards, needles, i);
      newText := newText + shards[i] + "\n" + needles[i] + "\n";
      i := i + 1;
    }
    assert Interleave(shards[i..], needles[i..]) == shards[i];
    newText := newText + shards[|shards| - 1];
  }

  /** Python's `'\n'.join(parts)`. */
  function JoinLines(parts: seq<Text>): Text
  {
    if |parts| == 0 then []
    else if |parts| == 1 then parts[0]
    else parts[0] + "\n" + JoinLines(parts[1..])
  }

  /** `[shard0, needle0, shard1, ..., shard_k]` */
  function Alternate(shards: seq<Text>, needles: seq<Text>): (r: seq<Text>)
    requires |shards| == |needles| + 1
    ensures |r| == 2 * |needles| + 1
    decreases |needles|
  {
    if |needles| == 0 then [shards[0]]
    else [shards[0], needles[0]] + Alternate(shards[1..], needles[1..])
  }

  /** Joining the alternating list with newlines is the same splice as the
      accumulation loop. */
  lemma {:induction false} JoinAlternate(shards: seq<Text>, needles: seq<Text>)
    requires |shards| == |needles| + 1
    ensures JoinLines(Alternate(shards, needles)) == Interleave(shards, needles)
    decreases |needles|
  {
    if |needles| > 0 {
      var rest := Alternate(shards[1..], needles[1..]);
      var all := [shards[0], needles[0]] + rest;
      assert all[1..] == [needles[0]] + rest && all[1..][1..] == rest;
      JoinAlternate(shards[1..], needles[1..]);
    }
  }

  // ---------------------------------------------------------------------
  // Two coordinate frames: a document D sits inside a prompt P + D + S.

  /** `inner` occurs in `outer` at offset `off`. */
  predicate IsEmbedding(outer: Text, inner: Text, off: nat)
  {
    off + |inner| <= |outer| && outer[off..off + |inner|] == inner
  }

  lemma EmbeddingSplits(outer: Text, inner: Text, off: nat)
    requires IsEmbedding(outer, inner, off)
    ensures outer == outer[..off] + inner + outer[off + |inner|..]
  {
    assert outer == outer[..off] + outer[off..off + |inner|] + outer[off + |inner|..];
  }

  /** Every cut shifted by `off`: `[idx + start_idx for idx in ...]`. */
  function Shift(cuts: seq<nat>, off: nat): (r: seq<nat>)
    ensures |r| == |cuts|
  {
    seq(|cuts|, i requires 0 <= i < |cuts| => cuts[i] + off)
  }

  /** Shards of the prompt: the first carries the prefix, the last the suffix. */
  function Embed(shards: seq<Text>, p: Text, s: Text): (r: seq<Text>)
    requires |shards| > 0
    ensures |r| == |shards|
    ensures |shards| == 1 ==> r[0] == p + shards[0] + s
    ensures |shards| > 1 ==> r[0] == p + shards[0] && r[|r| - 1] == shards[|r| - 1] + s
    ensures forall i :: 0 < i < |shards| - 1 ==> r[i] == shards[i]
  {
    var a := shards[0 := p + shards[0]];
    a[|a| - 1 := a[|a| - 1] + s]
  }

  lemma EmbedTail(shards: seq<Text>, p: Text, s: Text)
    requires |shards| > 1
    ensures Embed(shards, p, s)[0] == p + shards[0]
    ensures Embed(shards, p, s)[1..] == Embed(shards[1..], [], s)
  {
    var l, r := Embed(shards, p, s)[1..], Embed(shards[1..], [], s);
    assert |l| == |r|;
    forall i | 0 <= i < |l| ensures l[i] == r[i] {
      if i == |l| - 1 {
        assert l[i] == shards[i + 1] + s;
      } else {
        assert l[i] == shards[i + 1];
      }
    }
  }

  /** Splicing the embedded shards gives the prefix, the spliced document and the suffix. */
  lemma {:induction false} InterleaveEmbed(shards: seq<Text>, needles: seq<Text>, p: Text, s: Text)
    requires |shards| == |needles| + 1
    ensures Interleave(Embed(shards, p, s), needles) == p + Interleave(shards, needles) + s
    decreases |needles|
  {
    if |needles| == 0 {
      assert Embed(shards, p, s)[0] == p + shards[0] + s;
    } else {
      var tail := Interleave(shards[1..], needles[1..]);
      var rest := Interleave(Embed(shards[1..], [], s), needles[1..]);
      assert rest == tail + s by {
        InterleaveEmbed(shards[1..], needles[1..], [], s);
        assert [] + tail + s == tail + s;
      }
      EmbedTail(shards, p, s);
      InterleaveHead(Embed(shards, p, s), needles, p + shards[0], rest);
      assert Interleave(shards, needles) == shards[0] + Wrap(needles[0]) + tail;
      Regroup(p, shards[0], Wrap(needles[0]), tail, s);
    }
  }

  /** One step of the splice, stated on its pieces. */
  lemma InterleaveHead(e: seq<Text>, needles: seq<Text>, head: Text, rest: Text)
    requires |e| == |needles| + 1 && |needles| > 0
    requires e[0] == head && Interleave(e[1..], needles[1..]) == rest
    ensures Interleave(e, needles) == head + Wrap(needles[0]) + rest
  {
  }

  /** Concatenation regrouped around a middle piece. */
  lemma Regroup(a: Text, b: Text, w: Text, c: Text, d: Text)
    ensures (a + b) + w + (c + d) == a + (b + w + c) + d
  {
  }

  /** The dual-coordinate law for shards: cutting the prompt at every document cut
      shifted by the prefix length gives the document's shards, the first one
      prefixed and the last one suffixed. The cuts need not be ordered. */
  lemma ShardsEmbed(p: Text, d: Text, s: Text, cuts: seq<nat>)
    requires CutsBelow(cuts, |d|)
    ensures PyShards(p + d + s, Shift(cuts, |p|)) == Embed(PyShards(d, cuts), p, s)
  {
    var t, sc := p + d + s, Shift(cuts, |p|);
    var l, r := PyShards(t, sc), Embed(PyShards(d, cuts), p, s);
    forall i | 0 <= i <= |cuts| ensures l[i] == r[i] {
      ShardEmbedAt(t, p, d, s, cuts, sc, i);
    }
  }

  lemma ShardEmbedAt(t: Text, p: Text, d: Text, s: Text, cuts: seq<nat>, sc: seq<nat>, i: nat)
    requires t == p + d + s && sc == Shift(cuts, |p|)
    requires CutsBelow(cuts, |d|) && i <= |cuts|
    ensures PyShards(t, sc)[i] == Embed(PyShards(d, cuts), p, s)[i]
  {
    var k := |cuts|;
    if k == 0 {
      OnlyShardAt(t, p, d, s, cuts, sc);
    } else if i == 0 {
      FirstShardAt(t, p, d, s, cuts, sc);
    } else if i == k {
      LastShardAt(t, p, d, s, cuts, sc);
    } else {
      MiddleShardAt(t, p, d, s, cuts, sc, i);
    }
  }

  lemma OnlyShardAt(t: Text, p: Text, d: Text, s: Text, cuts: seq<nat>, sc: seq<nat>)
    requires t == p + d + s && sc == Shift(cuts, |p|) && |cuts| == 0
    ensures PyShards(t, sc)[0] == p + PyShards(d, cuts)[0] + s
  {
    assert PyShards(t, sc)[0] == PySlice(t, 0, |t|) == t;
    assert PyShards(d, cuts)[0] == PySlice(d, 0, |d|) == d;
  }

  lemma FirstShardAt(t: Text, p: Text, d: Text, s: Text, cuts: seq<nat>, sc: seq<nat>)
    requires t == p + d + s && sc == Shift(cuts, |p|)
    requires CutsBelow(cuts, |d|) && |cuts| > 0
    ensures PyShards(t, sc)[0] == p + PyShards(d, cuts)[0]
  {
    var c := cuts[0];
    assert sc[0] == c + |p|;
    assert PyShards(t, sc)[0] == PySlice(t, 0, c + |p| + 1) == t[..c + |p| + 1];
    assert PyShards(d, cuts)[0] == PySlice(d, 0, c + 1) == d[..c + 1];
    assert t[..c + |p| + 1] == p + d[..c + 1];
  }

  lemma LastShardAt(t: Text, p: Text, d: Text, s: Text, cuts: seq<nat>, sc: seq<nat>)
    requires t == p + d + s && sc == Shift(cuts, |p|)
    requires CutsBelow(cuts, |d|) && |cuts| > 0
    ensures PyShards(t, sc)[|cuts|] == PyShards(d, cuts)[|cuts|] + s
  {
    var k := |cuts|;
    var c := cuts[k - 1];
    assert sc[k - 1] == c + |p|;
    assert PyShards(t, sc)[k] == PySlice(t, c + |p| + 1, |t|) == t[c + |p| + 1..];
    assert PyShards(d, cuts)[k] == PySlice(d, c + 1, |d|) == d[c + 1..];
    assert t[c + |p| + 1..] == d[c + 1..] + s;
  }

  lemma MiddleShardAt(t: Text, p: Text, d: Text, s: Text, cuts: seq<nat>, sc: seq<nat>, i: nat)
    requires t == p + d + s && sc == Shift(cuts, |p|)
    requires CutsBelow(cuts, |d|) && 0 < i < |cuts|
    ensures PyShards(t, sc)[i] == PyShards(d, cuts)[i]
  {
    var a, b := cuts[i - 1] + 1, cuts[i] + 1;
    assert Lo(sc, i) == |p| + a && Hi(t, sc, i) == |p| + b;
    assert Lo(cuts, i) == a && Hi(d, cuts, i) == b;
    SliceInMiddle(t, p, d, s, a, b);
  }

  lemma SliceInMiddle(t: Text, p: Text, d: Text, s: Text, a: nat, b: nat)
    requires t == p + d + s && a <= |d| && b <= |d|
    ensures PySlice(t, |p| + a, |p| + b) == PySlice(d, a, b)
  {
    if a <= b {
      assert t[|p|..|p| + |d|] == d;
      assert t[|p| + a..|p| + b] == t[|p|..|p| + |d|][a..b];
    }
  }

  /** The spliced prompt is the prefix, the spliced document and the suffix, for any cuts. */
  lemma SpliceTwoFrames(p: Text, d: Text, s: Text, cuts: seq<nat>, needles: seq<Text>)
    requires CutsBelow(cuts, |d|) && |cuts| == |needles|
    ensures Interleave(PyShards(p + d + s, Shift(cuts, |p|)), needles)
         == p + Interleave(PyShards(d, cuts), needles) + s
  {
    ShardsEmbed(p, d, s, cuts);
    InterleaveEmbed(PyShards(d, cuts), needles, p, s);
  }

  // ---------------------------------------------------------------------
  // `list.sort()` on a sample of distinct positions.

  function InsertSorted(s: seq<int>, x: int): (r: seq<int>)
    requires StrictlyIncreasing(s) && x !in s
    ensures StrictlyIncreasing(r)
    ensures multiset(r) == multiset(s) + multiset{x} && |r| == |s| + 1
    ensures forall y :: y in r <==> y in s || y == x
  {
    if |s| == 0 then [x]
    else if x < s[0] then
      InsertFront(s, x);
      [x] + s
    else
      var rest := InsertSorted(s[1..], x);
      InsertBehind(s, x, rest);
      [s[0]] + rest
  }

  lemma InsertFront(s: seq<int>, x: int)
    requires StrictlyIncreasing(s) && |s| > 0 && x < s[0]
    ensures StrictlyIncreasing([x] + s)
  {
    var r := [x] + s;
    forall i, j | 0 <= i < j < |r| ensures r[i] < r[j] {
      if i > 0 {
        assert r[i] == s[i - 1] && r[j] == s[j - 1];
      } else {
        assert r[j] == s[j - 1];
        assert s[0] <= s[j - 1];
      }
    }
  }

  /** One step of the insertion behind the head. */
  lemma InsertBehind(s: seq<int>, x: int, rest: seq<int>)
    requires StrictlyIncreasing(s) && |s| > 0 && x !in s && s[0] < x
    requires StrictlyIncreasing(rest)
    requires multiset(rest) == multiset(s[1..]) + multiset{x} && |rest| == |s|
    requires forall y :: y in rest <==> y in s[1..] || y == x
    ensures StrictlyIncreasing([s[0]] + rest)
    ensures multiset([s[0]] + rest) == multiset(s) + multiset{x}
    ensures forall y :: y in [s[0]] + rest <==> y in s || y == x
  {
    var r := [s[0]] + rest;
    assert s == [s[0]] + s[1..];
    forall k | 0 <= k < |rest| ensures s[0] < rest[k] {
      assert rest[k] in rest;
      if rest[k] != x {
        var m :| 0 <= m < |s[1..]| && s[1..][m] == rest[k];
        assert s[m + 1] == rest[k];
      }
    }
    forall i, j | 0 <= i < j < |r| ensures r[i] < r[j] {
      assert r[j] == rest[j - 1];
      if i > 0 {
        assert r[i] == rest[i - 1];
      }
    }
  }

  /** The ascending order of a sample of distinct positions. */
  function Sorted(s: seq<int>): (r: seq<int>)
    requires Distinct(s)
    ensures StrictlyIncreasing(r)
    ensures multiset(r) == multiset(s) && |r| == |s|
    ensures forall y :: y in r <==> y in s
  {
    if |s| == 0 then []
    else
      var n := |s| - 1;
      assert s == s[..n] + [s[n]];
      InsertSorted(Sorted(s[..n]), s[n])
  }

  /** Sorting non-negative positions gives non-negative positions. */
  function SortedNat(s: seq<nat>): (r: seq<nat>)
    requires Distinct(s)
    ensures r == Sorted(s)
  {
    var q := Sorted(s);
    assert forall k :: 0 <= k < |q| ==> q[k] in s;
    seq(|q|, k requires 0 <= k < |q| => q[k] as nat)
  }

  /** `random.sample(population, n)`: n distinct members of the population. */
  predicate IsSample(sample: seq<nat>, population: seq<nat>, n: nat)
  {
    |sample| == n && Distinct(sample) && forall k :: 0 <= k < n ==> sample[k] in population
  }

  /** The precondition a `random.sample(period_positions, n)` draw satisfies
      whenever the call does not raise. */
  predicate SampleFits(longText: Text, lang: Lang, n: nat, sample: seq<nat>)
  {
    var pp := PeriodPositions(longText, lang);
    n <= |pp| ==> IsSample(sample, pp, n)
  }

  /** A sample is sorted into distinct ascending terminator positions. */
  lemma SampleSorted(longText: Text, lang: Lang, n: nat, sample: seq<nat>)
    requires n <= |PeriodPositions(longText, lang)| && SampleFits(longText, lang, n, sample)
    ensures StrictlyIncreasing(SortedNat(sample)) && |SortedNat(sample)| == n
    ensures multiset(SortedNat(sample)) == multiset(sample)
    ensures forall k :: 0 <= k < n ==> SortedNat(sample)[k] in PeriodPositions(longText, lang)
    ensures forall k :: 0 <= k < n ==> SortedNat(sample)[k] < |longText| && longText[SortedNat(sample)[k]] == Terminator(lang)
  {
    var pp := PeriodPositions(longText, lang);
    PeriodPositionsSpec(longText, lang);
    var c := SortedNat(sample);
    forall k | 0 <= k < n ensures c[k] in pp {
      assert c[k] in sample;
    }
  }
}
